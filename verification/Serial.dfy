/**
 What serialising the workers buys. With capacity 1, in every interleaving and whatever
 fails, finished workers keep their device and file.
 */
module Serial {
  import opened Entities
  import opened IpLink
  import opened Naming
  import opened Ifcfg
  import opened Rhel
  import opened Pool

  // ---- one worker's steps add up to the worker ------------------------------------

  predicate Steps(phase: Phase) {
    !phase.Waiting? && !phase.Leaving? && !phase.Finished?
  }

  /** The worker run to its end from the given phase without interference. */
  function Complete(n: Node, row: NetworkInterface, phase: Phase, plan: Plan): (Node, Outcome)
    requires !phase.Waiting?
    decreases Rank(phase)
  {
    if phase.Leaving? || phase.Finished? then (n, phase.outcome)
    else
      AdvanceStaysInside(n, row, phase, plan);
      var (n1, next) := Advance(n, row, phase, plan);
      Complete(n1, row, next, plan)
  }

  lemma CompleteStep(n: Node, row: NetworkInterface, phase: Phase, plan: Plan)
    requires Steps(phase)
    ensures var (n1, next) := Advance(n, row, phase, plan);
            !next.Waiting? && Complete(n, row, phase, plan) == Complete(n1, row, next, plan)
  {
    AdvanceStaysInside(n, row, phase, plan);
  }

  lemma LeavingIsComplete(n: Node, row: NetworkInterface, phase: Phase, plan: Plan)
    requires phase.Leaving?
    ensures Complete(n, row, phase, plan) == (n, phase.outcome)
  {
  }

  /** From a failure on: roll back if asked, then record the failure. */
  lemma CompleteFailure(n: Node, row: NetworkInterface, k: Slot, plan: Plan)
    ensures Complete(n, row, Reporting(k), plan) ==
            (Save(n, row.id, Status.Failed, plan.saveFailed).0, Outcome.Failed(k))
    ensures Complete(n, row, RollingBack(k), plan) ==
            Complete(RollbackSpec(n, Name(k), plan.remove), row, Reporting(k), plan)
  {
    CompleteStep(n, row, Reporting(k), plan);
    CompleteStep(n, row, RollingBack(k), plan);
  }

  lemma CompleteInstalled(n: Node, row: NetworkInterface, k: Slot, plan: Plan)
    ensures var (n1, ok) := Save(n, row.id, Configured, plan.saveConfigured);
            Complete(n, row, Installed(k), plan) == if ok
              then (n1, Processed(k)) else Complete(n1, row, Reporting(k), plan)
  {
    CompleteStep(n, row, Installed(k), plan);
  }

  lemma CompleteConfigure(n: Node, row: NetworkInterface, k: Slot, plan: Plan)
    ensures var (n1, ok) := ConfigureSpec(n, row, k, plan);
            Complete(n, row, Selected(k), plan) == Complete(n1, row, if ok then Stored(k) else RollingBack(k), plan)
  {
    hide Save;
    CompleteStep(n, row, Selected(k), plan);
    var found := FindStep(n.devices, row.mac, plan);
    if found.Some? {
      CompleteStep(n, row, Found(k, found.value), plan);
      var (devices, linked) := LinkStep(n.devices, found.value, k, plan);
      if linked {
        CompleteStep(n.(devices := devices), row, Linked(k), plan);
      }
    }
  }

  lemma CompleteInstall(n: Node, row: NetworkInterface, k: Slot, plan: Plan)
    ensures var (n1, ok) := InstallSpec(n, row, k, plan);
            Complete(n, row, Selected(k), plan) == Complete(n1, row, if ok then Installed(k) else Reporting(k), plan)
  {
    hide ConfigureSpec;
    hide Save;
    var n1 := ConfigureSpec(n, row, k, plan).0;
    CompleteConfigure(n, row, k, plan);
    CompleteStep(n1, row, Stored(k), plan);
    CompleteFailure(n1, row, k, plan);
  }

  /** The steps after the naming do what the worker does on its slot. */
  lemma CompleteOnSlot(n: Node, row: NetworkInterface, k: Slot, plan: Plan)
    ensures Complete(n, row, Named(k), plan) == WorkerOnSlot(n, row, k, plan)
  {
    hide InstallSpec;
    hide Save;
    CompleteStep(n, row, Named(k), plan);
    CompleteInstall(n, row, k, plan);
    var n1 := InstallSpec(n, row, k, plan).0;
    CompleteInstalled(n1, row, k, plan);
    var n2 := Save(n1, row.id, Configured, plan.saveConfigured).0;
    CompleteFailure(n2, row, k, plan);
    CompleteFailure(n1, row, k, plan);
    CompleteFailure(n, row, k, plan);
  }

  /** A worker's small steps, run without interference, are the worker. */
  lemma {:induction false} CompleteIsWorker(n: Node, row: NetworkInterface, plan: Plan)
    ensures Complete(n, row, Holding, plan) == WorkerSpec(n, row, plan)
  {
    CompleteStep(n, row, Holding, plan);
    var name := NameFor(n.devices, row.mac, plan.blind);
    if name.Some? {
      CompleteOnSlot(n, row, name.value, plan);
    }
  }

  // ---- agreement -----------------------------------------------------------------------

  /** The device of the slot carries the row's MAC address, and the slot's file is the row's. */
  ghost predicate Agrees(n: Node, row: NetworkInterface, k: Slot) {
    HasSlot(n.devices, row.mac, k) && FileName(k) in n.files && n.files[FileName(k)] == IfcfgText(row, k)
  }

  ghost predicate HasSlot(devices: seq<Device>, mac: string, k: Slot) {
    exists i: nat :: Holds(devices, i, k, mac)
  }

  ghost predicate OwnOrFree(devices: seq<Device>, mac: string, k: Slot) {
    HasSlot(devices, mac, k) || !InUse(devices, Name(k))
  }

  ghost predicate IsDeviceOf(devices: seq<Device>, mac: string, name: string) {
    exists i: nat :: i < |devices| && devices[i].name == name && SameMac(devices[i].mac, mac)
  }

  /** What is known of the node while a worker stands at a phase and nobody else is inside. */
  ghost predicate Facts(n: Node, row: NetworkInterface, phase: Phase) {
    match phase
    case Named(k) => OwnOrFree(n.devices, row.mac, k)
    case Selected(k) => OwnOrFree(n.devices, row.mac, k)
    case RollingBack(k) => OwnOrFree(n.devices, row.mac, k)
    case Found(k, d) => OwnOrFree(n.devices, row.mac, k) && IsDeviceOf(n.devices, row.mac, d)
    case Linked(k) => HasSlot(n.devices, row.mac, k)
    case Stored(k) => Agrees(n, row, k)
    case Installed(k) => Agrees(n, row, k)
    case Leaving(o) => o.Processed? ==> Agrees(n, row, o.slot)
    case Finished(o) => o.Processed? ==> Agrees(n, row, o.slot)
    case _ => true
  }

  /** Two MAC addresses do not share a slot. */
  lemma SlotsApart(devices: seq<Device>, mac: string, k: Slot, other: string, j: Slot)
    requires UniqueNames(devices) && !SameMac(mac, other)
    requires OwnOrFree(devices, mac, k) && HasSlot(devices, other, j)
    ensures j != k && FileName(j) != FileName(k)
  {
    FileNameInjective(j, k);
    var x: nat :| Holds(devices, x, j, other);
    if HasSlot(devices, mac, k) {
      var y: nat :| Holds(devices, y, k, mac);
      assert x != y && devices[x].name != devices[y].name;
    }
  }

  lemma LinkKeeps(devices: seq<Device>, mac: string, d: string, k: Slot, plan: Plan)
    requires UniqueNames(devices) && OwnOrFree(devices, mac, k) && IsDeviceOf(devices, mac, d)
    ensures var (after, ok) := LinkStep(devices, d, k, plan);
            UniqueNames(after) && OwnOrFree(after, mac, k) && (ok ==> HasSlot(after, mac, k)) &&
            (forall other, j: Slot :: !SameMac(mac, other) && HasSlot(devices, other, j) ==> HasSlot(after, other, j))
  {
    var (after, ok) := LinkStep(devices, d, k, plan);
    var i: nat :| i < |devices| && devices[i].name == d && SameMac(devices[i].mac, mac);
    IndexOfUnique(devices, i);
    if d == Name(k) {
      assert Holds(after, i, k, mac);
    } else if after != devices {
      RenamePreservesTable(devices, i, k);
      assert Holds(after, i, k, mac);
      forall other, j: Slot | !SameMac(mac, other) && HasSlot(devices, other, j)
        ensures HasSlot(after, other, j)
      {
        var x: nat :| Holds(devices, x, j, other);
        assert x != i;
        assert Holds(after, x, j, other);
      }
    }
  }

  lemma FindGivesDevice(devices: seq<Device>, mac: string, plan: Plan)
    ensures var found := FindStep(devices, mac, plan); found.Some? ==> IsDeviceOf(devices, mac, found.value)
  {
  }

  lemma NameGivesSlot(devices: seq<Device>, mac: string, blind: set<Slot>)
    requires UniqueNames(devices)
    ensures var name := NameFor(devices, mac, blind); name.Some? ==> OwnOrFree(devices, mac, name.value)
  {
    var name := NameFor(devices, mac, blind);
    if name.Some? {
      CarriesHolds(devices, mac, blind, name.value);
    }
  }

  /** A step keeps what is known of the worker that makes it. */
  lemma AdvanceFacts(n: Node, row: NetworkInterface, phase: Phase, plan: Plan)
    requires Steps(phase) && UniqueNames(n.devices) && Facts(n, row, phase)
    ensures var (n1, next) := Advance(n, row, phase, plan); UniqueNames(n1.devices) && Facts(n1, row, next)
  {
    hide OwnOrFree;
    hide HasSlot;
    hide IsDeviceOf;
    hide NeedsProcessing;
    hide IfcfgText;
    hide NameFor;
    hide LinkStep;
    hide FindStep;
    match phase {
      case Holding => NameGivesSlot(n.devices, row.mac, plan.blind);
      case Selected(k) => FindGivesDevice(n.devices, row.mac, plan);
      case Found(k, d) => LinkKeeps(n.devices, row.mac, d, k, plan);
      case Stored(k) => OwnIsOwnOrFree(n.devices, row.mac, k);
      case Linked(k) => OwnIsOwnOrFree(n.devices, row.mac, k);
      case _ =>
    }
  }

  lemma OwnIsOwnOrFree(devices: seq<Device>, mac: string, k: Slot)
    requires HasSlot(devices, mac, k)
    ensures OwnOrFree(devices, mac, k)
  {
  }

  /** A step of one worker, rollback included, keeps the agreement of every other row. */
  lemma {:induction false} AdvanceKeepsAgreement(n: Node, row: NetworkInterface, phase: Phase, plan: Plan,
                                                 other: NetworkInterface, j: Slot)
    requires Steps(phase) && UniqueNames(n.devices) && Facts(n, row, phase)
    requires Agrees(n, other, j) && !SameMac(row.mac, other.mac)
    ensures Agrees(Advance(n, row, phase, plan).0, other, j)
  {
    hide OwnOrFree;
    hide HasSlot;
    hide IsDeviceOf;
    hide NeedsProcessing;
    hide IfcfgText;
    hide NameFor;
    hide LinkStep;
    hide FindStep;
    match phase {
      case Found(k, d) => LinkKeeps(n.devices, row.mac, d, k, plan);
      case Linked(k) =>
        OwnIsOwnOrFree(n.devices, row.mac, k);
        SlotsApart(n.devices, row.mac, k, other.mac, j);
      case RollingBack(k) => SlotsApart(n.devices, row.mac, k, other.mac, j);
      case _ =>
    }
  }

  ghost predicate DistinctMacs(rows: seq<NetworkInterface>) {
    forall i, j :: 0 <= i < |rows| && 0 <= j < |rows| && i != j ==> !SameMac(rows[i].mac, rows[j].mac)
  }

  ghost predicate SerialJob(job: Job) {
    ValidJob(job) && job.maxTasks <= 1 && DistinctMacs(job.rows)
  }

  ghost predicate Agreement(job: Job, p: Pool)
    requires |p.phases| == |job.rows|
  {
    UniqueNames(p.node.devices) && forall i :: 0 <= i < |job.rows| ==> Facts(p.node, job.rows[i], p.phases[i])
  }

  /** With capacity 1 at most one worker is inside. */
  lemma OnlyOneInside(job: Job, p: Pool, i: nat, j: nat)
    requires Accounts(job, p) && Capacity(job) == 1 && i < |p.phases| && j < |p.phases|
    requires Is(Inside, p.phases[i]) && Is(Inside, p.phases[j])
    ensures i == j
  {
    var inside := Where(p.phases, Inside);
    assert {i, j} <= inside;
    assert inside == {i, j} + (inside - {i, j});
    assert i != j ==> |{i, j}| == 2;
  }

  lemma StepAgreement(job: Job, p: Pool, i: nat)
    requires SerialJob(job) && Accounts(job, p) && Agreement(job, p)
    ensures Agreement(job, Step(job, p, i))
  {
    hide Advance;
    hide Agrees;
    hide OwnOrFree;
    hide HasSlot;
    hide IsDeviceOf;
    var q := Step(job, p, i);
    if Enabled(job, p, i) && Steps(p.phases[i]) {
      AdvanceFacts(p.node, job.rows[i], p.phases[i], job.plans[i]);
      forall j | 0 <= j < |job.rows| && j != i
        ensures Facts(q.node, job.rows[j], q.phases[j])
      {
        assert q.phases[j] == p.phases[j];
        if Is(Inside, p.phases[j]) {
          OnlyOneInside(job, p, i, j);
        } else if p.phases[j].Finished? && p.phases[j].outcome.Processed? {
          AdvanceKeepsAgreement(p.node, job.rows[i], p.phases[i], job.plans[i], job.rows[j], p.phases[j].outcome.slot);
        }
      }
    }
  }

  lemma {:induction false} RunAgreement(job: Job, node: Node, schedule: seq<nat>)
    requires SerialJob(job) && UniqueNames(node.devices)
    ensures Agreement(job, Run(job, Start(job, node), schedule))
  {
    hide Step;
    hide Agrees;
    if schedule != [] {
      var init := schedule[..|schedule| - 1];
      RunAgreement(job, node, init);
      RunAccounts(job, node, init);
      StepAgreement(job, Run(job, Start(job, node), init), schedule[|schedule| - 1]);
    }
  }

  /**
   Serialised workers keep agreement: in every pool reachable with capacity 1, whatever
   commands fail and in whatever order the workers move, each worker that finished
   successfully still has its device under its slot and its own text in the slot's file,
   and no two of them share a slot.
   */
  lemma {:induction false} SerialWorkersAgree(job: Job, node: Node, schedule: seq<nat>)
    requires SerialJob(job) && UniqueNames(node.devices)
    ensures var p := Run(job, Start(job, node), schedule);
            (forall i :: i in Where(p.phases, Succeeded) ==> Agrees(p.node, job.rows[i], p.phases[i].outcome.slot)) &&
            (forall i, j :: i in Where(p.phases, Succeeded) && j in Where(p.phases, Succeeded) && i != j ==>
               p.phases[i].outcome.slot != p.phases[j].outcome.slot)
  {
    RunAgreement(job, node, schedule);
    AgreementMeans(job, Run(job, Start(job, node), schedule));
  }

  lemma AgreementMeans(job: Job, p: Pool)
    requires |p.phases| == |job.rows| && DistinctMacs(job.rows) && Agreement(job, p)
    ensures (forall i :: i in Where(p.phases, Succeeded) ==> Agrees(p.node, job.rows[i], p.phases[i].outcome.slot)) &&
            (forall i, j :: i in Where(p.phases, Succeeded) && j in Where(p.phases, Succeeded) && i != j ==>
               p.phases[i].outcome.slot != p.phases[j].outcome.slot)
  {
    hide IfcfgText;
    hide HasSlot;
    forall i | i in Where(p.phases, Succeeded)
      ensures Agrees(p.node, job.rows[i], p.phases[i].outcome.slot)
    {
      assert Facts(p.node, job.rows[i], p.phases[i]);
    }
    forall i, j | i in Where(p.phases, Succeeded) && j in Where(p.phases, Succeeded) && i != j
      ensures p.phases[i].outcome.slot != p.phases[j].outcome.slot
    {
      OwnIsOwnOrFree(p.node.devices, job.rows[i].mac, p.phases[i].outcome.slot);
      SlotsApart(p.node.devices, job.rows[i].mac, p.phases[i].outcome.slot, job.rows[j].mac, p.phases[j].outcome.slot);
    }
  }
}
