/**
 Workers at once. Two of them that look for a free name before either takes it are given the same
 one; this costs a finished row its file exactly when two rows are without a name.
 */
module Collision {
  import opened Options
  import opened Entities
  import opened IpLink
  import opened Naming
  import opened Ifcfg
  import opened Rhel
  import opened Cycle
  import opened Convergence
  import opened Pool
  import opened Serial

  /** A worker that finished successfully no longer has its device under its name, or its file. */
  ghost predicate Robbed(job: Job, p: Pool, i: nat) {
    i < |p.phases| && i < |job.rows| && p.phases[i].Finished? && p.phases[i].outcome.Processed? &&
    !Agrees(p.node, job.rows[i], p.phases[i].outcome.slot)
  }

  // ---- two rows without a name: a run that ends with a row robbed -----------------------

  /** Scheduling one worker alone takes it to its end as if nobody else were there. */
  lemma {:induction false} RunAlone(job: Job, p: Pool, i: nat) returns (schedule: seq<nat>)
    requires ValidJob(job) && |p.phases| == |job.rows| && i < |p.phases| && Is(Inside, p.phases[i])
    ensures var (n, o) := Complete(p.node, job.rows[i], p.phases[i], job.plans[i]);
            var q := Run(job, p, schedule);
            q.node == n && q.phases == p.phases[i := Finished(o)]
    decreases Rank(p.phases[i])
  {
    hide Advance;
    hide Complete;
    var q := Step(job, p, i);
    assert Run(job, p, [i]) == q by { assert [i][..0] == []; }
    if p.phases[i].Leaving? {
      LeavingIsComplete(p.node, job.rows[i], p.phases[i], job.plans[i]);
      schedule := [i];
    } else {
      CompleteStep(p.node, job.rows[i], p.phases[i], job.plans[i]);
      AdvanceStaysInside(p.node, job.rows[i], p.phases[i], job.plans[i]);
      var rest := RunAlone(job, q, i);
      schedule := [i] + rest;
      RunAppend(job, p, [i], rest);
    }
  }

  lemma FourSteps(job: Job, p: Pool, a: nat, b: nat)
    requires ValidJob(job) && |p.phases| == |job.rows|
    ensures Run(job, p, [a, b, a, b]) == Step(job, Step(job, Step(job, Step(job, p, a), b), a), b)
  {
    hide Step;
    var s := [a, b, a, b];
    assert s[..3] == [a, b, a] && [a, b, a][..2] == [a, b] && [a, b][..1] == [a] && [a][..0] == [];
    assert Run(job, p, [a]) == Step(job, Run(job, p, []), a);
    assert Run(job, p, [a, b]) == Step(job, Run(job, p, [a]), b);
    assert Run(job, p, [a, b, a]) == Step(job, Run(job, p, [a, b]), a);
  }

  /** Two workers get in and are named before either renames its device. */
  lemma BothNamed(job: Job, node: Node, w: nat, l: nat, k: Slot)
    requires ValidJob(job) && job.maxTasks >= 2 && job.plans == Faultless(|job.rows|)
    requires w < |job.rows| && l < |job.rows| && w != l
    requires NameFor(node.devices, job.rows[w].mac, {}) == Some(k) &&
             NameFor(node.devices, job.rows[l].mac, {}) == Some(k)
    ensures var p := Run(job, Start(job, node), [w, l, w, l]);
            p.node == node && p.phases == Start(job, node).phases[w := Named(k)][l := Named(k)]
  {
    hide NameFor;
    var p := Start(job, node);
    var p1 := Step(job, p, w);
    assert p1.phases == p.phases[w := Holding] && p1.node == node && p1.held == 1;
    var p2 := Step(job, p1, l);
    assert p2.phases == p.phases[w := Holding][l := Holding] && p2.node == node;
    var p3 := Step(job, p2, w);
    assert p3.phases == p.phases[w := Named(k)][l := Holding] && p3.node == node;
    var p4 := Step(job, p3, l);
    assert p4.phases == p.phases[w := Named(k)][l := Named(k)] && p4.node == node;
    FourSteps(job, p, w, l);
  }

  /** The second of two workers on one slot: the rename is refused, and its rollback removes the winner's file. */
  lemma {:induction false} LoserRemovesFile(n: Node, a: NetworkInterface, b: NetworkInterface, k: Slot)
    requires UniqueNames(n.devices) && GoodRow(a) && GoodRow(b) && !SameMac(a.mac, b.mac) && OneDevice(n.devices, b.mac)
    requires InUse(n.devices, Name(k)) && n.devices[FirstWithMac(n.devices, b.mac).value].name != Name(k)
    requires FileName(k) in n.files && n.files[FileName(k)] == IfcfgText(a, k)
    ensures var (n1, o) := WorkerOnSlot(n, b, k, NO_FAULTS);
            o == Outcome.Failed(k) && n1.files == n.files - {FileName(k)} && n1.devices == n.devices &&
            n1.stored == if b.id in n.stored then n.stored[b.id := 0] else n.stored
  {
    hide IfcfgText;
    OtherTextDrifts(a, b, k);
    IndexOfUnique(n.devices, FirstWithMac(n.devices, b.mac).value);
  }

  lemma OtherTextDrifts(a: NetworkInterface, b: NetworkInterface, k: Slot)
    requires GoodRow(a) && !SameMac(a.mac, b.mac)
    ensures Drifted(b, IfcfgText(a, k))
  {
    ReadersAgree(a, k);
  }

  lemma WinnerProcesses(n: Node, a: NetworkInterface, k: Slot)
    requires UniqueNames(n.devices) && GoodRow(a) && OneDevice(n.devices, a.mac) && a.id in n.stored
    requires !Bound(n.devices, a.mac) && LowestFree(n.devices, 0) == Some(k) && NeedsProcessing(n.files, a, k, true)
    ensures var (n1, o) := WorkerOnSlot(n, a, k, NO_FAULTS);
            var i := FirstWithMac(n.devices, a.mac).value;
            o == Processed(k) && n1 == Node(n.devices[i := Device(Name(k), n.devices[i].mac)],
                                            n.files[FileName(k) := IfcfgText(a, k)], n.stored[a.id := 1])
  {
    hide ProcessSpec;
    hide IfcfgText;
    hide GoodRow;
    InstallWorks(n, a, k);
  }

  /** The winner's rename leaves the loser's device, without a slot, and the table in order. */
  lemma LoserStillThere(n: Node, a: NetworkInterface, b: NetworkInterface, k: Slot)
    requires UniqueNames(n.devices) && OneDevice(n.devices, a.mac) && OneDevice(n.devices, b.mac) &&
             !SameMac(a.mac, b.mac)
    requires !Bound(n.devices, b.mac) && !Bound(n.devices, a.mac) && LowestFree(n.devices, 0) == Some(k)
    ensures var i := FirstWithMac(n.devices, a.mac).value;
            var after := n.devices[i := Device(Name(k), n.devices[i].mac)];
            UniqueNames(after) && OneDevice(after, b.mac) && InUse(after, Name(k)) &&
            after[FirstWithMac(after, b.mac).value].name != Name(k)
  {
    var i := FirstWithMac(n.devices, a.mac).value;
    var after := n.devices[i := Device(Name(k), n.devices[i].mac)];
    UnboundDevice(n.devices, a.mac, k);
    assert OnlyRenames(n.devices, after, a.mac, k);
    OneDeviceFrame(n.devices, after, b.mac, a.mac, k);
    assert after[i].name == Name(k);
    var j := FirstWithMac(after, b.mac).value;
    assert j != i;
    assert after[j].name != after[i].name;
  }

  /**
   Of two rows that would get the same name, one at least needs processing: the file under it is not drifted
   for one MAC address only.
   */
  lemma OneNeedsProcessing(files: map<string, string>, a: NetworkInterface, b: NetworkInterface, k: Slot)
    requires !SameMac(a.mac, b.mac)
    ensures NeedsProcessing(files, a, k, true) || NeedsProcessing(files, b, k, true)
  {
    hide ReadConfig;
  }

  /** What the winner is left with: its device under the name, recorded as configured, and no file. */
  ghost predicate LeftWithout(n: Node, row: NetworkInterface, k: Slot) {
    UniqueNames(n.devices) && HasSlot(n.devices, row.mac, k) && FileName(k) !in n.files && Column(n.stored, row.id) == 1
  }

  /** One worker after the other on the same name, the second having looked before the first took it. */
  lemma WinnerThenLoser(n: Node, a: NetworkInterface, b: NetworkInterface, k: Slot)
    requires UniqueNames(n.devices) && GoodRow(a) && GoodRow(b) && a.id in n.stored && a.id != b.id &&
             !SameMac(a.mac, b.mac)
    requires OneDevice(n.devices, a.mac) && OneDevice(n.devices, b.mac)
    requires !Bound(n.devices, a.mac) && !Bound(n.devices, b.mac) && LowestFree(n.devices, 0) == Some(k)
    requires NeedsProcessing(n.files, a, k, true)
    ensures var (n1, first) := WorkerOnSlot(n, a, k, NO_FAULTS);
            var (n2, second) := WorkerOnSlot(n1, b, k, NO_FAULTS);
            first == Processed(k) && second == Outcome.Failed(k) && LeftWithout(n2, a, k)
  {
    hide WorkerOnSlot;
    hide GoodRow;
    hide IfcfgText;
    hide Bound;
    hide LowestFree;
    hide NeedsProcessing;
    WinnerProcesses(n, a, k);
    LoserStillThere(n, a, b, k);
    var n1 := WorkerOnSlot(n, a, k, NO_FAULTS).0;
    LoserRemovesFile(n1, a, b, k);
    RenamedHolds(n.devices, a.mac, k);
  }

  lemma RenamedHolds(devices: seq<Device>, mac: string, k: Slot)
    requires FirstWithMac(devices, mac).Some?
    ensures var i := FirstWithMac(devices, mac).value; HasSlot(devices[i := Device(Name(k), devices[i].mac)], mac, k)
  {
    var i := FirstWithMac(devices, mac).value;
    assert Holds(devices[i := Device(Name(k), devices[i].mac)], i, k, mac);
  }

  /** No later worker of another row gives the file back or takes anything more. */
  lemma StaysWithout(n: Node, row: NetworkInterface, k: Slot, other: NetworkInterface, plan: Plan)
    requires LeftWithout(n, row, k) && !SameMac(row.mac, other.mac) && row.id != other.id
    ensures LeftWithout(WorkerSpec(n, other, plan).0, row, k)
  {
    hide WorkerSpec;
    var (n1, o) := WorkerSpec(n, other, plan);
    WorkerFrame(n, other, plan);
    SlotIsOwnOrFree(n, other, plan);
    if n1 != n {
      SlotsApart(n.devices, other.mac, o.slot, row.mac, k);
      SameEntry(n.files, n1.files, FileName(o.slot), FileName(k));
      SameColumn(n.stored, n1.stored, other.id, row.id);
      var x: nat :| Holds(n.devices, x, k, row.mac);
      assert Holds(n1.devices, x, k, row.mac);
    }
  }

  /** Every worker has finished or not yet begun. */
  ghost predicate AtRest(p: Pool) {
    forall i :: 0 <= i < |p.phases| ==> p.phases[i].Waiting? || p.phases[i].Finished?
  }

  /** A waiting worker of a pool at rest can be run to its end as the whole worker. */
  lemma RunWaiting(job: Job, node: Node, schedule: seq<nat>, i: nat) returns (longer: seq<nat>)
    requires ValidJob(job) && AtRest(Run(job, Start(job, node), schedule))
    requires i < |job.rows| && Run(job, Start(job, node), schedule).phases[i].Waiting?
    ensures var p, q := Run(job, Start(job, node), schedule), Run(job, Start(job, node), longer);
            var (n, o) := WorkerSpec(p.node, job.rows[i], job.plans[i]);
            q.node == n && q.phases == p.phases[i := Finished(o)]
  {
    hide Complete;
    hide WorkerSpec;
    hide Advance;
    var p := Run(job, Start(job, node), schedule);
    RunAccounts(job, node, schedule);
    assert Where(p.phases, Inside) == {};
    var q := Step(job, p, i);
    assert (schedule + [i])[..|schedule|] == schedule;
    assert q == Run(job, Start(job, node), schedule + [i]);
    CompleteIsWorker(p.node, job.rows[i], job.plans[i]);
    var rest := RunAlone(job, q, i);
    RunAppend(job, Start(job, node), schedule + [i], rest);
    longer := schedule + [i] + rest;
  }

  /** From rest, the remaining workers can run one after the other, and the winner stays without its file. */
  lemma {:induction false} FinishOthers(job: Job, node: Node, schedule: seq<nat>, w: nat,
                                        k: Slot) returns (full: seq<nat>)
    requires ValidJob(job) && DistinctRows(job.rows) && AtRest(Run(job, Start(job, node), schedule))
    requires w < |job.rows| && Run(job, Start(job, node), schedule).phases[w] == Finished(Processed(k))
    requires LeftWithout(Run(job, Start(job, node), schedule).node, job.rows[w], k)
    ensures var p := Run(job, Start(job, node), full);
            AllFinished(p) && LeftWithout(p.node, job.rows[w], k) &&
            forall j :: 0 <= j < |job.rows| && Run(job, Start(job, node), schedule).phases[j].Finished? ==>
              p.phases[j] == Run(job, Start(job, node), schedule).phases[j]
    decreases Work(Run(job, Start(job, node), schedule).phases)
  {
    hide Run;
    hide WorkerSpec;
    hide LeftWithout;
    var p := Run(job, Start(job, node), schedule);
    full := schedule;
    if i :| 0 <= i < |p.phases| && p.phases[i].Waiting? {
      var longer := RunWaiting(job, node, schedule, i);
      StaysWithout(p.node, job.rows[w], k, job.rows[i], job.plans[i]);
      WorkUpdate(p.phases, i, Run(job, Start(job, node), longer).phases[i]);
      full := FinishOthers(job, node, longer, w, k);
    }
  }

  lemma RestAfterBoth(job: Job, p: Pool, w: nat, l: nat, a: Outcome, b: Outcome)
    requires w < |job.rows| && l < |job.rows|
    requires p.phases == seq(|job.rows|, _ => Waiting)[w := Finished(a)][l := Finished(b)]
    ensures AtRest(p)
  {
  }

  /**
   With capacity 2 or more and any two rows without a name, one of which must need processing,
   there is a complete run in which both get the same name, the first is recorded as configured,
   the second's rollback deletes the first one's file, and nothing gives it back.
   */
  lemma {:induction false} TwoWorkersCollide(job: Job, node: Node, w: nat, l: nat, k: Slot) returns (schedule: seq<nat>)
    requires ValidJob(job) && job.maxTasks >= 2 && job.plans == Faultless(|job.rows|) && Ready(node, job.rows)
    requires w < |job.rows| && l < |job.rows| && w != l
    requires !Bound(node.devices, job.rows[w].mac) && !Bound(node.devices, job.rows[l].mac)
    requires LowestFree(node.devices, 0) == Some(k) && NeedsProcessing(node.files, job.rows[w], k, true)
    ensures var p := Run(job, Start(job, node), schedule);
            AllFinished(p) && p.phases[w] == Finished(Processed(k)) && p.phases[l] == Finished(Outcome.Failed(k)) &&
            LeftWithout(p.node, job.rows[w], k)
  {
    hide Run;
    hide Complete;
    hide WorkerOnSlot;
    hide GoodRow;
    hide OneDevice;
    hide Bound;
    hide LowestFree;
    hide NeedsProcessing;
    hide LeftWithout;
    hide Coherent;
    hide FreeSlots;
    hide UnboundFrom;
    var a, b := job.rows[w], job.rows[l];
    assert a in job.rows && b in job.rows;
    DistinctAt(node, job.rows, w, l);
    UnboundName(node.devices, a.mac);
    UnboundName(node.devices, b.mac);
    BothNamed(job, node, w, l, k);
    WinnerThenLoser(node, a, b, k);
    var s0 := [w, l, w, l];
    var start := Start(job, node);
    var p := Run(job, start, s0);
    var s1 := RunAlone(job, p, w);
    CompleteOnSlot(node, a, k, NO_FAULTS);
    RunAppend(job, start, s0, s1);
    var q := Run(job, start, s0 + s1);
    var s2 := RunAlone(job, q, l);
    CompleteOnSlot(q.node, b, k, NO_FAULTS);
    RunAppend(job, start, s0 + s1, s2);
    var rest := s0 + s1 + s2;
    assert Run(job, start, rest).phases ==
           seq(|job.rows|, _ => Waiting)[w := Finished(Processed(k))][l := Finished(Outcome.Failed(k))];
    RestAfterBoth(job, Run(job, start, rest), w, l, Processed(k), Outcome.Failed(k));
    schedule := FinishOthers(job, node, rest, w, k);
  }

  // ---- both rows can lose ---------------------------------------------------------------

  /** A worker that needs processing, moved four times, stands before its validation with its file written. */
  lemma {:induction false} MovedToStored(job: Job, p: Pool, w: nat, k: Slot)
    requires ValidJob(job) && |p.phases| == |job.rows| && w < |job.rows| && job.plans[w] == NO_FAULTS
    requires p.phases[w] == Named(k) && NeedsProcessing(p.node.files, job.rows[w], k, true)
    requires Validate(job.rows[w]) == Valid && ConfigureSpec(p.node, job.rows[w], k, NO_FAULTS).1
    ensures var q := Run(job, p, [w, w, w, w]);
            q.node == ConfigureSpec(p.node, job.rows[w], k, NO_FAULTS).0 && q.phases == p.phases[w := Stored(k)]
  {
    hide NeedsProcessing;
    hide FindStep;
    hide LinkStep;
    hide WriteStep;
    hide Validate;
    FourSteps(job, p, w, w);
    var d := FindStep(p.node.devices, job.rows[w].mac, NO_FAULTS).value;
    var p1 := Step(job, p, w);
    assert p1.phases == p.phases[w := Selected(k)] && p1.node == p.node;
    var p2 := Step(job, p1, w);
    assert p2.phases == p.phases[w := Found(k, d)] && p2.node == p.node;
    var p3 := Step(job, p2, w);
    assert p3.phases == p.phases[w := Linked(k)];
    var p4 := Step(job, p3, w);
    assert p4.phases == p.phases[w := Stored(k)];
  }

  /** A worker whose file has gone before its validation fails. */
  lemma {:induction false} ValidatedTooLate(n: Node, row: NetworkInterface, k: Slot)
    requires FileName(k) !in n.files
    ensures var (n1, o) := Complete(n, row, Stored(k), NO_FAULTS);
            o == Outcome.Failed(k) && n1.devices == n.devices && n1.files == n.files &&
            n1.stored == if row.id in n.stored then n.stored[row.id := 0] else n.stored
  {
    hide Complete;
    hide FileName;
    CompleteStep(n, row, Stored(k), NO_FAULTS);
    CompleteFailure(n, row, k, NO_FAULTS);
    SameFile(n, k);
    CompleteFailure(RollbackSpec(n, Name(k), true), row, k, NO_FAULTS);
  }

  lemma {:induction false} SameFile(n: Node, k: Slot)
    requires FileName(k) !in n.files
    ensures RollbackSpec(n, Name(k), true) == n
  {
    assert n.files - {FileName(k)} == n.files;
  }

  /** Configure of the winner, on its own. */
  lemma {:induction false} WinnerConfigures(n: Node, a: NetworkInterface, k: Slot)
    requires UniqueNames(n.devices) && GoodRow(a) && OneDevice(n.devices, a.mac)
    requires !Bound(n.devices, a.mac) && LowestFree(n.devices, 0) == Some(k)
    ensures var (n1, ok) := ConfigureSpec(n, a, k, NO_FAULTS);
            var i := FirstWithMac(n.devices, a.mac).value;
            ok && n1 == Node(n.devices[i := Device(Name(k), n.devices[i].mac)], n.files[FileName(k) := IfcfgText(a, k)],
                             n.stored)
  {
    hide IfcfgText;
    hide GoodRow;
    UnboundDevice(n.devices, a.mac, k);
  }

  /**
   With room for two workers, both of two rows without a name can fail although no command does: the second removes
   the first one's file before it is validated. Neither is recorded as configured, so both are tried again.
   */
  lemma {:induction false} BothFail(job: Job, node: Node, w: nat, l: nat, k: Slot) returns (schedule: seq<nat>)
    requires ValidJob(job) && job.maxTasks >= 2 && job.plans == Faultless(|job.rows|) && Ready(node, job.rows)
    requires w < |job.rows| && l < |job.rows| && w != l
    requires !Bound(node.devices, job.rows[w].mac) && !Bound(node.devices, job.rows[l].mac)
    requires LowestFree(node.devices, 0) == Some(k) && NeedsProcessing(node.files, job.rows[w], k, true)
    ensures var p := Run(job, Start(job, node), schedule);
            p.phases[w] == Finished(Outcome.Failed(k)) && p.phases[l] == Finished(Outcome.Failed(k)) &&
            Column(p.node.stored, job.rows[w].id) == 0 && Column(p.node.stored, job.rows[l].id) == 0 &&
            FileName(k) !in p.node.files
  {
    hide Run;
    hide Complete;
    hide WorkerOnSlot;
    hide ConfigureSpec;
    hide GoodRow;
    hide OneDevice;
    hide Bound;
    hide LowestFree;
    hide NeedsProcessing;
    hide Coherent;
    hide FreeSlots;
    hide UnboundFrom;
    hide IfcfgText;
    hide FileName;
    var a, b := job.rows[w], job.rows[l];
    assert a in job.rows && b in job.rows;
    DistinctAt(node, job.rows, w, l);
    UnboundName(node.devices, a.mac);
    UnboundName(node.devices, b.mac);
    BothNamed(job, node, w, l, k);
    GoodPasses(a);
    WinnerConfigures(node, a, k);
    LoserStillThere(node, a, b, k);
    var start, s0, s1 := Start(job, node), [w, l, w, l], [w, w, w, w];
    var p := Run(job, start, s0);
    MovedToStored(job, p, w, k);
    RunAppend(job, start, s0, s1);
    var q := Run(job, start, s0 + s1);
    var s2 := RunAlone(job, q, l);
    CompleteOnSlot(q.node, b, k, NO_FAULTS);
    LoserRemovesFile(q.node, a, b, k);
    RunAppend(job, start, s0 + s1, s2);
    var r := Run(job, start, s0 + s1 + s2);
    var s3 := RunAlone(job, r, w);
    ValidatedTooLate(r.node, a, k);
    RunAppend(job, start, s0 + s1 + s2, s3);
    schedule := s0 + s1 + s2 + s3;
  }

  lemma {:induction false} GoodPasses(row: NetworkInterface)
    requires GoodRow(row)
    ensures Validate(row) == Valid
  {
  }

  lemma SlotIsLeft(node: Node, rows: seq<NetworkInterface>, w: nat)
    requires Ready(node, rows) && w < |rows| && !Bound(node.devices, rows[w].mac)
    ensures LowestFree(node.devices, 0).Some?
  {
    hide GoodRow;
    hide OneDevice;
    hide Coherent;
    hide Bound;
    assert w in UnboundFrom(node.devices, rows, 0);
    assert FreeSlots(node.devices) != {};
    var k :| k in FreeSlots(node.devices);
    assert !InUse(node.devices, Name(k));
  }

  lemma TwoOf(s: set<nat>) returns (a: nat, b: nat)
    requires |s| >= 2
    ensures a in s && b in s && a != b
  {
    a :| a in s;
    assert |s - {a}| >= 1;
    b :| b in s - {a};
  }

  // ---- at most one row without a name: nobody is robbed -----------------------------------

  /** The name a worker holds on to. */
  function Claim(phase: Phase): Option<Slot> {
    match phase
    case Named(k) => Some(k)
    case Selected(k) => Some(k)
    case Found(k, _) => Some(k)
    case Linked(k) => Some(k)
    case Stored(k) => Some(k)
    case Installed(k) => Some(k)
    case RollingBack(k) => Some(k)
    case Leaving(o) => if o.Processed? then Some(o.slot) else None
    case Finished(o) => if o.Processed? then Some(o.slot) else None
    case _ => None
  }

  lemma ClaimIsOwnOrFree(n: Node, row: NetworkInterface, phase: Phase)
    requires Facts(n, row, phase) && Claim(phase).Some?
    ensures OwnOrFree(n.devices, row.mac, Claim(phase).value)
  {
    hide IfcfgText;
    hide HasSlot;
  }

  /** A row that has its name works under a name it has. */
  ghost predicate UnderOwnName(devices: seq<Device>, row: NetworkInterface, phase: Phase) {
    Bound(devices, row.mac) && (Claim(phase).Some? ==> HasSlot(devices, row.mac, Claim(phase).value))
  }

  lemma OwnNameIsGiven(devices: seq<Device>, mac: string)
    requires UniqueNames(devices) && Bound(devices, mac)
    ensures NameFor(devices, mac, {}).Some? && HasSlot(devices, mac, NameFor(devices, mac, {}).value)
  {
    var k :| Carries(devices, mac, {}, k);
    CarriesHolds(devices, mac, {}, NameFor(devices, mac, {}).value);
  }

  lemma LinkUnderOwnName(devices: seq<Device>, mac: string, d: string, k: Slot, plan: Plan)
    requires HasSlot(devices, mac, k)
    ensures LinkStep(devices, d, k, plan).0 == devices
  {
    var i: nat :| Holds(devices, i, k, mac);
    assert InUse(devices, Name(k));
  }

  /** A step under one's own name leaves the device table alone and stays under that name. */
  lemma OwnNameStep(n: Node, row: NetworkInterface, phase: Phase, plan: Plan)
    requires Steps(phase) && UniqueNames(n.devices) && UnderOwnName(n.devices, row, phase) && plan.blind == {}
    ensures var (n1, next) := Advance(n, row, phase, plan);
            n1.devices == n.devices && UnderOwnName(n1.devices, row, next)
  {
    hide Bound;
    hide HasSlot;
    hide NeedsProcessing;
    hide NameFor;
    hide LinkStep;
    hide FindStep;
    hide WriteStep;
    hide Validate;
    hide ValidateSpec;
    OwnNameIsGiven(n.devices, row.mac);
    match phase {
      case Found(k, d) => LinkUnderOwnName(n.devices, row.mac, d, k, plan);
      case _ =>
    }
  }

  /** What a link step under `k` does to the devices of another MAC address. */
  lemma LinkFrame(devices: seq<Device>, mac: string, d: string, k: Slot, plan: Plan, other: string)
    requires UniqueNames(devices) && IsDeviceOf(devices, mac, d) && !SameMac(mac, other)
    ensures var b := LinkStep(devices, d, k, plan).0;
            (forall e :: IsDeviceOf(devices, other, e) ==> IsDeviceOf(b, other, e)) &&
            (forall s: Slot :: s != k && OwnOrFree(devices, other, s) ==> OwnOrFree(b, other, s)) &&
            (forall s: Slot :: HasSlot(devices, other, s) ==> HasSlot(b, other, s)) &&
            (Bound(devices, other) ==> Bound(b, other))
  {
    hide Bound;
    var b := LinkStep(devices, d, k, plan).0;
    var i: nat :| i < |devices| && devices[i].name == d && SameMac(devices[i].mac, mac);
    IndexOfUnique(devices, i);
    if b != devices {
      RenamePreservesTable(devices, i, k);
      assert b == devices[i := Device(Name(k), devices[i].mac)];
      forall e | IsDeviceOf(devices, other, e)
        ensures IsDeviceOf(b, other, e)
      {
        var j: nat :| j < |devices| && devices[j].name == e && SameMac(devices[j].mac, other);
        assert b[j] == devices[j];
      }
      forall s: Slot | HasSlot(devices, other, s)
        ensures HasSlot(b, other, s)
      {
        var j: nat :| Holds(devices, j, s, other);
        assert Holds(b, j, s, other);
      }
      forall s: Slot | s != k && !InUse(devices, Name(s))
        ensures !InUse(b, Name(s))
      {
        NameInjective(s, k);
        assert forall j :: 0 <= j < |b| && j != i ==> b[j] == devices[j];
      }
      if Bound(devices, other) {
        OwnNameIsGiven(devices, other);
        SlotGivesBound(b, other, NameFor(devices, other, {}).value);
      }
    }
  }

  lemma SlotGivesBound(devices: seq<Device>, mac: string, k: Slot)
    requires UniqueNames(devices) && HasSlot(devices, mac, k)
    ensures Bound(devices, mac)
  {
    CarriesHolds(devices, mac, {}, k);
  }

  /** A step of one worker keeps what is known of another that claims another name. */
  lemma FactsFrame(n: Node, row: NetworkInterface, phase: Phase, plan: Plan, other: NetworkInterface, at: Phase)
    requires Steps(phase) && UniqueNames(n.devices) && Facts(n, row, phase) && Facts(n, other, at)
    requires !SameMac(row.mac, other.mac) && (Claim(phase).Some? ==> Claim(phase) != Claim(at))
    ensures var n1 := Advance(n, row, phase, plan).0;
            Facts(n1, other, at) && (UnderOwnName(n.devices, other, at) ==> UnderOwnName(n1.devices, other, at))
  {
    hide OwnOrFree;
    hide HasSlot;
    hide IsDeviceOf;
    hide NeedsProcessing;
    hide NameFor;
    hide LinkStep;
    hide FindStep;
    hide WriteStep;
    hide ValidateSpec;
    hide Validate;
    hide Agrees;
    hide Bound;
    var n1 := Advance(n, row, phase, plan).0;
    if phase.Found? {
      LinkFrame(n.devices, row.mac, phase.device, phase.slot, plan, other.mac);
    } else {
      assert n1.devices == n.devices;
    }
    match at {
      case Stored(k) => AdvanceKeepsAgreement(n, row, phase, plan, other, k);
      case Installed(k) => AdvanceKeepsAgreement(n, row, phase, plan, other, k);
      case Leaving(o) => if o.Processed? { AdvanceKeepsAgreement(n, row, phase, plan, other, o.slot); }
      case Finished(o) => if o.Processed? { AdvanceKeepsAgreement(n, row, phase, plan, other, o.slot); }
      case _ =>
    }
  }

  /** All rows but possibly row `u` have names, and work under them. */
  ghost predicate AllButOne(job: Job, p: Pool, u: nat) {
    |p.phases| == |job.rows| && UniqueNames(p.node.devices) &&
    (forall i :: 0 <= i < |job.rows| ==> Facts(p.node, job.rows[i], p.phases[i])) &&
    (forall i :: 0 <= i < |job.rows| && i != u ==> UnderOwnName(p.node.devices, job.rows[i], p.phases[i]))
  }

  ghost predicate Sighted(job: Job) {
    ValidJob(job) && DistinctMacs(job.rows) && forall plan :: plan in job.plans ==> plan.blind == {}
  }

  lemma ClaimsApart(job: Job, p: Pool, u: nat, i: nat, j: nat)
    requires Sighted(job) && AllButOne(job, p, u) && i < |job.rows| && j < |job.rows| && i != j
    ensures Claim(p.phases[i]).Some? ==> Claim(p.phases[i]) != Claim(p.phases[j])
  {
    hide HasSlot;
    hide OwnOrFree;
    hide Facts;
    if Claim(p.phases[i]).Some? && Claim(p.phases[j]).Some? {
      ClaimIsOwnOrFree(p.node, job.rows[i], p.phases[i]);
      ClaimIsOwnOrFree(p.node, job.rows[j], p.phases[j]);
      if i != u {
        SlotsApart(p.node.devices, job.rows[j].mac, Claim(p.phases[j]).value, job.rows[i].mac,
          Claim(p.phases[i]).value);
      } else {
        SlotsApart(p.node.devices, job.rows[i].mac, Claim(p.phases[i]).value, job.rows[j].mac,
          Claim(p.phases[j]).value);
      }
    }
  }

  lemma SemaphoreFacts(n: Node, row: NetworkInterface, phase: Phase, next: Phase)
    requires (phase.Waiting? && next == Holding) || (phase.Leaving? && next == Finished(phase.outcome))
    requires Facts(n, row, phase)
    ensures Facts(n, row, next) && Claim(next) == Claim(phase)
  {
  }

  lemma StepAllButOne(job: Job, p: Pool, u: nat, i: nat)
    requires Sighted(job) && AllButOne(job, p, u)
    ensures AllButOne(job, Step(job, p, i), u)
  {
    hide Advance;
    hide Facts;
    hide UnderOwnName;
    hide Claim;
    var q := Step(job, p, i);
    if Enabled(job, p, i) {
      var row, plan := job.rows[i], job.plans[i];
      if Steps(p.phases[i]) {
        assert plan in job.plans;
        AdvanceFacts(p.node, row, p.phases[i], plan);
        if i != u { OwnNameStep(p.node, row, p.phases[i], plan); }
        forall j | 0 <= j < |job.rows| && j != i
          ensures Facts(q.node, job.rows[j], q.phases[j]) &&
                  (j != u ==> UnderOwnName(q.node.devices, job.rows[j], q.phases[j]))
        {
          ClaimsApart(job, p, u, i, j);
          FactsFrame(p.node, row, p.phases[i], plan, job.rows[j], p.phases[j]);
        }
      } else {
        SemaphoreFacts(p.node, row, p.phases[i], q.phases[i]);
        SameClaim(p.node.devices, row, p.phases[i], q.phases[i]);
      }
    }
  }

  lemma SameClaim(devices: seq<Device>, row: NetworkInterface, phase: Phase, next: Phase)
    requires Claim(next) == Claim(phase)
    ensures UnderOwnName(devices, row, phase) ==> UnderOwnName(devices, row, next)
  {
  }

  lemma {:induction false} RunAllButOne(job: Job, node: Node, u: nat, schedule: seq<nat>)
    requires Sighted(job) && UniqueNames(node.devices)
    requires forall i :: 0 <= i < |job.rows| && i != u ==> Bound(node.devices, job.rows[i].mac)
    ensures AllButOne(job, Run(job, Start(job, node), schedule), u)
  {
    hide Step;
    hide Bound;
    if schedule != [] {
      var init := schedule[..|schedule| - 1];
      RunAllButOne(job, node, u, init);
      StepAllButOne(job, Run(job, Start(job, node), init), u, schedule[|schedule| - 1]);
    }
  }

  /**
   With at most one row without a name, and as long as MAC queries work, no worker is robbed in
   any reachable pool: any number at once, any interleaving, any other command failing.
   */
  lemma {:induction false} NobodyRobbed(job: Job, node: Node, schedule: seq<nat>, i: nat)
    requires Sighted(job) && UniqueNames(node.devices) && |UnboundFrom(node.devices, job.rows, 0)| <= 1
    ensures !Robbed(job, Run(job, Start(job, node), schedule), i)
  {
    hide Bound;
    hide Agrees;
    hide Run;
    var open := UnboundFrom(node.devices, job.rows, 0);
    var u: nat := |job.rows|;
    if open != {} {
      u :| u in open;
      assert open == {u} by {
        forall j | j in open
          ensures j == u
        {
          if j != u { SubsetSize({j, u}, open); }
        }
      }
    }
    forall j | 0 <= j < |job.rows| && j != u
      ensures Bound(node.devices, job.rows[j].mac)
    {
      assert j !in open;
    }
    RunAllButOne(job, node, u, schedule);
  }

  // ---- exactly -------------------------------------------------------------------------------

  /** Some complete run leaves a row that finished successfully without its name or file. */
  ghost predicate CanRob(job: Job, node: Node)
    requires ValidJob(job)
  {
    exists schedule, i ::
      AllFinished(Run(job, Start(job, node), schedule)) && Robbed(job, Run(job, Start(job, node), schedule), i)
  }

  /**
   The collision, exactly: with room for two workers and no command failing, some run robs a row
   that finished successfully if and only if at least two rows are without a name.
   */
  lemma {:induction false} CollisionExactly(job: Job, node: Node)
    requires ValidJob(job) && job.maxTasks >= 2 && job.plans == Faultless(|job.rows|) && Ready(node, job.rows)
    ensures CanRob(job, node) <==> |UnboundFrom(node.devices, job.rows, 0)| >= 2
  {
    hide Run;
    hide Ready;
    hide Bound;
    hide Robbed;
    if |UnboundFrom(node.devices, job.rows, 0)| >= 2 {
      SomeoneRobbed(job, node);
    } else {
      ReadyIsSighted(job, node);
      forall schedule, i
        ensures !Robbed(job, Run(job, Start(job, node), schedule), i)
      {
        NobodyRobbed(job, node, schedule, i);
      }
    }
  }

  lemma ReadyIsSighted(job: Job, node: Node)
    requires ValidJob(job) && job.plans == Faultless(|job.rows|) && Ready(node, job.rows)
    ensures Sighted(job) && UniqueNames(node.devices)
  {
    hide GoodRow;
    hide OneDevice;
    hide Coherent;
    hide FreeSlots;
    hide UnboundFrom;
    hide SameMac;
    forall i, j | 0 <= i < |job.rows| && 0 <= j < |job.rows| && i != j
      ensures !SameMac(job.rows[i].mac, job.rows[j].mac)
    {
      DistinctAt(node, job.rows, i, j);
    }
  }

  lemma SomeoneRobbed(job: Job, node: Node)
    requires ValidJob(job) && job.maxTasks >= 2 && job.plans == Faultless(|job.rows|) && Ready(node, job.rows)
    requires |UnboundFrom(node.devices, job.rows, 0)| >= 2
    ensures CanRob(job, node)
  {
    hide Run;
    hide Ready;
    hide Bound;
    hide NeedsProcessing;
    var a, b := TwoOf(UnboundFrom(node.devices, job.rows, 0));
    SlotIsLeft(node, job.rows, a);
    var k := LowestFree(node.devices, 0).value;
    DistinctAt(node, job.rows, a, b);
    OneNeedsProcessing(node.files, job.rows[a], job.rows[b], k);
    var w, l := a, b;
    if !NeedsProcessing(node.files, job.rows[a], k, true) { w, l := b, a; }
    var schedule := TwoWorkersCollide(job, node, w, l, k);
    assert Robbed(job, Run(job, Start(job, node), schedule), w);
  }
}
