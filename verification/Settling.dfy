/**
 Faultless concurrent cycles. Workers that are at it at once can still take each other's names,
 but every cycle in which a device is without its name gives at least one its name, and a cycle
 in which none is leaves nothing to do.
 */
module Settling {
  import opened Options
  import opened Entities
  import opened IpLink
  import opened Naming
  import opened Ifcfg
  import opened Rhel
  import opened Cleanup
  import opened Cycle
  import opened Convergence
  import opened Pool
  import opened Serial
  import opened Recovery

  /** A round in which no command fails and every worker finishes. */
  ghost predicate FaultlessRound(n: Node, table: seq<NetworkInterface>, round: Round) {
    round.plans == Faultless(|table|) && round.unreadable == {} && round.stuck == {} &&
      AllFinished(PoolOf(n, table, round))
  }

  // ---- names are never lost --------------------------------------------------------

  /** Every device that has its name keeps one; `strictly`, some device without one gets one. */
  ghost predicate Gains(a: seq<Device>, b: seq<Device>, table: seq<NetworkInterface>, strictly: bool) {
    (forall j :: 0 <= j < |table| && Bound(a, table[j].mac) ==> Bound(b, table[j].mac)) &&
    (strictly ==> exists j :: 0 <= j < |table| && !Bound(a, table[j].mac) && Bound(b, table[j].mac))
  }

  lemma GainsCount(n: Node, m: Node, table: seq<NetworkInterface>, strictly: bool)
    requires Gains(n.devices, m.devices, table, strictly)
    ensures Nameless(m.devices, table) <= Nameless(n.devices, table)
    ensures strictly ==> Nameless(m.devices, table) < Nameless(n.devices, table)
  {
    hide Bound;
    hide Nameless;
    FewerNameless(n.devices, m.devices, table);
  }

  lemma TakingGains(a: seq<Device>, b: seq<Device>, table: seq<NetworkInterface>, x: nat, k: Slot)
    requires UniqueNames(a) && x < |table| && TookSlot(a, b, table[x].mac, k) && DistinctRows(table)
    ensures Gains(a, b, table, !Bound(a, table[x].mac))
  {
    hide Bound;
    hide TookSlot;
    TakenIsBound(a, b, table[x].mac, k);
    forall j | 0 <= j < |table| && Bound(a, table[j].mac)
      ensures Bound(b, table[j].mac)
    {
      if j != x { BoundFrame(a, b, table[j].mac, table[x].mac, k); }
    }
  }

  // ---- no cycle without a gain --------------------------------------------------------

  /** What a faultless worker has learned is what the unchanged device table says. */
  ghost predicate Informed(devices: seq<Device>, row: NetworkInterface, phase: Phase) {
    match phase
    case Named(k) => NameFor(devices, row.mac, {}) == Some(k)
    case Selected(k) => NameFor(devices, row.mac, {}) == Some(k)
    case Found(k, d) => NameFor(devices, row.mac, {}) == Some(k) && FindStep(devices, row.mac, NO_FAULTS) == Some(d)
    case Linked(k) => NameFor(devices, row.mac, {}) == Some(k)
    case Stored(k) => NameFor(devices, row.mac, {}) == Some(k)
    case Installed(k) => NameFor(devices, row.mac, {}) == Some(k)
    case _ => true
  }

  /** The phases before the rename. */
  predicate Early(phase: Phase) {
    phase.Waiting? || phase.Holding? || phase.Named? || phase.Selected? || phase.Found?
  }

  /**
   Until the first rename: every worker is informed, and the worker of a row without a name has not come past
   the rename.
   */
  ghost predicate Untouched(n: Node, table: seq<NetworkInterface>, job: Job, p: Pool)
    requires |p.phases| == |job.rows| == |table|
  {
    p.node.devices == n.devices &&
    forall i :: 0 <= i < |table| ==>
      Informed(n.devices, job.rows[i], p.phases[i]) && (!Bound(n.devices, table[i].mac) ==> Early(p.phases[i]))
  }

  /** One step of a worker while the table is unchanged: only the rename of an unnamed row's device changes it. */
  lemma EarlyStep(n: Node, row: NetworkInterface, phase: Phase)
    requires Steps(phase) && UniqueNames(n.devices) && OneDevice(n.devices, row.mac) && Validate(row) == Valid
    requires NameFor(n.devices, row.mac, {}).Some? && Informed(n.devices, row, phase)
    requires !Bound(n.devices, row.mac) ==> Early(phase) && row.status == Pending
    ensures var (n1, next) := Advance(n, row, phase, NO_FAULTS);
            if n1.devices == n.devices then Informed(n.devices, row, next) &&
              (!Bound(n.devices, row.mac) ==> Early(next))
            else !Bound(n.devices, row.mac) && phase.Found? && TookSlot(n.devices, n1.devices, row.mac, phase.slot)
  {
    hide Validate;
    hide Bound;
    hide OneDevice;
    hide IfcfgText;
    hide Drifted;
    hide NameFor;
    hide LinkStep;
    hide FindStep;
    hide WriteStep;
    hide ValidateSpec;
    hide TookSlot;
    match phase {
      case Selected(k) => FoundDevice(n.devices, row.mac);
      case Found(k, d) => EarlyLink(n.devices, row.mac, k, d);
      case _ =>
    }
  }

  lemma FoundDevice(devices: seq<Device>, mac: string)
    requires OneDevice(devices, mac)
    ensures FindStep(devices, mac, NO_FAULTS).Some?
  {
  }

  lemma EarlyLink(devices: seq<Device>, mac: string, k: Slot, d: string)
    requires UniqueNames(devices) && OneDevice(devices, mac)
    requires NameFor(devices, mac, {}) == Some(k) && FindStep(devices, mac, NO_FAULTS) == Some(d)
    ensures var (b, ok) := LinkStep(devices, d, k, NO_FAULTS);
            if Bound(devices, mac) then b == devices && ok else b != devices && TookSlot(devices, b, mac, k)
  {
    if Bound(devices, mac) {
      BoundDevice(devices, mac);
    } else {
      UnboundName(devices, mac);
      UnboundDevice(devices, mac, k);
    }
  }

  ghost predicate FaultlessJob(n: Node, table: seq<NetworkInterface>, job: Job) {
    job.rows == Fetch(table, n.stored) && job.plans == Faultless(|table|)
  }

  /** Either nothing was renamed and nobody got past the rename, or some row has gained its name. */
  ghost predicate Gaining(n: Node, table: seq<NetworkInterface>, job: Job, p: Pool)
    requires |p.phases| == |job.rows| == |table|
  {
    Gains(n.devices, p.node.devices, table, true) || Untouched(n, table, job, p)
  }

  lemma UnnamedIsPending(n: Node, table: seq<NetworkInterface>, i: nat)
    requires Sound(n, table) && i < |table| && !Bound(n.devices, table[i].mac)
    ensures Fetch(table, n.stored)[i].status == Pending
  {
    assert table[i] in table;
  }

  lemma SoundName(n: Node, table: seq<NetworkInterface>, x: nat)
    requires Sound(n, table) && x < |table|
    ensures NameFor(n.devices, table[x].mac, {}).Some?
  {
    hide GoodRow;
    hide OneDevice;
    hide Coherent;
    if !Bound(n.devices, table[x].mac) {
      assert x in UnboundFrom(n.devices, table, 0);
      assert FreeSlots(n.devices) != {};
      var k :| k in FreeSlots(n.devices);
      assert !InUse(n.devices, Name(k));
    }
  }

  /** What a step does to the device table: nothing, or the row's device takes a free name. */
  lemma AdvanceDevices(n: Node, row: NetworkInterface, phase: Phase, plan: Plan)
    requires Steps(phase) && UniqueNames(n.devices) && OneDevice(n.devices, row.mac) && Standing(n.devices, row, phase)
    ensures var b := Advance(n, row, phase, plan).0.devices;
            b == n.devices || (phase.Found? && TookSlot(n.devices, b, row.mac, phase.slot))
  {
    hide LinkStep;
    hide FindStep;
    hide WriteStep;
    hide ValidateSpec;
    hide NeedsProcessing;
    hide NameFor;
    hide OneDevice;
    hide TookSlot;
    hide IsDeviceOf;
    if phase.Found? { LinkTakes(n.devices, row.mac, phase.device, phase.slot, plan); }
  }

  lemma StepGains(table: seq<NetworkInterface>, job: Job, p: Pool, i: nat)
    requires PoolSound(job, table, p)
    ensures Gains(p.node.devices, Step(job, p, i).node.devices, table, false)
  {
    hide Advance;
    hide Bound;
    hide Standing;
    hide TookSlot;
    if Enabled(job, p, i) && Steps(p.phases[i]) {
      var row := job.rows[i];
      assert IsRow(row, table, i);
      SoundFacts(p.node, table, i, row);
      AdvanceDevices(p.node, row, p.phases[i], job.plans[i]);
      var b := Advance(p.node, row, p.phases[i], job.plans[i]).0.devices;
      if b != p.node.devices { TakingGains(p.node.devices, b, table, i, p.phases[i].slot); }
    }
  }

  lemma GainsCompose(a: seq<Device>, b: seq<Device>, c: seq<Device>, table: seq<NetworkInterface>, strictly: bool)
    requires Gains(a, b, table, strictly) && Gains(b, c, table, false)
    ensures Gains(a, c, table, strictly)
  {
    hide Bound;
    if strictly {
      var j :| 0 <= j < |table| && !Bound(a, table[j].mac) && Bound(b, table[j].mac);
      assert Bound(c, table[j].mac);
    }
  }

  lemma UntouchedStep(n: Node, table: seq<NetworkInterface>, job: Job, p: Pool, i: nat)
    requires PoolSound(job, table, p) && Sound(n, table) && FaultlessJob(n, table, job) && Untouched(n, table, job, p)
    ensures Gaining(n, table, job, Step(job, p, i))
  {
    hide Advance;
    hide Bound;
    hide Sound;
    hide Standing;
    hide Informed;
    hide TookSlot;
    hide Early;
    hide NameFor;
    var q := Step(job, p, i);
    if Enabled(job, p, i) {
      var row := job.rows[i];
      if Steps(p.phases[i]) {
        assert IsRow(row, table, i);
        SoundFacts(p.node, table, i, row);
        SoundFacts(n, table, i, row);
        SoundName(n, table, i);
        if !Bound(n.devices, table[i].mac) { UnnamedIsPending(n, table, i); }
        EarlyStep(p.node, row, p.phases[i]);
        if q.node.devices != n.devices {
          assert DistinctRows(table) by { SoundDistinct(n, table); }
          TakingGains(n.devices, q.node.devices, table, i, p.phases[i].slot);
        } else {
          assert forall j :: 0 <= j < |table| && j != i ==> q.phases[j] == p.phases[j];
        }
      } else {
        OutsideStep(n.devices, row, p.phases[i], q.phases[i]);
      }
    }
  }

  lemma SoundDistinct(n: Node, table: seq<NetworkInterface>)
    requires Sound(n, table)
    ensures DistinctRows(table)
  {
  }

  /** Getting and releasing the semaphore. */
  lemma OutsideStep(devices: seq<Device>, row: NetworkInterface, phase: Phase, next: Phase)
    requires (phase.Waiting? && next == Holding) || (phase.Leaving? && next == Finished(phase.outcome))
    ensures Informed(devices, row, next) && (Early(phase) ==> Early(next))
  {
  }

  lemma {:induction false} RunGains(n: Node, table: seq<NetworkInterface>, job: Job, schedule: seq<nat>)
    requires PoolSound(job, table, Start(job, n)) && Sound(n, table) && FaultlessJob(n, table, job)
    ensures Gains(n.devices, Run(job, Start(job, n), schedule).node.devices, table, false)
    ensures Gaining(n, table, job, Run(job, Start(job, n), schedule))
  {
    hide Step;
    hide Sound;
    hide Standing;
    hide Bound;
    hide Informed;
    hide Early;
    if schedule == [] {
      StartUntouched(n, table, job);
    } else {
      var init, i := schedule[..|schedule| - 1], schedule[|schedule| - 1];
      RunGains(n, table, job, init);
      RunKeepsSound(job, table, Start(job, n), init);
      var p := Run(job, Start(job, n), init);
      StepGains(table, job, p, i);
      GainsCompose(n.devices, p.node.devices, Step(job, p, i).node.devices, table, false);
      if Untouched(n, table, job, p) {
        UntouchedStep(n, table, job, p, i);
      } else {
        GainsCompose(n.devices, p.node.devices, Step(job, p, i).node.devices, table, true);
      }
    }
  }

  lemma StartUntouched(n: Node, table: seq<NetworkInterface>, job: Job)
    requires FaultlessJob(n, table, job)
    ensures Untouched(n, table, job, Start(job, n))
  {
    hide Bound;
  }

  /** No worker of a finished pool is before its rename, so a row without a name at the start has led to a gain. */
  lemma FinishedGains(n: Node, table: seq<NetworkInterface>, job: Job, p: Pool)
    requires |p.phases| == |job.rows| == |table| && AllFinished(p) && Gaining(n, table, job, p) &&
             Nameless(n.devices, table) > 0
    ensures Gains(n.devices, p.node.devices, table, true)
  {
    hide Bound;
    hide Informed;
    var open := set j: nat | j < |table| && !Bound(n.devices, table[j].mac);
    assert open != {};
    var j :| j in open;
    assert p.phases[j].Finished?;
  }

  /** A faultless concurrent cycle gives a name to at least one device, as long as one is without. */
  lemma {:induction false} RoundGains(n: Node, table: seq<NetworkInterface>, round: Round)
    requires Sound(n, table) && FaultlessRound(n, table, round)
    ensures Nameless(AfterRound(n, table, round).devices, table) <= Nameless(n.devices, table)
    ensures Nameless(n.devices, table) > 0 ==>
            Nameless(AfterRound(n, table, round).devices, table) < Nameless(n.devices, table)
  {
    hide Sound;
    hide Run;
    hide Bound;
    hide Gaining;
    hide Orphans;
    var job := JobOf(n, table, round);
    StartIsSound(n, table, round);
    RunGains(n, table, job, round.schedule);
    var p := PoolOf(n, table, round);
    var m := AfterRound(n, table, round);
    if Nameless(n.devices, table) > 0 {
      FinishedGains(n, table, job, p);
      GainsCount(n, m, table, true);
    } else {
      GainsCount(n, m, table, false);
    }
  }

  // ---- with every name given, a cycle settles every row -------------------------------------

  ghost predicate OwnText(files: map<string, string>, row: NetworkInterface, k: Slot) {
    FileName(k) in files && files[FileName(k)] == IfcfgText(row, k)
  }

  /** Where the faultless worker of a row with a name can stand, and what it has achieved. */
  ghost predicate OnCourse(n: Node, row: NetworkInterface, phase: Phase) {
    Informed(n.devices, row, phase) && row.id in n.stored &&
    match phase
    case Stored(k) => row == Current(row, n.stored) && OwnText(n.files, row, k)
    case Installed(k) => row == Current(row, n.stored) && OwnText(n.files, row, k)
    case RollingBack(_) => false
    case Reporting(_) => false
    case Leaving(_) => Skips(n, row)
    case Finished(_) => Skips(n, row)
    case _ => row == Current(row, n.stored)
  }

  lemma CourseStep(n: Node, row: NetworkInterface, phase: Phase)
    requires Steps(phase) && UniqueNames(n.devices) && OneDevice(n.devices, row.mac) && GoodRow(row)
    requires Bound(n.devices, row.mac) && OnCourse(n, row, phase)
    ensures var (n1, next) := Advance(n, row, phase, NO_FAULTS);
            n1.devices == n.devices && OnCourse(n1, row, next)
  {
    hide Bound;
    hide OneDevice;
    hide IfcfgText;
    hide Drifted;
    hide NameFor;
    hide LinkStep;
    hide FindStep;
    hide ValidateSpec;
    hide GoodRow;
    hide Skips;
    BoundDevice(n.devices, row.mac);
    GoodIsValid(row);
    match phase {
      case Named(k) => if !NeedsProcessing(n.files, row, k, true) { SkippingSkips(n, row, k); }
      case Found(k, d) => EarlyLink(n.devices, row.mac, k, d);
      case Stored(k) => InstalledValidates(n, row, k);
      case Installed(k) => FreshFileSkips(Save(n, row.id, Configured, true).0, row, k);
      case _ =>
    }
  }

  lemma GoodIsValid(row: NetworkInterface)
    requires GoodRow(row)
    ensures Validate(row) == Valid
  {
  }

  lemma SkippingSkips(n: Node, row: NetworkInterface, k: Slot)
    requires NameFor(n.devices, row.mac, {}) == Some(k) && row == Current(row, n.stored)
    requires !NeedsProcessing(n.files, row, k, true)
    ensures Skips(n, row)
  {
  }

  lemma InstalledValidates(n: Node, row: NetworkInterface, k: Slot)
    requires Carries(n.devices, row.mac, {}, k) && OwnText(n.files, row, k)
    ensures ValidateSpec(n, k, NO_FAULTS)
  {
  }

  /** A step touches at most the file of its slot and the status of its row. */
  lemma StepTouches(n: Node, row: NetworkInterface, phase: Phase, plan: Plan)
    requires Steps(phase)
    ensures var n1 := Advance(n, row, phase, plan).0;
            n1.stored.Keys == n.stored.Keys && n1.stored - {row.id} == n.stored - {row.id} &&
            (n1.files == n.files ||
             ((phase.Linked? || phase.RollingBack?) &&
               n1.files - {FileName(phase.slot)} == n.files - {FileName(phase.slot)}))
  {
    hide IfcfgText;
    hide LinkStep;
    hide FindStep;
    hide ValidateSpec;
    hide NeedsProcessing;
    hide NameFor;
    var n1 := Advance(n, row, phase, plan).0;
    if phase.Linked? || phase.RollingBack? {
      assert n1.files - {FileName(phase.slot)} == n.files - {FileName(phase.slot)};
    }
    if phase.Installed? || phase.Reporting? {
      assert n1.stored - {row.id} == n.stored - {row.id};
    }
  }

  lemma NamesDiffer(devices: seq<Device>, mac: string, k: Slot, other: string, j: Slot)
    requires UniqueNames(devices) && !SameMac(mac, other) && Bound(devices, mac) && Bound(devices, other)
    requires NameFor(devices, mac, {}) == Some(k) && NameFor(devices, other, {}) == Some(j)
    ensures j != k && FileName(j) != FileName(k)
  {
    var x :| Carries(devices, mac, {}, x);
    var y :| Carries(devices, other, {}, y);
    assert Carries(devices, mac, {}, k) && Carries(devices, other, {}, j);
    FileNameInjective(j, k);
  }

  lemma SkipsFrame(n: Node, m: Node, row: NetworkInterface, k: Slot)
    requires Skips(n, row) && m.devices == n.devices && NameFor(n.devices, row.mac, {}) == Some(k)
    requires FileName(k) in n.files ==> FileName(k) in m.files && m.files[FileName(k)] == n.files[FileName(k)]
    requires Column(n.stored, row.id) == Column(m.stored, row.id)
    ensures Skips(m, row)
  {
  }

  /** Another worker's step leaves a row on course. */
  lemma CourseFrame(n: Node, row: NetworkInterface, phase: Phase, plan: Plan, other: NetworkInterface, at: Phase)
    requires Steps(phase) && UniqueNames(n.devices) && !SameMac(row.mac, other.mac) && row.id != other.id
    requires Bound(n.devices, row.mac) && Bound(n.devices, other.mac)
    requires OnCourse(n, row, phase) && OnCourse(n, other, at) && Advance(n, row, phase, plan).0.devices == n.devices
    ensures OnCourse(Advance(n, row, phase, plan).0, other, at)
  {
    hide Bound;
    hide Advance;
    hide Skips;
    hide NameFor;
    hide IfcfgText;
    var n1 := Advance(n, row, phase, plan).0;
    StepTouches(n, row, phase, plan);
    SameColumn(n.stored, n1.stored, row.id, other.id);
    BoundIsNamed(n.devices, other.mac);
    var k := NameFor(n.devices, other.mac, {}).value;
    if n1.files != n.files {
      NamesDiffer(n.devices, row.mac, phase.slot, other.mac, k);
      SameEntry(n.files, n1.files, FileName(phase.slot), FileName(k));
    }
    if at.Leaving? || at.Finished? { SkipsFrame(n, n1, other, k); }
  }

  lemma BoundIsNamed(devices: seq<Device>, mac: string)
    requires Bound(devices, mac)
    ensures NameFor(devices, mac, {}).Some?
  {
  }

  ghost predicate AllOnCourse(n: Node, table: seq<NetworkInterface>, job: Job, p: Pool)
    requires |p.phases| == |job.rows| == |table|
  {
    p.node.devices == n.devices && forall i :: 0 <= i < |table| ==> OnCourse(p.node, job.rows[i], p.phases[i])
  }

  ghost predicate AllNamed(n: Node, table: seq<NetworkInterface>) {
    forall r :: r in table ==> Bound(n.devices, r.mac)
  }

  lemma SemaphoreCourse(n: Node, row: NetworkInterface, phase: Phase, next: Phase)
    requires (phase.Waiting? && next == Holding) || (phase.Leaving? && next == Finished(phase.outcome))
    requires OnCourse(n, row, phase)
    ensures OnCourse(n, row, next)
  {
  }

  lemma StepOnCourse(n: Node, table: seq<NetworkInterface>, job: Job, p: Pool, i: nat)
    requires PoolSound(job, table, p) && FaultlessJob(n, table, job) && AllNamed(n, table) &&
             AllOnCourse(n, table, job, p)
    ensures AllOnCourse(n, table, job, Step(job, p, i))
  {
    hide Advance;
    hide Bound;
    hide Sound;
    hide Standing;
    hide OnCourse;
    var q := Step(job, p, i);
    if Enabled(job, p, i) {
      var row := job.rows[i];
      if Steps(p.phases[i]) {
        assert IsRow(row, table, i) && table[i] in table;
        SoundFacts(p.node, table, i, row);
        CourseStep(p.node, row, p.phases[i]);
        forall j | 0 <= j < |table| && j != i
          ensures OnCourse(q.node, job.rows[j], q.phases[j])
        {
          RowsApart(p.node, job, table, i, j);
          assert IsRow(job.rows[j], table, j) && table[j] in table;
          CourseFrame(p.node, row, p.phases[i], NO_FAULTS, job.rows[j], p.phases[j]);
        }
      } else {
        SemaphoreCourse(p.node, row, p.phases[i], q.phases[i]);
      }
    }
  }

  lemma {:induction false} RunOnCourse(n: Node, table: seq<NetworkInterface>, job: Job, schedule: seq<nat>)
    requires PoolSound(job, table, Start(job, n)) && Sound(n, table) && FaultlessJob(n, table, job) &&
             AllNamed(n, table)
    ensures AllOnCourse(n, table, job, Run(job, Start(job, n), schedule))
  {
    hide Step;
    hide Sound;
    hide Standing;
    hide AllNamed;
    if schedule == [] {
      StartOnCourse(n, table, job);
    } else {
      hide OnCourse;
      var init, i := schedule[..|schedule| - 1], schedule[|schedule| - 1];
      RunOnCourse(n, table, job, init);
      RunKeepsSound(job, table, Start(job, n), init);
      StepOnCourse(n, table, job, Run(job, Start(job, n), init), i);
    }
  }

  lemma StartOnCourse(n: Node, table: seq<NetworkInterface>, job: Job)
    requires Sound(n, table) && FaultlessJob(n, table, job)
    ensures AllOnCourse(n, table, job, Start(job, n))
  {
    hide GoodRow;
    hide OneDevice;
    hide Bound;
    hide Coherent;
    hide FreeSlots;
    hide UnboundFrom;
    assert forall i :: 0 <= i < |table| ==> table[i] in table;
  }

  lemma NoneUnbound(n: Node, table: seq<NetworkInterface>)
    requires Nameless(n.devices, table) == 0
    ensures AllNamed(n, table)
  {
    hide Bound;
    var open := set j: nat | j < |table| && !Bound(n.devices, table[j].mac);
    forall r | r in table
      ensures Bound(n.devices, r.mac)
    {
      var j :| 0 <= j < |table| && table[j] == r;
      assert j !in open;
    }
  }

  /** Skipping does not depend on the status a row was fetched with. */
  lemma SkipsAnyStatus(n: Node, a: NetworkInterface, b: NetworkInterface)
    requires b == a.(status := b.status)
    ensures Skips(n, a) <==> Skips(n, b)
  {
    assert Current(a, n.stored) == Current(b, n.stored);
  }

  lemma SameActiveMacs(n: Node, m: Node, table: seq<NetworkInterface>)
    ensures ActiveMacs(Fetch(table, n.stored)) == ActiveMacs(Fetch(table, m.stored))
  {
    SameMacsFetched(n, table, table);
    SameMacsFetched(m, table, table);
  }

  /** When every device has its name, a faultless concurrent cycle leaves nothing to do. */
  lemma {:induction false} NamedRoundIsQuiet(n: Node, table: seq<NetworkInterface>, round: Round)
    requires Sound(n, table) && FaultlessRound(n, table, round) && Nameless(n.devices, table) == 0
    ensures var m := AfterRound(n, table, round); Quiet(m, Fetch(table, m.stored))
  {
    hide Sound;
    hide Run;
    hide Skips;
    hide Orphan;
    hide Standing;
    hide AllNamed;
    var job := JobOf(n, table, round);
    StartIsSound(n, table, round);
    NoneUnbound(n, table);
    RunOnCourse(n, table, job, round.schedule);
    RoundKeepsSound(n, table, round);
    var p, m := PoolOf(n, table, round), AfterRound(n, table, round);
    var rows, again := Fetch(table, n.stored), Fetch(table, m.stored);
    SameActiveMacs(n, m, table);
    SoundCoherent(p.node, table);
    forall r | r in again
      ensures Skips(m, r)
    {
      var j :| 0 <= j < |again| && again[j] == r;
      assert p.phases[j].Finished? && OnCourse(p.node, rows[j], p.phases[j]);
      assert rows[j] in rows;
      SkipSurvivesCleanup(p.node, rows, rows[j]);
      SkipsAnyStatus(m, rows[j], r);
    }
    CleanupTwice(p.node.files, {}, ActiveMacs(rows), {});
  }

  lemma SoundCoherent(n: Node, table: seq<NetworkInterface>)
    requires Sound(n, table)
    ensures Coherent(n.files)
  {
  }

  // ---- runs ------------------------------------------------------------------------------------

  /** From `n` on, every round of the history is faultless. */
  ghost predicate FaultlessHistory(n: Node, table: seq<NetworkInterface>, history: seq<Round>)
    requires ValidHistory(history, table)
  {
    forall i :: 0 <= i < |history| ==> FaultlessRound(AfterHistory(n, table, history[..i]), table, history[i])
  }

  lemma {:induction false} HistoryGains(n: Node, table: seq<NetworkInterface>, history: seq<Round>)
    requires Sound(n, table) && ValidHistory(history, table) && FaultlessHistory(n, table, history)
    ensures var m := AfterHistory(n, table, history);
            Nameless(m.devices, table) == 0 || Nameless(m.devices, table) + |history| <= Nameless(n.devices, table)
  {
    hide Sound;
    hide AfterRound;
    hide FaultlessRound;
    hide Nameless;
    if history != [] {
      var last := |history| - 1;
      var init := history[..last];
      assert forall i :: 0 <= i < last ==> init[..i] == history[..i];
      HistoryGains(n, table, init);
      HistoryKeepsSound(n, table, init);
      RoundGains(AfterHistory(n, table, init), table, history[last]);
    }
  }

  /**
   Settling: with any number of workers at once and in every interleaving, after at least one
   more faultless cycle than there are devices without their names, nothing is left to do.
   */
  lemma {:induction false} ConcurrentCyclesSettle(n: Node, table: seq<NetworkInterface>, history: seq<Round>)
    requires Sound(n, table) && ValidHistory(history, table) && FaultlessHistory(n, table, history)
    requires |history| > Nameless(n.devices, table)
    ensures var m := AfterHistory(n, table, history); Quiet(m, Fetch(table, m.stored))
  {
    hide Sound;
    hide AfterRound;
    hide FaultlessRound;
    hide Nameless;
    hide Quiet;
    var last := |history| - 1;
    var init := history[..last];
    assert forall i :: 0 <= i < last ==> init[..i] == history[..i];
    HistoryGains(n, table, init);
    HistoryKeepsSound(n, table, init);
    NamedRoundIsQuiet(AfterHistory(n, table, init), table, history[last]);
  }

  /** So whatever failed before, enough faultless concurrent cycles bring rest. */
  lemma {:induction false} ConcurrentRecovery(n: Node, table: seq<NetworkInterface>, faulty: seq<Round>,
                                              faultless: seq<Round>)
    requires Sound(n, table) && ValidHistory(faulty, table) && ValidHistory(faultless, table)
    requires FaultlessHistory(AfterHistory(n, table, faulty), table, faultless)
    requires |faultless| > Nameless(AfterHistory(n, table, faulty).devices, table)
    ensures var m := AfterHistory(AfterHistory(n, table, faulty), table, faultless); Quiet(m, Fetch(table, m.stored))
  {
    hide Sound;
    hide AfterHistory;
    hide FaultlessHistory;
    hide Nameless;
    hide Quiet;
    HistoryKeepsSound(n, table, faulty);
    ConcurrentCyclesSettle(AfterHistory(n, table, faulty), table, faultless);
  }
}
