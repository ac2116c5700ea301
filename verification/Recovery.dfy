/**
 Runs of concurrent cycles with faults. Whatever fails in however many cycles, with any number
 of workers at once and wherever a cycle is cut short, the node stays one from which a
 faultless serialised cycle reaches the quiet state.
 */
module Recovery {
  import opened Options
  import opened Entities
  import opened IpLink
  import opened Naming
  import opened Ifcfg
  import opened Rhel
  import opened Cleanup
  import opened Cycle
  import opened Convergence
  import opened Pool
  import opened Serial
  import opened CutFile

  /** What every cycle keeps, for the static columns of the table. */
  ghost predicate Sound(n: Node, table: seq<NetworkInterface>) {
    UniqueNames(n.devices) && DistinctRows(table) && Coherent(n.files) &&
    (forall r :: r in table ==> GoodRow(r) && OneDevice(n.devices, r.mac) && r.id in n.stored) &&
    |UnboundFrom(n.devices, table, 0)| <= |FreeSlots(n.devices)| &&
    (forall r :: r in table && n.stored[r.id] == 1 ==> Bound(n.devices, r.mac))
  }

  // ---- devices --------------------------------------------------------------------

  /** The first device of the MAC address took the free slot. */
  predicate TookSlot(a: seq<Device>, b: seq<Device>, mac: string, k: Slot) {
    FirstWithMac(a, mac).Some? && !InUse(a, Name(k)) &&
    b == a[FirstWithMac(a, mac).value := Device(Name(k), a[FirstWithMac(a, mac).value].mac)]
  }

  lemma HeldIsBound(devices: seq<Device>, mac: string, k: Slot)
    requires UniqueNames(devices) && exists i: nat :: Holds(devices, i, k, mac)
    ensures Bound(devices, mac)
  {
    CarriesHolds(devices, mac, {}, k);
  }

  lemma TakenIsBound(a: seq<Device>, b: seq<Device>, mac: string, k: Slot)
    requires UniqueNames(a) && TookSlot(a, b, mac, k)
    ensures UniqueNames(b) && OnlyRenames(a, b, mac, k) && Bound(b, mac)
  {
    var i := FirstWithMac(a, mac).value;
    RenamePreservesTable(a, i, k);
    assert Holds(b, i, k, mac);
    HeldIsBound(b, mac, k);
  }

  /** A slot changes hands: the old one of the device, if it had one, is free afterwards. */
  lemma SlotsExchanged(a: seq<Device>, b: seq<Device>, mac: string, k: Slot, j: Slot)
    requires UniqueNames(a) && TookSlot(a, b, mac, k) && Holds(a, FirstWithMac(a, mac).value, j, mac)
    ensures FreeSlots(b) == FreeSlots(a) - {k} + {j} && k in FreeSlots(a) && j !in FreeSlots(a)
  {
    var i := FirstWithMac(a, mac).value;
    assert a[i].name == Name(j) && b[i].name == Name(k);
    assert forall x :: 0 <= x < |a| && x != i ==> b[x] == a[x];
    forall s: Slot
      ensures s in FreeSlots(b) <==> s in FreeSlots(a) - {k} + {j}
    {
      NameInjective(s, k);
      NameInjective(s, j);
      NameInjective(j, k);
      if InUse(a, Name(s)) && s != j {
        var x :| 0 <= x < |a| && a[x].name == Name(s);
        assert x != i && b[x].name == Name(s);
      }
    }
  }

  lemma ExchangedSize(free: set<Slot>, k: Slot, j: Slot)
    requires k in free && j !in free
    ensures |free - {k} + {j}| == |free|
  {
  }

  /** Enough slots remain for the rows without one. */
  lemma {:induction false} SlotsSuffice(a: seq<Device>, b: seq<Device>, table: seq<NetworkInterface>, x: nat, k: Slot)
    requires UniqueNames(a) && x < |table| && DistinctRows(table) && OneDevice(a, table[x].mac)
    requires TookSlot(a, b, table[x].mac, k)
    requires |UnboundFrom(a, table, 0)| <= |FreeSlots(a)|
    ensures |UnboundFrom(b, table, 0)| <= |FreeSlots(b)|
  {
    hide TookSlot;
    hide OneDevice;
    hide FreeSlots;
    hide Bound;
    var mac := table[x].mac;
    TakenIsBound(a, b, mac, k);
    var before, after := UnboundFrom(a, table, 0), UnboundFrom(b, table, 0);
    forall j: nat | j < |table| && j != x
      ensures Bound(a, table[j].mac) <==> Bound(b, table[j].mac)
    {
      BoundFrame(a, b, table[j].mac, mac, k);
    }
    assert after == before - {x};
    if Bound(a, mac) {
      assert after == before;
      BoundTakes(a, b, mac, k);
    } else {
      assert |after| == |before| - 1;
      UnboundTakes(a, b, mac, k);
    }
  }

  lemma BoundTakes(a: seq<Device>, b: seq<Device>, mac: string, k: Slot)
    requires UniqueNames(a) && OneDevice(a, mac) && TookSlot(a, b, mac, k) && Bound(a, mac)
    ensures |FreeSlots(b)| == |FreeSlots(a)|
  {
    hide FreeSlots;
    var j :| Carries(a, mac, {}, j);
    CarriesHolds(a, mac, {}, j);
    var i: nat :| Holds(a, i, j, mac);
    assert FirstWithMac(a, mac) == Some(i);
    SlotsExchanged(a, b, mac, k, j);
    ExchangedSize(FreeSlots(a), k, j);
  }

  lemma UnboundTakes(a: seq<Device>, b: seq<Device>, mac: string, k: Slot)
    requires UniqueNames(a) && OneDevice(a, mac) && TookSlot(a, b, mac, k) && !Bound(a, mac)
    ensures |FreeSlots(b)| == |FreeSlots(a)| - 1
  {
    UnboundDevice(a, mac, k);
    assert k in FreeSlots(a);
  }

  /** How many of the rows have devices without a name. */
  function Nameless(devices: seq<Device>, rows: seq<NetworkInterface>): nat {
    |set j: nat | j < |rows| && !Bound(devices, rows[j].mac)|
  }

  /** Rows that were named stay named; with a witness, strictly fewer are nameless. */
  lemma FewerNameless(a: seq<Device>, b: seq<Device>, rows: seq<NetworkInterface>)
    requires forall j :: 0 <= j < |rows| && Bound(a, rows[j].mac) ==> Bound(b, rows[j].mac)
    ensures Nameless(b, rows) <= Nameless(a, rows)
    ensures (exists j :: 0 <= j < |rows| && !Bound(a, rows[j].mac) && Bound(b, rows[j].mac)) ==>
              Nameless(b, rows) < Nameless(a, rows)
  {
    hide Bound;
    var before := set j: nat | j < |rows| && !Bound(a, rows[j].mac);
    var after := set j: nat | j < |rows| && !Bound(b, rows[j].mac);
    SubsetSize(after, before);
    if j :| 0 <= j < |rows| && !Bound(a, rows[j].mac) && Bound(b, rows[j].mac) {
      SubsetSize(after, before - {j});
    }
  }

  lemma SameMacsNameless(devices: seq<Device>, a: seq<NetworkInterface>, b: seq<NetworkInterface>)
    requires |a| == |b| && forall j :: 0 <= j < |a| ==> a[j].mac == b[j].mac
    ensures Nameless(devices, a) == Nameless(devices, b)
  {
    hide Bound;
    assert (set j: nat | j < |a| && !Bound(devices, a[j].mac)) == (set j: nat | j < |b| && !Bound(devices, b[j].mac));
  }

  // ---- files ------------------------------------------------------------------------

  /** `text` is a generated text, whole or cut off. */
  ghost predicate IsPartOf(text: string, whole: string) {
    exists m: nat :: m <= |whole| && text == whole[..m]
  }

  /** The slot's file after a worker: as before, gone, or the row's text, whole or cut off. */
  ghost predicate Expected(before: map<string, string>, after: map<string, string>, row: NetworkInterface, k: Slot) {
    var f := FileName(k);
    f in after ==> (f in before && after[f] == before[f]) || IsPartOf(after[f], IfcfgText(row, k))
  }

  lemma WholeIsPart(text: string)
    ensures IsPartOf(text, text)
  {
    assert text == text[..|text|];
  }

  lemma WriteExpected(files: map<string, string>, row: NetworkInterface, k: Slot, plan: Plan)
    ensures Expected(files, WriteStep(files, row, k, plan).0, row, k)
  {
    WholeIsPart(IfcfgText(row, k));
  }

  lemma ExpectedIsCoherent(before: map<string, string>, after: map<string, string>, row: NetworkInterface, k: Slot)
    requires Coherent(before) && GoodRow(row) && Expected(before, after, row, k)
    requires after - {FileName(k)} == before - {FileName(k)}
    ensures Coherent(after)
  {
    hide CoherentText;
    hide IfcfgText;
    forall j: Slot | FileName(j) in after
      ensures CoherentText(after[FileName(j)])
    {
      if j != k {
        FileNameInjective(j, k);
        SameEntry(before, after, FileName(k), FileName(j));
      } else if !(FileName(k) in before && after[FileName(k)] == before[FileName(k)]) {
        var m: nat :| m <= |IfcfgText(row, k)| && after[FileName(k)] == IfcfgText(row, k)[..m];
        CutIsCoherent(row, k, m);
      }
    }
  }

  // ---- one small step ------------------------------------------------------------------

  /** `row` is the table's row, with whatever status it was fetched with. */
  predicate IsRow(row: NetworkInterface, table: seq<NetworkInterface>, x: nat) {
    x < |table| && row == table[x].(status := row.status)
  }

  lemma GoodWithStatus(a: NetworkInterface, b: NetworkInterface)
    requires GoodRow(a) && b == a.(status := b.status)
    ensures GoodRow(b)
  {
  }

  /** What is known of a row's device while its worker stands at a phase, whatever the other workers do. */
  ghost predicate Standing(devices: seq<Device>, row: NetworkInterface, phase: Phase) {
    match phase
    case Found(_, d) => IsDeviceOf(devices, row.mac, d)
    case Linked(k) => HasSlot(devices, row.mac, k)
    case Stored(k) => HasSlot(devices, row.mac, k)
    case Installed(k) => HasSlot(devices, row.mac, k)
    case _ => true
  }

  lemma LinkTakes(devices: seq<Device>, mac: string, d: string, k: Slot, plan: Plan)
    requires UniqueNames(devices) && OneDevice(devices, mac) && IsDeviceOf(devices, mac, d)
    ensures var (after, ok) := LinkStep(devices, d, k, plan);
            (after == devices || TookSlot(devices, after, mac, k)) && (ok ==> HasSlot(after, mac, k))
  {
    var i: nat :| i < |devices| && devices[i].name == d && SameMac(devices[i].mac, mac);
    IndexOfUnique(devices, i);
    var (after, ok) := LinkStep(devices, d, k, plan);
    assert FirstWithMac(devices, mac) == Some(i);
    assert ok ==> Holds(after, i, k, mac);
  }

  /** A device that takes a free slot leaves a sound node sound. */
  lemma DevicesSound(n: Node, table: seq<NetworkInterface>, x: nat, b: seq<Device>, k: Slot)
    requires Sound(n, table) && x < |table| && TookSlot(n.devices, b, table[x].mac, k)
    ensures Sound(n.(devices := b), table)
  {
    hide GoodRow;
    hide OneDevice;
    hide Bound;
    hide TookSlot;
    hide FreeSlots;
    hide UnboundFrom;
    hide Coherent;
    var mac := table[x].mac;
    assert table[x] in table;
    TakenIsBound(n.devices, b, mac, k);
    SlotsSuffice(n.devices, b, table, x, k);
    forall r | r in table
      ensures OneDevice(b, r.mac) && (Bound(n.devices, r.mac) ==> Bound(b, r.mac))
    {
      OneDeviceFrame(n.devices, b, r.mac, mac, k);
      var y :| 0 <= y < |table| && table[y] == r;
      if y != x { BoundFrame(n.devices, b, r.mac, mac, k); }
    }
  }

  lemma FilesSound(n: Node, table: seq<NetworkInterface>, row: NetworkInterface, k: Slot, plan: Plan)
    requires Sound(n, table) && GoodRow(row)
    ensures Sound(n.(files := WriteStep(n.files, row, k, plan).0), table)
  {
    hide GoodRow;
    hide OneDevice;
    hide Bound;
    hide FreeSlots;
    hide UnboundFrom;
    hide IfcfgText;
    hide CoherentText;
    var after := WriteStep(n.files, row, k, plan).0;
    WriteExpected(n.files, row, k, plan);
    assert after - {FileName(k)} == n.files - {FileName(k)};
    ExpectedIsCoherent(n.files, after, row, k);
  }

  lemma FewerFilesSound(n: Node, table: seq<NetworkInterface>, gone: set<string>)
    requires Sound(n, table)
    ensures Sound(n.(files := n.files - gone), table)
  {
    hide CoherentText;
    hide GoodRow;
    hide OneDevice;
    hide Bound;
    hide FreeSlots;
    hide UnboundFrom;
    var after := n.files - gone;
    forall k: Slot | FileName(k) in after
      ensures CoherentText(after[FileName(k)])
    {
      assert FileName(k) in n.files;
    }
  }

  lemma StatusSound(n: Node, table: seq<NetworkInterface>, x: nat, row: NetworkInterface, status: Status, works: bool)
    requires Sound(n, table) && IsRow(row, table, x) && (status == Configured ==> Bound(n.devices, row.mac))
    ensures Sound(Save(n, row.id, status, works).0, table)
  {
    hide GoodRow;
    hide OneDevice;
    hide Bound;
    hide FreeSlots;
    hide UnboundFrom;
    hide Coherent;
    var n1 := Save(n, row.id, status, works).0;
    forall r | r in table
      ensures r.id in n1.stored && (n1.stored[r.id] == 1 ==> Bound(n.devices, r.mac))
    {
      var y :| 0 <= y < |table| && table[y] == r;
      assert y != x ==> r.id != row.id;
    }
  }

  /** One small step of a worker keeps the node sound, whatever fails in it, and keeps its own standing. */
  lemma {:induction false} AdvanceKeepsSound(n: Node, table: seq<NetworkInterface>, x: nat, row: NetworkInterface,
                                             phase: Phase, plan: Plan)
    requires Sound(n, table) && IsRow(row, table, x) && Steps(phase) && Standing(n.devices, row, phase)
    ensures var (n1, next) := Advance(n, row, phase, plan);
            Sound(n1, table) && Standing(n1.devices, row, next)
  {
    hide Sound;
    hide HasSlot;
    hide IsDeviceOf;
    hide NeedsProcessing;
    hide IfcfgText;
    hide NameFor;
    hide LinkStep;
    hide FindStep;
    hide WriteStep;
    hide Save;
    hide Validate;
    hide ValidateSpec;
    SoundFacts(n, table, x, row);
    match phase {
      case Selected(k) => FindGivesDevice(n.devices, row.mac, plan);
      case Found(k, d) =>
        LinkTakes(n.devices, row.mac, d, k, plan);
        var b := LinkStep(n.devices, d, k, plan).0;
        if b != n.devices { DevicesSound(n, table, x, b, k); } else { assert n.(devices := b) == n; }
      case Linked(k) => FilesSound(n, table, row, k, plan);
      case Installed(k) =>
        SlotIsBound(n.devices, row.mac, k);
        StatusSound(n, table, x, row, Configured, plan.saveConfigured);
        SaveKeepsDevices(n, row.id, Configured, plan.saveConfigured);
      case RollingBack(k) => FewerFilesSound(n, table, {FileName(k)});
      case Reporting(k) => StatusSound(n, table, x, row, Status.Failed, plan.saveFailed);
      case _ =>
    }
  }

  lemma SlotIsBound(devices: seq<Device>, mac: string, k: Slot)
    requires UniqueNames(devices) && HasSlot(devices, mac, k)
    ensures Bound(devices, mac)
  {
    HeldIsBound(devices, mac, k);
  }

  lemma SoundFacts(n: Node, table: seq<NetworkInterface>, x: nat, row: NetworkInterface)
    requires Sound(n, table) && IsRow(row, table, x)
    ensures UniqueNames(n.devices) && OneDevice(n.devices, row.mac) && GoodRow(row) && row.mac == table[x].mac
  {
    assert table[x] in table;
    GoodWithStatus(table[x], row);
  }

  lemma SaveKeepsDevices(n: Node, id: int, status: Status, works: bool)
    ensures Save(n, id, status, works).0.devices == n.devices
  {
  }

  /** A step of one worker keeps the standing of every other. */
  lemma {:induction false} AdvanceKeepsStanding(n: Node, row: NetworkInterface, phase: Phase, plan: Plan,
                                                other: NetworkInterface, at: Phase)
    requires UniqueNames(n.devices) && OneDevice(n.devices, row.mac)
    requires Steps(phase) && Standing(n.devices, row, phase) && !SameMac(row.mac, other.mac) &&
             Standing(n.devices, other, at)
    ensures Standing(Advance(n, row, phase, plan).0.devices, other, at)
  {
    hide HasSlot;
    hide IsDeviceOf;
    hide NeedsProcessing;
    hide NameFor;
    hide LinkStep;
    hide FindStep;
    hide WriteStep;
    hide Validate;
    hide ValidateSpec;
    hide OneDevice;
    hide TookSlot;
    var b := Advance(n, row, phase, plan).0.devices;
    if phase.Found? {
      LinkTakes(n.devices, row.mac, phase.device, phase.slot, plan);
      assert b == LinkStep(n.devices, phase.device, phase.slot, plan).0;
      if b != n.devices { StandingFrame(n.devices, b, row.mac, phase.slot, other, at); }
    } else {
      assert b == n.devices;
    }
  }

  lemma StandingFrame(a: seq<Device>, b: seq<Device>, mac: string, k: Slot, other: NetworkInterface, at: Phase)
    requires TookSlot(a, b, mac, k) && !SameMac(mac, other.mac) && Standing(a, other, at)
    ensures Standing(b, other, at)
  {
    var i := FirstWithMac(a, mac).value;
    match at {
      case Found(_, d) =>
        var j: nat :| j < |a| && a[j].name == d && SameMac(a[j].mac, other.mac);
        assert j != i && b[j] == a[j];
      case Linked(s) => HeldStays(a, b, mac, k, other.mac, s);
      case Stored(s) => HeldStays(a, b, mac, k, other.mac, s);
      case Installed(s) => HeldStays(a, b, mac, k, other.mac, s);
      case _ =>
    }
  }

  lemma HeldStays(a: seq<Device>, b: seq<Device>, mac: string, k: Slot, other: string, s: Slot)
    requires TookSlot(a, b, mac, k) && !SameMac(mac, other) && HasSlot(a, other, s)
    ensures HasSlot(b, other, s)
  {
    var j: nat :| Holds(a, j, s, other);
    assert Holds(b, j, s, other);
  }

  // ---- one concurrent pass, one cycle, a run of cycles ----------------------------------------

  /** The pool works on the table's rows, in table order; their workers may move in any order. */
  ghost predicate OnTable(job: Job, table: seq<NetworkInterface>) {
    ValidJob(job) && |job.rows| == |table| && forall i :: 0 <= i < |table| ==> IsRow(job.rows[i], table, i)
  }

  ghost predicate PoolSound(job: Job, table: seq<NetworkInterface>, p: Pool) {
    OnTable(job, table) && |p.phases| == |job.rows| && Sound(p.node, table) &&
    forall i :: 0 <= i < |job.rows| ==> Standing(p.node.devices, job.rows[i], p.phases[i])
  }

  lemma RowsApart(n: Node, job: Job, table: seq<NetworkInterface>, i: nat, j: nat)
    requires OnTable(job, table) && Sound(n, table) && i < |table| && j < |table| && i != j
    ensures !SameMac(job.rows[i].mac, job.rows[j].mac) && job.rows[i].id != job.rows[j].id
  {
    assert IsRow(job.rows[i], table, i) && IsRow(job.rows[j], table, j);
    assert !SameMac(table[if i < j then i else j].mac, table[if i < j then j else i].mac);
  }

  /** Soundness is kept by every step of every worker, with any number of them at once and whatever fails. */
  lemma {:induction false} StepKeepsSound(job: Job, table: seq<NetworkInterface>, p: Pool, i: nat)
    requires PoolSound(job, table, p)
    ensures PoolSound(job, table, Step(job, p, i))
  {
    hide Advance;
    hide Sound;
    hide IsRow;
    var q := Step(job, p, i);
    if Enabled(job, p, i) && Steps(p.phases[i]) {
      var row, plan := job.rows[i], job.plans[i];
      AdvanceKeepsSound(p.node, table, i, row, p.phases[i], plan);
      SoundFacts(p.node, table, i, row);
      forall j | 0 <= j < |job.rows|
        ensures Standing(q.node.devices, job.rows[j], q.phases[j])
      {
        if j != i {
          RowsApart(p.node, job, table, i, j);
          AdvanceKeepsStanding(p.node, row, p.phases[i], plan, job.rows[j], p.phases[j]);
        }
      }
    }
  }

  lemma {:induction false} RunKeepsSound(job: Job, table: seq<NetworkInterface>, p: Pool, schedule: seq<nat>)
    requires PoolSound(job, table, p)
    ensures PoolSound(job, table, Run(job, p, schedule))
  {
    hide Step;
    hide Sound;
    hide Standing;
    if schedule != [] {
      var init := schedule[..|schedule| - 1];
      RunKeepsSound(job, table, p, init);
      StepKeepsSound(job, table, Run(job, p, init), schedule[|schedule| - 1]);
    }
  }

  /**
   One cycle with faults: how many tasks may run at once, how each worker's commands turn out, how the
   workers' steps interleave and where they stop, and how the cleanup's removals turn out.
   */
  datatype Round = Round(maxTasks: int, plans: seq<Plan>, schedule: seq<nat>, unreadable: set<string>,
    stuck: set<string>)

  ghost function JobOf(n: Node, table: seq<NetworkInterface>, round: Round): Job {
    Job(Fetch(table, n.stored), round.plans, round.maxTasks)
  }

  /** The pool when the round's schedule ends; it need not have finished. */
  ghost function PoolOf(n: Node, table: seq<NetworkInterface>, round: Round): (p: Pool)
    requires |round.plans| == |table|
    ensures |p.phases| == |table|
  {
    Run(JobOf(n, table, round), Start(JobOf(n, table, round), n), round.schedule)
  }

  ghost function AfterRound(n: Node, table: seq<NetworkInterface>, round: Round): Node
    requires |round.plans| == |table|
  {
    var n1 := PoolOf(n, table, round).node;
    n1.(files := CleanedFiles(n1.files, round.unreadable, ActiveMacs(Fetch(table, n.stored)), round.stuck))
  }

  ghost predicate ValidHistory(history: seq<Round>, table: seq<NetworkInterface>) {
    forall i :: 0 <= i < |history| ==> |history[i].plans| == |table|
  }

  ghost function AfterHistory(n: Node, table: seq<NetworkInterface>, history: seq<Round>): Node
    requires ValidHistory(history, table)
  {
    if history == [] then n
    else AfterRound(AfterHistory(n, table, history[..|history| - 1]), table, history[|history| - 1])
  }

  lemma StartIsSound(n: Node, table: seq<NetworkInterface>, round: Round)
    requires Sound(n, table) && |round.plans| == |table|
    ensures var job := JobOf(n, table, round); PoolSound(job, table, Start(job, n))
  {
    hide Sound;
  }

  lemma RoundKeepsSound(n: Node, table: seq<NetworkInterface>, round: Round)
    requires Sound(n, table) && |round.plans| == |table|
    ensures Sound(PoolOf(n, table, round).node, table)
    ensures Sound(AfterRound(n, table, round), table)
  {
    hide Sound;
    hide Run;
    hide Orphans;
    var job := JobOf(n, table, round);
    StartIsSound(n, table, round);
    RunKeepsSound(job, table, Start(job, n), round.schedule);
    var n1 := PoolOf(n, table, round).node;
    FewerFilesSound(n1, table, Orphans(n1.files, round.unreadable, ActiveMacs(Fetch(table, n.stored))) - round.stuck);
  }

  /**
   Soundness is an invariant of every run of cycles: any number of workers at once, any
   interleaving of their steps, any command failing in any way, any cycle cut short.
   */
  lemma {:induction false} HistoryKeepsSound(n: Node, table: seq<NetworkInterface>, history: seq<Round>)
    requires Sound(n, table) && ValidHistory(history, table)
    ensures Sound(AfterHistory(n, table, history), table)
  {
    hide Sound;
    hide AfterRound;
    if history != [] {
      var init := history[..|history| - 1];
      HistoryKeepsSound(n, table, init);
      RoundKeepsSound(AfterHistory(n, table, init), table, history[|history| - 1]);
    }
  }

  /** A sound node is ready, and its rows without a slot are pending. */
  lemma SoundIsReady(n: Node, table: seq<NetworkInterface>)
    requires Sound(n, table)
    ensures var rows := Fetch(table, n.stored);
            Ready(n, rows) && forall r :: r in rows && !Bound(n.devices, r.mac) ==> r.status == Pending
  {
    hide GoodRow;
    hide OneDevice;
    hide Bound;
    hide Coherent;
    hide FreeSlots;
    var rows := Fetch(table, n.stored);
    assert forall i :: 0 <= i < |table| ==> table[i] in table && rows[i].mac == table[i].mac;
    assert UnboundFrom(n.devices, rows, 0) == UnboundFrom(n.devices, table, 0);
    forall r | r in rows
      ensures GoodRow(r) && OneDevice(n.devices, r.mac) && r.id in n.stored && r == Current(r, n.stored)
      ensures !Bound(n.devices, r.mac) ==> r.status == Pending
    {
      var i :| 0 <= i < |rows| && rows[i] == r;
      GoodWithStatus(table[i], r);
    }
  }

  /**
   Recovery: after any such run, one faultless serialised cycle leaves a node on which every
   further cycle has nothing to do.
   */
  lemma {:induction false} RecoversFromFaults(n: Node, table: seq<NetworkInterface>, history: seq<Round>)
    requires Sound(n, table) && ValidHistory(history, table)
    ensures var m := AfterHistory(n, table, history);
            var rows := Fetch(table, m.stored);
            Quiet(OneCycle(m, rows), rows)
  {
    hide Sound;
    hide Ready;
    hide Bound;
    hide Quiet;
    hide OneCycle;
    HistoryKeepsSound(n, table, history);
    var m := AfterHistory(n, table, history);
    SoundIsReady(m, table);
    PendingRowsConverge(m, Fetch(table, m.stored));
  }
}
