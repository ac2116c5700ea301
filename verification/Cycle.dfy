/**
 One polling cycle on RHEL with serialised workers: every row of the node in some order,
 then the cleanup. When does the next cycle find nothing to do?
 */
module Cycle {
  import opened Options
  import opened Text
  import opened Entities
  import opened IpLink
  import opened Naming
  import opened Ifcfg
  import opened Rhel
  import opened Cleanup

  // ---- the pass over the rows ---------------------------------------------------

  /** The node after the first `i` workers. */
  function After(n: Node, rows: seq<NetworkInterface>, plans: seq<Plan>, i: nat): Node
    requires i <= |rows| == |plans|
  {
    if i == 0 then n else WorkerSpec(After(n, rows, plans, i - 1), rows[i - 1], plans[i - 1]).0
  }

  function OutcomeAt(n: Node, rows: seq<NetworkInterface>, plans: seq<Plan>, i: nat): Outcome
    requires i < |rows| == |plans|
  {
    WorkerSpec(After(n, rows, plans, i), rows[i], plans[i]).1
  }

  datatype Tally = Tally(processed: nat, failed: nat)

  function Count(t: Tally, o: Outcome): Tally {
    match o
    case Processed(_) => t.(processed := t.processed + 1)
    case Skipped(_) => t
    case _ => t.(failed := t.failed + 1)
  }

  /** The counters after the first `i` workers. */
  function TallyAfter(n: Node, rows: seq<NetworkInterface>, plans: seq<Plan>, i: nat): Tally
    requires i <= |rows| == |plans|
  {
    if i == 0 then Tally(0, 0) else Count(TallyAfter(n, rows, plans, i - 1), OutcomeAt(n, rows, plans, i - 1))
  }

  method ConfigureAll(host: Host, rows: seq<NetworkInterface>, plans: seq<Plan>) returns (tally: Tally)
    requires host.Valid() && |rows| == |plans|
    modifies host
    ensures host.Valid() && host.State() == After(old(host.State()), rows, plans, |rows|)
    ensures tally == TallyAfter(old(host.State()), rows, plans, |rows|)
  {
    hide WorkerSpec;
    tally := Tally(0, 0);
    for i := 0 to |rows|
      invariant host.Valid() && host.State() == After(old(host.State()), rows, plans, i)
      invariant tally == TallyAfter(old(host.State()), rows, plans, i)
    {
      var o := ProcessInterfaceWithCheck(host, rows[i], plans[i]);
      match o {
        case Processed(_) => tally := tally.(processed := tally.processed + 1);
        case Skipped(_) =>
        case _ => tally := tally.(failed := tally.failed + 1);
      }
    }
  }

  datatype Report = Report(processed: nat, failed: nat, total: nat, deleted: nat, deleteErrors: int)

  /** The node after a pass and a cleanup whose removals of `stuck` fail. */
  ghost function CycleSpec(n: Node, rows: seq<NetworkInterface>, plans: seq<Plan>, unreadable: set<string>,
                           stuck: set<string>): Node
    requires |rows| == |plans|
  {
    var n1 := After(n, rows, plans, |rows|);
    n1.(files := CleanedFiles(n1.files, unreadable, ActiveMacs(rows), stuck))
  }

  /**
   One cycle: the rows are fetched and configured, then orphans are deleted. A cycle whose
   rows cannot be fetched does nothing; a cleanup that fails is reported as one error.
   */
  method ProcessNetworkConfigurations(host: Host, table: Option<seq<NetworkInterface>>, plans: seq<Plan>,
                                      canList: bool, unreadable: set<string>,
                                      stuck: set<string>) returns (report: Option<Report>)
    requires host.Valid() && (table.Some? ==> |plans| == |table.value|)
    modifies host
    ensures host.Valid()
    ensures report == None <==> table == None
    ensures table == None ==> host.State() == old(host.State())
    ensures table.Some? ==>
              var rows := Fetch(table.value, old(host.stored));
              var n := old(host.State());
              var n1 := After(n, rows, plans, |rows|);
              var tally := TallyAfter(n, rows, plans, |rows|);
              if canList then
                host.State() == CycleSpec(n, rows, plans, unreadable, stuck) &&
                report.value ==
                  Report(tally.processed, tally.failed, |rows|, |Orphans(n1.files, unreadable, ActiveMacs(rows))|, 0)
              else host.State() == n1 && report.value == Report(tally.processed, tally.failed, |rows|, 0, 1)
  {
    if table.None? {
      return None;
    }
    var rows := Fetch(table.value, host.stored);
    var tally := ConfigureAll(host, rows, plans);
    ghost var n1 := host.State();
    var files := host.ListFiles();
    var output := ExecuteIfcfgCleanup(host, if canList then Some(files) else None, Some(rows), unreadable, stuck);
    var out := if output.Some? then output.value else DeleteOutput([], 0, 1);
    return Some(Report(tally.processed, tally.failed, |rows|, out.totalDeleted, out.errors));
  }

  // ---- a pass that does nothing --------------------------------------------------

  function Faultless(count: nat): (plans: seq<Plan>)
    ensures |plans| == count && forall i :: 0 <= i < count ==> plans[i] == NO_FAULTS
  {
    seq(count, _ => NO_FAULTS)
  }

  /** A worker for the row, with its status read again, has nothing to do. */
  predicate Skips(n: Node, row: NetworkInterface) {
    WorkerSpec(n, Current(row, n.stored), NO_FAULTS).1.Skipped?
  }

  /** A pass in which nothing is processed and nothing fails is one in which every row skips, and it changes nothing. */
  lemma {:induction false} IdlePass(n: Node, rows: seq<NetworkInterface>, i: nat)
    requires i <= |rows| && forall r :: r in rows ==> r == Current(r, n.stored)
    ensures var t := TallyAfter(n, rows, Faultless(|rows|), i);
            (t == Tally(0, 0) <==> forall j :: 0 <= j < i ==> Skips(n, rows[j])) &&
            (t == Tally(0, 0) ==> After(n, rows, Faultless(|rows|), i) == n)
  {
    hide WorkerSpec;
    if i > 0 {
      IdlePass(n, rows, i - 1);
      SkipKeeps(After(n, rows, Faultless(|rows|), i - 1), rows[i - 1], NO_FAULTS);
      assert rows[i - 1] in rows;
    }
  }

  // ---- rows that are settled ------------------------------------------------------

  predicate Bound(devices: seq<Device>, mac: string) {
    exists k: Slot :: Carries(devices, mac, {}, k)
  }

  /** The row's device has its slot and the row's worker has nothing to do. */
  predicate Settled(n: Node, row: NetworkInterface) {
    Bound(n.devices, row.mac) && Skips(n, row)
  }

  /** Renaming a device of one MAC address does not change what another MAC address carries. */
  lemma CarriesFrame(a: seq<Device>, b: seq<Device>, mac: string, other: string, blind: set<Slot>, k: Slot, j: Slot)
    requires UniqueNames(a) && UniqueNames(b) && OnlyRenames(a, b, other, k) && !SameMac(mac, other)
    ensures Carries(a, mac, blind, j) <==> Carries(b, mac, blind, j)
  {
    CarriesHolds(a, mac, blind, j);
    CarriesHolds(b, mac, blind, j);
    if i: nat :| Holds(a, i, j, mac) {
      assert b[i] == a[i];
      assert Holds(b, i, j, mac);
    }
    if i: nat :| Holds(b, i, j, mac) {
      assert b[i] == a[i];
      assert Holds(a, i, j, mac);
    }
  }

  lemma BoundFrame(a: seq<Device>, b: seq<Device>, mac: string, other: string, k: Slot)
    requires UniqueNames(a) && UniqueNames(b) && OnlyRenames(a, b, other, k) && !SameMac(mac, other)
    ensures Bound(a, mac) <==> Bound(b, mac)
    ensures LowestCarrying(a, mac, {}, 0) == LowestCarrying(b, mac, {}, 0)
  {
    forall j: Slot
      ensures Carries(a, mac, {}, j) <==> Carries(b, mac, {}, j)
    {
      CarriesFrame(a, b, mac, other, {}, k, j);
    }
  }

  /** Two MAC addresses never carry the same slot, and a free slot is carried by none. */
  lemma SlotsDiffer(n: Node, mac: string, row: NetworkInterface, plan: Plan, k: Slot)
    requires UniqueNames(n.devices) && Carries(n.devices, mac, {}, k) && !SameMac(mac, row.mac)
    ensures var o := WorkerSpec(n, row, plan).1; !o.Unnamed? ==> o.slot != k
  {
  }

  /**
   A settled row stays settled through the worker of any other row, whatever fails in it
   and including its rollback.
   */
  lemma {:induction false} SettledSurvives(n: Node, row: NetworkInterface, other: NetworkInterface, plan: Plan)
    requires UniqueNames(n.devices) && Settled(n, row)
    requires !SameMac(row.mac, other.mac) && row.id != other.id
    ensures Settled(WorkerSpec(n, other, plan).0, row)
  {
    var (n1, o) := WorkerSpec(n, other, plan);
    WorkerFrame(n, other, plan);
    if n1 != n {
      var k := LowestCarrying(n.devices, row.mac, {}, 0).value;
      BoundFrame(n.devices, n1.devices, row.mac, other.mac, o.slot);
      SlotsDiffer(n, row.mac, other, plan, k);
      FileNameInjective(o.slot, k);
      SameEntry(n.files, n1.files, FileName(o.slot), FileName(k));
      SameColumn(n.stored, n1.stored, other.id, row.id);
    }
  }

  lemma SameEntry(a: map<string, string>, b: map<string, string>, removed: string, f: string)
    requires a - {removed} == b - {removed} && f != removed
    ensures f in a <==> f in b
    ensures f in a ==> a[f] == b[f]
  {
    assert f in a <==> f in a - {removed};
    assert f in b <==> f in b - {removed};
  }

  lemma SameColumn(a: map<int, int>, b: map<int, int>, removed: int, id: int)
    requires a - {removed} == b - {removed} && id != removed
    ensures Column(a, id) == Column(b, id)
  {
    assert id in a <==> id in a - {removed};
    assert id in b <==> id in b - {removed};
  }

  // ---- the rows and nodes for which a cycle is expected to converge ----------------

  /** Exactly one device carries the MAC address. */
  predicate OneDevice(devices: seq<Device>, mac: string) {
    FirstWithMac(devices, mac).Some? &&
    forall j :: 0 <= j < |devices| && SameMac(devices[j].mac, mac) ==> FirstWithMac(devices, mac) == Some(j)
  }

  predicate GoodRow(row: NetworkInterface) {
    Validate(row) == Valid && NoNewline(row) && FixedPoint(row)
  }

  /** In the slots' files, the cleanup's reader sees no other MAC address than the drift check's. */
  predicate Coherent(files: map<string, string>) {
    forall k: Slot :: FileName(k) in files ==> CoherentText(files[FileName(k)])
  }

  predicate CoherentText(text: string) {
    HwaddrOf(text).Some? ==> Lower(HwaddrOf(text).value) == ReadConfig(text).mac
  }

  ghost function FreeSlots(devices: seq<Device>): set<Slot> {
    set k: Slot | 0 <= k < 10 && !InUse(devices, Name(k))
  }

  ghost function UnboundFrom(devices: seq<Device>, rows: seq<NetworkInterface>, i: nat): set<nat> {
    set j: nat | i <= j < |rows| && !Bound(devices, rows[j].mac)
  }

  predicate DistinctRows(rows: seq<NetworkInterface>) {
    forall i, j :: 0 <= i < j < |rows| ==> rows[i].id != rows[j].id && !SameMac(rows[i].mac, rows[j].mac)
  }

  ghost predicate Ready(n: Node, rows: seq<NetworkInterface>) {
    UniqueNames(n.devices) && DistinctRows(rows) && Coherent(n.files) &&
    (forall r :: r in rows ==>
       GoodRow(r) && OneDevice(n.devices, r.mac) && r.id in n.stored && r == Current(r, n.stored)) &&
    |UnboundFrom(n.devices, rows, 0)| <= |FreeSlots(n.devices)|
  }

  // ---- one worker without faults -----------------------------------------------------

  lemma OneDeviceFrame(a: seq<Device>, b: seq<Device>, mac: string, other: string, k: Slot)
    requires OnlyRenames(a, b, other, k) && OneDevice(a, mac)
    ensures OneDevice(b, mac) && FirstWithMac(a, mac) == FirstWithMac(b, mac)
  {
  }

  /** The unique device of a bound row is the one of the slot the row is given. */
  lemma BoundDevice(devices: seq<Device>, mac: string)
    requires UniqueNames(devices) && OneDevice(devices, mac) && Bound(devices, mac)
    ensures NameFor(devices, mac, {}).Some? && Carries(devices, mac, {}, NameFor(devices, mac, {}).value)
    ensures FindStep(devices, mac, NO_FAULTS) == Some(Name(NameFor(devices, mac, {}).value))
  {
    var k :| Carries(devices, mac, {}, k);
    var s := NameFor(devices, mac, {}).value;
    CarriesHolds(devices, mac, {}, s);
    var i: nat :| Holds(devices, i, s, mac);
  }

  /** An unbound row's device has no slot name, so renaming it takes one slot and frees none. */
  lemma UnboundDevice(devices: seq<Device>, mac: string, k: Slot)
    requires UniqueNames(devices) && OneDevice(devices, mac) && !Bound(devices, mac) && !InUse(devices, Name(k))
    ensures var i := FirstWithMac(devices, mac).value;
            var b := devices[i := Device(Name(k), devices[i].mac)];
            devices[i].name != Name(k) && IndexOfName(devices, devices[i].name) == Some(i) && UniqueNames(b) &&
            Carries(b, mac, {}, k) && (forall j: Slot :: Carries(b, mac, {}, j) ==> j == k) &&
            FreeSlots(b) == FreeSlots(devices) - {k}
  {
    var i := FirstWithMac(devices, mac).value;
    var b := devices[i := Device(Name(k), devices[i].mac)];
    IndexOfUnique(devices, i);
    RenamePreservesTable(devices, i, k);
    CarriesHolds(b, mac, {}, k);
    assert Holds(b, i, k, mac);
    forall j: Slot | Carries(b, mac, {}, j)
      ensures j == k
    {
      CarriesHolds(b, mac, {}, j);
      var x: nat :| Holds(b, x, j, mac);
      assert x == i;
      NameInjective(j, k);
    }
    forall j: Slot
      ensures j in FreeSlots(b) <==> j in FreeSlots(devices) - {k}
    {
      NameInjective(j, k);
      CarriesHolds(devices, mac, {}, j);
      assert devices[i].name == Name(j) ==> Holds(devices, i, j, mac);
      assert b[i].name == Name(k);
      assert forall x :: 0 <= x < |devices| && x != i ==> b[x] == devices[x];
      if InUse(devices, Name(j)) {
        var x :| 0 <= x < |devices| && devices[x].name == Name(j);
        assert x != i && b[x].name == Name(j);
      }
    }
  }

  /** Without faults, installing a good row on a slot that is its own or free works. */
  lemma InstallWorks(n: Node, row: NetworkInterface, k: Slot)
    requires UniqueNames(n.devices) && GoodRow(row) && OneDevice(n.devices, row.mac) && row.id in n.stored
    requires NameFor(n.devices, row.mac, {}) == Some(k)
    ensures var (n1, ok) := ProcessSpec(n, row, k, NO_FAULTS);
            var i := FirstWithMac(n.devices, row.mac).value;
            ok && n1.files == n.files[FileName(k) := IfcfgText(row, k)] && n1.stored == n.stored[row.id := 1] &&
            n1.devices == if Bound(n.devices, row.mac)
              then n.devices else n.devices[i := Device(Name(k), n.devices[i].mac)]
  {
    hide IfcfgText;
    hide FixedPoint;
    var i := FirstWithMac(n.devices, row.mac).value;
    if Bound(n.devices, row.mac) {
      BoundDevice(n.devices, row.mac);
      assert InUse(n.devices, Name(k));
    } else {
      UnboundDevice(n.devices, row.mac, k);
      var b := n.devices[i := Device(Name(k), n.devices[i].mac)];
      assert b[i].name == Name(k) && InUse(b, Name(k));
    }
  }

  /** A good row's own fresh file makes its worker skip. */
  lemma FreshFileSkips(n: Node, row: NetworkInterface, k: Slot)
    requires GoodRow(row) && NameFor(n.devices, row.mac, {}) == Some(k)
    requires FileName(k) in n.files && n.files[FileName(k)] == IfcfgText(row, k)
    requires row.id in n.stored && n.stored[row.id] == 1
    ensures Skips(n, row)
  {
    FixedPointExactly(Current(row, n.stored), k);
    assert IfcfgText(Current(row, n.stored), k) == IfcfgText(row, k);
  }

  /**
   One faultless worker on a good row that gets a slot: it processes or skips; afterwards the
   row is settled, unless it was skipped without its device having the slot.
   */
  lemma {:induction false} WorkerSettles(n: Node, row: NetworkInterface)
    requires UniqueNames(n.devices) && GoodRow(row) && OneDevice(n.devices, row.mac) && row.id in n.stored
    requires row == Current(row, n.stored) && NameFor(n.devices, row.mac, {}).Some?
    ensures var (n1, o) := WorkerSpec(n, row, NO_FAULTS);
            var k := NameFor(n.devices, row.mac, {}).value;
            (o == Processed(k) || o == Skipped(k)) && Skips(n1, row) &&
            (o.Processed? || Bound(n.devices, row.mac) ==> Settled(n1, row)) &&
            (o.Processed? ==> n1.files == n.files[FileName(k) := IfcfgText(row, k)]) &&
            (o.Skipped? ==> n1 == n) &&
            (Bound(n.devices, row.mac) ==> n1.devices == n.devices) &&
            (o.Processed? && !Bound(n.devices, row.mac) ==> FreeSlots(n1.devices) == FreeSlots(n.devices) - {k}) &&
            (o.Processed? ==> Carries(n1.devices, row.mac, {}, k))
  {
    hide GoodRow;
    hide Drifted;
    hide IfcfgText;
    hide FreeSlots;
    hide ProcessSpec;
    var (n1, o) := WorkerSpec(n, row, NO_FAULTS);
    var k := NameFor(n.devices, row.mac, {}).value;
    if o.Skipped? {
      if Bound(n.devices, row.mac) { BoundDevice(n.devices, row.mac); }
    } else {
      InstallWorks(n, row, k);
      if Bound(n.devices, row.mac) {
        BoundDevice(n.devices, row.mac);
      } else {
        UnboundDevice(n.devices, row.mac, k);
        assert LowestCarrying(n1.devices, row.mac, {}, 0) == Some(k);
      }
      FreshFileSkips(n1, row, k);
    }
  }
}
