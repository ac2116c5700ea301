/** When one faultless cycle leaves nothing to do for the next one. */
module Convergence {
  import opened Options
  import opened Text
  import opened Entities
  import opened IpLink
  import opened Naming
  import opened Ifcfg
  import opened Rhel
  import opened Cleanup
  import opened Cycle

  // ---- what holds at every point of the pass -------------------------------------

  /** `m` is a node reached from `n` after the first `i` rows. */
  ghost predicate Progress(n: Node, m: Node, rows: seq<NetworkInterface>, i: nat) {
    UniqueNames(m.devices) && Coherent(m.files) && m.stored.Keys == n.stored.Keys &&
    (forall r :: r in rows ==> OneDevice(m.devices, r.mac)) &&
    (forall j :: i <= j < |rows| ==> rows[j] == Current(rows[j], m.stored)) &&
    (forall j :: i <= j < |rows| ==> (Bound(m.devices, rows[j].mac) <==> Bound(n.devices, rows[j].mac))) &&
    |UnboundFrom(n.devices, rows, i)| <= |FreeSlots(m.devices)|
  }

  ghost predicate RowsReady(n: Node, rows: seq<NetworkInterface>) {
    DistinctRows(rows) && forall r :: r in rows ==> GoodRow(r) && r.id in n.stored
  }

  lemma NameAvailable(n: Node, m: Node, rows: seq<NetworkInterface>, i: nat)
    requires Progress(n, m, rows, i) && i < |rows|
    ensures NameFor(m.devices, rows[i].mac, {}).Some?
  {
    if !Bound(m.devices, rows[i].mac) {
      assert i in UnboundFrom(n.devices, rows, i);
      assert FreeSlots(m.devices) != {};
      var k :| k in FreeSlots(m.devices);
      assert !InUse(m.devices, Name(k));
    }
  }

  /** The counting part: each worker uses up at most the one free slot that its row was counted for. */
  lemma SlotsRemain(n: Node, m: Node, rows: seq<NetworkInterface>, i: nat, free: set<Slot>, k: Slot)
    requires |UnboundFrom(n.devices, rows, i)| <= |FreeSlots(m.devices)| && i < |rows|
    requires free == if Bound(n.devices, rows[i].mac) then FreeSlots(m.devices) else FreeSlots(m.devices) - {k}
    ensures |UnboundFrom(n.devices, rows, i + 1)| <= |free|
  {
    hide Bound;
    hide FreeSlots;
    var now, next := UnboundFrom(n.devices, rows, i), UnboundFrom(n.devices, rows, i + 1);
    if Bound(n.devices, rows[i].mac) {
      assert now == next;
    } else {
      assert now == next + {i};
      assert |now| == |next| + 1;
      assert k !in FreeSlots(m.devices) ==> free == FreeSlots(m.devices);
      assert k in FreeSlots(m.devices) ==> |free| == |FreeSlots(m.devices)| - 1;
    }
  }

  /** Writing a row's own file keeps the two readers in agreement on the slots' files. */
  lemma CoherentWrite(files: map<string, string>, row: NetworkInterface, k: Slot)
    requires Coherent(files) && GoodRow(row)
    ensures Coherent(files[FileName(k) := IfcfgText(row, k)])
  {
    ReadersAgree(row, k);
    LowerTwice(row.mac);
    var after := files[FileName(k) := IfcfgText(row, k)];
    forall j: Slot | FileName(j) in after
      ensures CoherentText(after[FileName(j)])
    {
      FileNameInjective(j, k);
    }
  }

  lemma OtherRows(n: Node, m: Node, rows: seq<NetworkInterface>, i: nat, j: nat)
    requires Progress(n, m, rows, i) && RowsReady(n, rows) && i < j < |rows|
    ensures var m1 := WorkerSpec(m, rows[i], NO_FAULTS).0;
            rows[j] == Current(rows[j], m1.stored) &&
              (Bound(m1.devices, rows[j].mac) <==> Bound(n.devices, rows[j].mac))
  {
    hide WorkerSpec;
    var (m1, o) := WorkerSpec(m, rows[i], NO_FAULTS);
    WorkerFrame(m, rows[i], NO_FAULTS);
    if m1 != m {
      BoundFrame(m.devices, m1.devices, rows[j].mac, rows[i].mac, o.slot);
      SameColumn(m.stored, m1.stored, rows[i].id, rows[j].id);
    }
  }

  lemma DevicesStayUnique(m: Node, row: NetworkInterface, plan: Plan, mac: string)
    requires UniqueNames(m.devices) && OneDevice(m.devices, mac)
    ensures var m1 := WorkerSpec(m, row, plan).0; UniqueNames(m1.devices) && OneDevice(m1.devices, mac)
  {
    hide WorkerSpec;
    var (m1, o) := WorkerSpec(m, row, plan);
    WorkerFrame(m, row, plan);
    if m1 != m {
      OneDeviceFrame(m.devices, m1.devices, mac, row.mac, o.slot);
    }
  }

  lemma SlotsAfterStep(n: Node, m: Node, rows: seq<NetworkInterface>, i: nat)
    requires Progress(n, m, rows, i) && RowsReady(n, rows) && i < |rows|
    ensures |UnboundFrom(n.devices, rows, i + 1)| <= |FreeSlots(WorkerSpec(m, rows[i], NO_FAULTS).0.devices)|
    ensures Coherent(WorkerSpec(m, rows[i], NO_FAULTS).0.files)
  {
    hide WorkerSpec;
    hide GoodRow;
    hide Bound;
    hide FreeSlots;
    hide UnboundFrom;
    hide Settled;
    hide Skips;
    hide CoherentText;
    var row := rows[i];
    assert row in rows;
    NameAvailable(n, m, rows, i);
    WorkerSettles(m, row);
    var o := WorkerSpec(m, row, NO_FAULTS).1;
    var k := NameFor(m.devices, row.mac, {}).value;
    SlotsRemain(n, m, rows, i, if Bound(n.devices, row.mac) then FreeSlots(m.devices) else FreeSlots(m.devices) - {k},
      k);
    SubsetSize(FreeSlots(m.devices) - {k}, FreeSlots(m.devices));
    if o.Processed? {
      CoherentWrite(m.files, row, k);
    }
  }

  lemma ProgressStep(n: Node, m: Node, rows: seq<NetworkInterface>, i: nat)
    requires Progress(n, m, rows, i) && RowsReady(n, rows) && i < |rows|
    ensures Progress(n, WorkerSpec(m, rows[i], NO_FAULTS).0, rows, i + 1)
  {
    hide WorkerSpec;
    hide GoodRow;
    hide Bound;
    hide FreeSlots;
    hide UnboundFrom;
    hide Coherent;
    hide OneDevice;
    hide Current;
    var m1 := WorkerSpec(m, rows[i], NO_FAULTS).0;
    WorkerFrame(m, rows[i], NO_FAULTS);
    SlotsAfterStep(n, m, rows, i);
    forall r | r in rows
      ensures OneDevice(m1.devices, r.mac)
    {
      DevicesStayUnique(m, rows[i], NO_FAULTS, r.mac);
    }
    forall j | i + 1 <= j < |rows|
      ensures rows[j] == Current(rows[j], m1.stored) &&
              (Bound(m1.devices, rows[j].mac) <==> Bound(n.devices, rows[j].mac))
    {
      OtherRows(n, m, rows, i, j);
    }
  }

  lemma {:induction false} SubsetSize<T>(a: set<T>, b: set<T>)
    requires a <= b
    ensures |a| <= |b|
  {
    assert b == a + (b - a);
  }

  /** The node after `i` faultless workers. */
  function Reached(n: Node, rows: seq<NetworkInterface>, i: nat): Node
    requires i <= |rows|
  {
    After(n, rows, Faultless(|rows|), i)
  }

  lemma ReachedStep(n: Node, rows: seq<NetworkInterface>, i: nat)
    requires i < |rows|
    ensures Reached(n, rows, i + 1) == WorkerSpec(Reached(n, rows, i), rows[i], NO_FAULTS).0
  {
    hide WorkerSpec;
  }

  lemma {:induction false} ProgressAt(n: Node, rows: seq<NetworkInterface>, i: nat)
    requires Ready(n, rows) && i <= |rows|
    ensures Progress(n, Reached(n, rows, i), rows, i)
  {
    hide WorkerSpec;
    hide GoodRow;
    hide Bound;
    hide FreeSlots;
    hide UnboundFrom;
    hide Coherent;
    hide OneDevice;
    hide Current;
    if i > 0 {
      ProgressAt(n, rows, i - 1);
      ReachedStep(n, rows, i - 1);
      ProgressStep(n, Reached(n, rows, i - 1), rows, i - 1);
    } else {
      assert Reached(n, rows, 0) == n;
      assert forall j :: 0 <= j < |rows| ==> rows[j] in rows;
    }
  }

  // ---- the obstacle --------------------------------------------------------------------

  /** At its turn, row `i` is skipped although its device does not have the slot. */
  ghost predicate SkippedUnbound(n: Node, rows: seq<NetworkInterface>, i: nat)
    requires i < |rows|
  {
    WorkerSpec(Reached(n, rows, i), rows[i], NO_FAULTS).1.Skipped? && !Bound(Reached(n, rows, i).devices, rows[i].mac)
  }

  /** Some row is skipped that way while a later row still needs a slot, and is then given the same one. */
  ghost predicate Stolen(n: Node, rows: seq<NetworkInterface>) {
    exists i, j :: 0 <= i < j < |rows| && SkippedUnbound(n, rows, i) && !Bound(n.devices, rows[j].mac)
  }

  // ---- without it, every row skips afterwards -------------------------------------------

  /** A row skipped without its device having the slot keeps skipping through the worker of a bound row. */
  lemma SkipSurvivesBound(m: Node, row: NetworkInterface, other: NetworkInterface)
    requires UniqueNames(m.devices) && Skips(m, row) && !Bound(m.devices, row.mac)
    requires Bound(m.devices, other.mac) && OneDevice(m.devices, other.mac)
    requires GoodRow(other) && other.id in m.stored && other == Current(other, m.stored) && row.id != other.id
    ensures Skips(WorkerSpec(m, other, NO_FAULTS).0, row)
  {
    var (m1, o) := WorkerSpec(m, other, NO_FAULTS);
    BoundDevice(m.devices, other.mac);
    WorkerSettles(m, other);
    WorkerFrame(m, other, NO_FAULTS);
    if m1 != m {
      var k := NameFor(m.devices, row.mac, {}).value;
      assert !InUse(m.devices, Name(k));
      FileNameInjective(o.slot, k);
      SameEntry(m.files, m1.files, FileName(o.slot), FileName(k));
      SameColumn(m.stored, m1.stored, other.id, row.id);
    }
  }

  lemma {:induction false} RowsKeepSkipping(n: Node, rows: seq<NetworkInterface>, i: nat)
    requires Ready(n, rows) && !Stolen(n, rows) && i <= |rows|
    ensures forall j :: 0 <= j < i ==> Skips(Reached(n, rows, i), rows[j])
    ensures forall j :: 0 <= j < i ==> Bound(Reached(n, rows, i).devices, rows[j].mac) || SkippedUnbound(n, rows, j)
  {
    hide WorkerSpec;
    hide GoodRow;
    hide Skips;
    hide Carries;
    hide FreeSlots;
    hide UnboundFrom;
    hide Coherent;
    hide OneDevice;
    hide Current;
    hide NameFor;
    if i > 0 {
      RowsKeepSkipping(n, rows, i - 1);
      ProgressAt(n, rows, i - 1);
      ReachedStep(n, rows, i - 1);
      var m, m1, last := Reached(n, rows, i - 1), Reached(n, rows, i), rows[i - 1];
      assert last in rows;
      NameAvailable(n, m, rows, i - 1);
      WorkerSettles(m, last);
      forall j | 0 <= j < i - 1
        ensures Skips(m1, rows[j]) && (Bound(m1.devices, rows[j].mac) || SkippedUnbound(n, rows, j))
      {
        if Bound(m.devices, rows[j].mac) {
          SettledSurvives(m, rows[j], last, NO_FAULTS);
        } else {
          assert Bound(n.devices, last.mac);
          SkipSurvivesBound(m, rows[j], last);
        }
      }
    }
  }

  // ---- the cleanup after the pass ------------------------------------------------------------

  lemma SkipSurvivesCleanup(n: Node, rows: seq<NetworkInterface>, row: NetworkInterface)
    requires Skips(n, row) && row in rows && Coherent(n.files)
    ensures var files := CleanedFiles(n.files, {}, ActiveMacs(rows), {}); Skips(n.(files := files), row)
  {
    var k := NameFor(n.devices, row.mac, {}).value;
    var text := n.files[FileName(k)];
    assert !Drifted(Current(row, n.stored), text) && CoherentText(text);
    assert Lower(row.mac) in ActiveMacs(rows);
    CleanupKeeps(n.files, {}, ActiveMacs(rows), {}, FileName(k));
  }

  /** Nothing to do: every row skips and no file is an orphan. */
  ghost predicate Quiet(n: Node, rows: seq<NetworkInterface>) {
    (forall r :: r in rows ==> Skips(n, r)) && Orphans(n.files, {}, ActiveMacs(rows)) == {}
  }

  /** The node after one faultless cycle. */
  ghost function OneCycle(n: Node, rows: seq<NetworkInterface>): Node {
    CycleSpec(n, rows, Faultless(|rows|), {}, {})
  }

  lemma SameMacsFetched(n: Node, rows: seq<NetworkInterface>, table: seq<NetworkInterface>)
    requires forall r :: r in table <==> r in rows
    ensures ActiveMacs(Fetch(table, n.stored)) == ActiveMacs(rows)
  {
    var again := Fetch(table, n.stored);
    forall r | r in rows
      ensures Lower(r.mac) in ActiveMacs(again)
    {
      var j :| 0 <= j < |table| && table[j] == r;
      assert again[j] in again && again[j].mac == r.mac;
    }
    forall r | r in again
      ensures Lower(r.mac) in ActiveMacs(rows)
    {
      var j :| 0 <= j < |again| && again[j] == r;
      assert table[j] in table && table[j].mac == r.mac;
    }
  }

  /** From a quiet node a cycle over the same rows, in any order, changes nothing and counts nothing. */
  lemma QuietCycle(n: Node, rows: seq<NetworkInterface>, table: seq<NetworkInterface>)
    requires forall r :: r in table <==> r in rows
    ensures var again := Fetch(table, n.stored);
            Quiet(n, rows) ==>
              OneCycle(n, again) == n && TallyAfter(n, again, Faultless(|again|), |again|) == Tally(0, 0) &&
              Orphans(n.files, {}, ActiveMacs(again)) == {}
    ensures TallyAfter(n, Fetch(table, n.stored), Faultless(|table|), |table|) == Tally(0, 0) <==>
            forall r :: r in rows ==> Skips(n, r)
  {
    hide WorkerSpec;
    hide HwaddrOf;
    hide Orphan;
    hide ActiveMacs;
    hide After;
    hide TallyAfter;
    var again := Fetch(table, n.stored);
    SameMacsFetched(n, rows, table);
    IdlePass(n, again, |again|);
    assert forall j :: 0 <= j < |again| ==>
        again[j] in again && table[j] in rows && Skips(n, again[j]) == Skips(n, table[j]);
    if Quiet(n, rows) {
      assert CleanedFiles(n.files, {}, ActiveMacs(again), {}) == n.files;
    }
    if forall j :: 0 <= j < |again| ==> Skips(n, again[j]) {
      forall r | r in rows
        ensures Skips(n, r)
      {
        var j :| 0 <= j < |table| && table[j] == r;
        assert Skips(n, again[j]);
      }
    }
  }

  /**
   Convergence: from a ready node in which no slot is stolen, the node after one faultless
   cycle is quiet.
   */
  lemma {:induction false} CycleConverges(n: Node, rows: seq<NetworkInterface>)
    requires Ready(n, rows) && !Stolen(n, rows)
    ensures Quiet(OneCycle(n, rows), rows)
  {
    hide WorkerSpec;
    hide GoodRow;
    var m := Reached(n, rows, |rows|);
    RowsKeepSkipping(n, rows, |rows|);
    ProgressAt(n, rows, |rows|);
    forall r | r in rows
      ensures Skips(OneCycle(n, rows), r)
    {
      SkipSurvivesCleanup(m, rows, r);
    }
    CleanupTwice(m.files, {}, ActiveMacs(rows), {});
  }

  /**
   Convergence as a caller sees it: after one faultless cycle, a further cycle over the rows
   as fetched again, in any order, processes 0, fails 0, deletes 0 and leaves files, devices
   and statuses as they are.
   */
  lemma {:induction false} SecondCycleDoesNothing(n: Node, rows: seq<NetworkInterface>, table: seq<NetworkInterface>)
    requires Ready(n, rows) && !Stolen(n, rows)
    requires forall r :: r in table <==> r in rows
    ensures var n1 := OneCycle(n, rows);
            var again := Fetch(table, n1.stored);
            OneCycle(n1, again) == n1 && TallyAfter(n1, again, Faultless(|again|), |again|) == Tally(0, 0) &&
            Orphans(n1.files, {}, ActiveMacs(again)) == {}
  {
    hide Ready;
    hide Stolen;
    hide Quiet;
    hide OneCycle;
    CycleConverges(n, rows);
    QuietCycle(OneCycle(n, rows), rows, table);
  }

  // ---- with it, a row is left over ---------------------------------------------------------------

  /** The slot's file is read as belonging to the MAC address. */
  predicate OwnsFile(files: map<string, string>, k: Slot, mac: string) {
    FileName(k) in files && ReadConfig(files[FileName(k)]).mac == Lower(mac)
  }

  predicate OwnsOneFile(files: map<string, string>, mac: string) {
    forall a: Slot, b: Slot :: OwnsFile(files, a, mac) && OwnsFile(files, b, mac) ==> a == b
  }

  predicate OwnsNoFile(files: map<string, string>, mac: string) {
    forall a: Slot :: !OwnsFile(files, a, mac)
  }

  lemma WriteOwn(files: map<string, string>, row: NetworkInterface, k: Slot, mac: string, a: Slot)
    requires GoodRow(row) && !SameMac(mac, row.mac)
    requires OwnsFile(files[FileName(k) := IfcfgText(row, k)], a, mac)
    ensures OwnsFile(files, a, mac) && a != k
  {
    ReadersAgree(row, k);
    FileNameInjective(a, k);
  }

  /** The faultless worker of another row gives a MAC address no file it did not have, and no slot. */
  lemma OthersGiveNothing(n: Node, rows: seq<NetworkInterface>, t: nat, mac: string)
    requires Ready(n, rows) && t < |rows| && !SameMac(mac, rows[t].mac)
    ensures var m, m1 := Reached(n, rows, t), Reached(n, rows, t + 1);
            (forall a: Slot :: OwnsFile(m1.files, a, mac) ==> OwnsFile(m.files, a, mac)) &&
            (Bound(m1.devices, mac) <==> Bound(m.devices, mac))
  {
    hide WorkerSpec;
    hide GoodRow;
    hide Bound;
    hide OneDevice;
    hide Skips;
    hide Settled;
    var m, m1 := Reached(n, rows, t), Reached(n, rows, t + 1);
    ProgressAt(n, rows, t);
    ReachedStep(n, rows, t);
    NameAvailable(n, m, rows, t);
    assert rows[t] in rows;
    WorkerSettles(m, rows[t]);
    WorkerFrame(m, rows[t], NO_FAULTS);
    var o := WorkerSpec(m, rows[t], NO_FAULTS).1;
    if o.Processed? {
      BoundFrame(m.devices, m1.devices, mac, rows[t].mac, o.slot);
      forall a: Slot | OwnsFile(m1.files, a, mac)
        ensures OwnsFile(m.files, a, mac)
      {
        WriteOwn(m.files, rows[t], o.slot, mac, a);
      }
    }
  }

  lemma {:induction false} OneFileUntil(n: Node, rows: seq<NetworkInterface>, i: nat, t: nat)
    requires Ready(n, rows) && t <= i < |rows| && OwnsOneFile(n.files, rows[i].mac)
    ensures OwnsOneFile(Reached(n, rows, t).files, rows[i].mac)
  {
    hide WorkerSpec;
    hide OwnsFile;
    hide Ready;
    if t > 0 {
      OneFileUntil(n, rows, i, t - 1);
      DistinctAt(n, rows, t - 1, i);
      OthersGiveNothing(n, rows, t - 1, rows[i].mac);
    }
  }

  lemma DistinctAt(n: Node, rows: seq<NetworkInterface>, i: nat, j: nat)
    requires Ready(n, rows) && i < |rows| && j < |rows| && i != j
    ensures !SameMac(rows[i].mac, rows[j].mac) && rows[i].id != rows[j].id
  {
  }

  /**
   What a skipped unbound row leaves: the slot it was skipped under is the lowest free one, and the slot's
   file is its own.
   */
  lemma SkippedUnder(n: Node, rows: seq<NetworkInterface>, i: nat) returns (k: Slot)
    requires i < |rows| && SkippedUnbound(n, rows, i)
    ensures var m := Reached(n, rows, i);
            LowestFree(m.devices, 0) == Some(k) && OwnsFile(m.files, k, rows[i].mac) && Reached(n, rows, i + 1) == m
  {
    k := LowestFree(Reached(n, rows, i).devices, 0).value;
    ReachedStep(n, rows, i);
  }

  /** Through the turns of bound rows, the device table and the file of a free slot stay as they are. */
  lemma {:induction false} BoundRowsKeepFreeSlot(n: Node, rows: seq<NetworkInterface>, i: nat, t: nat, k: Slot)
    requires Ready(n, rows) && i <= t <= |rows|
    requires forall x :: i <= x < t ==> Bound(n.devices, rows[x].mac)
    requires !InUse(Reached(n, rows, i).devices, Name(k))
    ensures var a, b := Reached(n, rows, i), Reached(n, rows, t);
            a.devices == b.devices && (FileName(k) in a.files <==> FileName(k) in b.files) &&
            (FileName(k) in a.files ==> a.files[FileName(k)] == b.files[FileName(k)])
  {
    hide WorkerSpec;
    hide GoodRow;
    hide Skips;
    hide OneDevice;
    hide Coherent;
    hide FreeSlots;
    hide UnboundFrom;
    hide IfcfgText;
    if t > i {
      BoundRowsKeepFreeSlot(n, rows, i, t - 1, k);
      var m := Reached(n, rows, t - 1);
      ProgressAt(n, rows, t - 1);
      ReachedStep(n, rows, t - 1);
      NameAvailable(n, m, rows, t - 1);
      assert rows[t - 1] in rows;
      WorkerSettles(m, rows[t - 1]);
      BoundDevice(m.devices, rows[t - 1].mac);
      FileNameInjective(NameFor(m.devices, rows[t - 1].mac, {}).value, k);
    }
  }

  lemma UnboundName(devices: seq<Device>, mac: string)
    requires !Bound(devices, mac)
    ensures NameFor(devices, mac, {}) == LowestFree(devices, 0)
  {
  }

  /** The unbound row whose turn comes next takes the slot, and the file with it. */
  lemma NextUnboundTakesSlot(n: Node, rows: seq<NetworkInterface>, j: nat, k: Slot, mac: string)
    requires Ready(n, rows) && j < |rows| && !Bound(n.devices, rows[j].mac) && !SameMac(mac, rows[j].mac)
    requires LowestFree(Reached(n, rows, j).devices, 0) == Some(k)
    requires OwnsFile(Reached(n, rows, j).files, k, mac) && OwnsOneFile(Reached(n, rows, j).files, mac)
    ensures OwnsNoFile(Reached(n, rows, j + 1).files, mac)
  {
    hide ProcessSpec;
    hide IfcfgText;
    hide Bound;
    hide OneDevice;
    hide FreeSlots;
    hide UnboundFrom;
    hide Coherent;
    hide GoodRow;
    var m := Reached(n, rows, j);
    ProgressAt(n, rows, j);
    ReachedStep(n, rows, j);
    assert rows[j] in rows;
    UnboundName(m.devices, rows[j].mac);
    WorkerSettles(m, rows[j]);
    assert Drifted(rows[j], m.files[FileName(k)]);
    var after := Reached(n, rows, j + 1).files;
    forall a: Slot
      ensures !OwnsFile(after, a, mac)
    {
      if OwnsFile(after, a, mac) { WriteOwn(m.files, rows[j], k, mac, a); }
    }
  }

  lemma {:induction false} StaysRobbed(n: Node, rows: seq<NetworkInterface>, i: nat, j: nat, t: nat)
    requires Ready(n, rows) && i < j < t <= |rows|
    requires !Bound(Reached(n, rows, j + 1).devices, rows[i].mac) &&
             OwnsNoFile(Reached(n, rows, j + 1).files, rows[i].mac)
    ensures !Bound(Reached(n, rows, t).devices, rows[i].mac) && OwnsNoFile(Reached(n, rows, t).files, rows[i].mac)
  {
    hide WorkerSpec;
    hide OwnsFile;
    hide Bound;
    hide Ready;
    if t > j + 1 {
      StaysRobbed(n, rows, i, j, t - 1);
      DistinctAt(n, rows, t - 1, i);
      OthersGiveNothing(n, rows, t - 1, rows[i].mac);
    }
  }

  lemma {:induction false} FirstUnboundAfter(n: Node, rows: seq<NetworkInterface>, i: nat, j: nat) returns (first: nat)
    requires i < j < |rows| && !Bound(n.devices, rows[j].mac)
    ensures i < first <= j && !Bound(n.devices, rows[first].mac)
    ensures forall x :: i < x < first ==> Bound(n.devices, rows[x].mac)
    decreases j
  {
    if x :| i < x < j && !Bound(n.devices, rows[x].mac) {
      first := FirstUnboundAfter(n, rows, i, x);
    } else {
      first := j;
    }
  }

  /** A MAC address without a slot and without a file of its own never skips. */
  lemma RobbedNeverSkips(m: Node, row: NetworkInterface)
    requires !Bound(m.devices, row.mac) && OwnsNoFile(m.files, row.mac)
    ensures !Skips(m, row)
  {
    var name := NameFor(m.devices, row.mac, {});
    if name.Some? {
      assert !OwnsFile(m.files, name.value, row.mac);
    }
  }

  lemma StolenIsLeftOver(n: Node, rows: seq<NetworkInterface>)
    requires Ready(n, rows) && Stolen(n, rows)
    requires forall r :: r in rows ==> OwnsOneFile(n.files, r.mac)
    ensures !Quiet(OneCycle(n, rows), rows)
  {
    hide WorkerSpec;
    hide GoodRow;
    hide OwnsFile;
    hide Bound;
    hide OneDevice;
    hide Skips;
    hide Ready;
    var i, other :| 0 <= i < other < |rows| && SkippedUnbound(n, rows, i) && !Bound(n.devices, rows[other].mac);
    var j := FirstUnboundAfter(n, rows, i, other);
    var row := rows[i];
    assert row in rows;
    var k := SkippedUnder(n, rows, i);
    OneFileUntil(n, rows, i, i);
    BoundRowsKeepFreeSlot(n, rows, i + 1, j, k);
    DistinctAt(n, rows, i, j);
    OneFileBetween(n, rows, i, j);
    SameOwner(Reached(n, rows, i).files, Reached(n, rows, j).files, k, row.mac);
    NextUnboundTakesSlot(n, rows, j, k, row.mac);
    UnboundUntil(n, rows, i, j + 1);
    StaysRobbed(n, rows, i, j, |rows|);
    var m := Reached(n, rows, |rows|);
    LessOwned(m.files, {}, ActiveMacs(rows), row.mac);
    RobbedNeverSkips(OneCycle(n, rows), row);
  }

  lemma SameOwner(a: map<string, string>, b: map<string, string>, k: Slot, mac: string)
    requires OwnsFile(a, k, mac) && FileName(k) in b && a[FileName(k)] == b[FileName(k)]
    ensures OwnsFile(b, k, mac)
  {
  }

  lemma LessOwned(files: map<string, string>, unreadable: set<string>, active: set<string>, mac: string)
    requires OwnsNoFile(files, mac)
    ensures OwnsNoFile(CleanedFiles(files, unreadable, active, {}), mac)
  {
    hide Orphan;
    hide ReadConfig;
    var after := CleanedFiles(files, unreadable, active, {});
    forall a: Slot
      ensures !OwnsFile(after, a, mac)
    {
      assert OwnsFile(after, a, mac) ==> OwnsFile(files, a, mac);
    }
  }

  lemma {:induction false} OneFileBetween(n: Node, rows: seq<NetworkInterface>, i: nat, t: nat)
    requires Ready(n, rows) && i < t <= |rows| && Reached(n, rows, i + 1) == Reached(n, rows, i)
    requires OwnsOneFile(Reached(n, rows, i).files, rows[i].mac)
    ensures OwnsOneFile(Reached(n, rows, t).files, rows[i].mac)
  {
    hide WorkerSpec;
    hide OwnsFile;
    hide Ready;
    if t > i + 1 {
      OneFileBetween(n, rows, i, t - 1);
      DistinctAt(n, rows, t - 1, i);
      OthersGiveNothing(n, rows, t - 1, rows[i].mac);
    }
  }

  lemma {:induction false} UnboundUntil(n: Node, rows: seq<NetworkInterface>, i: nat, t: nat)
    requires Ready(n, rows) && i < t <= |rows| && SkippedUnbound(n, rows, i)
    ensures !Bound(Reached(n, rows, t).devices, rows[i].mac)
  {
    hide WorkerSpec;
    hide Bound;
    hide Ready;
    if t > i + 1 {
      UnboundUntil(n, rows, i, t - 1);
      DistinctAt(n, rows, t - 1, i);
      OthersGiveNothing(n, rows, t - 1, rows[i].mac);
    } else {
      var _ := SkippedUnder(n, rows, i);
    }
  }

  /** Rows whose device has no slot yet and that are all pending cannot lose a slot: the cycle converges. */
  lemma {:induction false} PendingRowsConverge(n: Node, rows: seq<NetworkInterface>)
    requires Ready(n, rows)
    requires forall r :: r in rows && !Bound(n.devices, r.mac) ==> r.status == Pending
    ensures Quiet(OneCycle(n, rows), rows)
  {
    PendingNotStolen(n, rows);
    CycleConverges(n, rows);
  }

  lemma PendingNotStolen(n: Node, rows: seq<NetworkInterface>)
    requires Ready(n, rows)
    requires forall r :: r in rows && !Bound(n.devices, r.mac) ==> r.status == Pending
    ensures !Stolen(n, rows)
  {
    hide GoodRow;
    hide Bound;
    forall i | 0 <= i < |rows|
      ensures !SkippedUnbound(n, rows, i)
    {
      ProgressAt(n, rows, i);
      assert rows[i] in rows;
    }
  }

  /**
   The obstacle is real: of two configured rows whose devices have lost their slots, as after
   a reboot, the first is skipped for the sake of its old file, and the second overwrites it.
   */
  lemma {:induction false} LostSlotIsStolen(n: Node, a: NetworkInterface, b: NetworkInterface, k: Slot)
    requires Ready(n, [a, b]) && a.status == Configured
    requires !Bound(n.devices, a.mac) && !Bound(n.devices, b.mac) && LowestFree(n.devices, 0) == Some(k)
    requires FileName(k) in n.files && n.files[FileName(k)] == IfcfgText(a, k)
    ensures var end := Reached(n, [a, b], 2);
            Stolen(n, [a, b]) && end.files == n.files[FileName(k) := IfcfgText(b, k)] && !Bound(end.devices, a.mac)
  {
    hide WorkerSpec;
    hide GoodRow;
    hide Bound;
    hide OneDevice;
    hide IfcfgText;
    hide Coherent;
    hide Current;
    hide LowestFree;
    hide FreeSlots;
    hide UnboundFrom;
    var rows := [a, b];
    assert rows[0] == a && rows[1] == b && a in rows && b in rows;
    DistinctAt(n, rows, 0, 1);
    OwnFileSkips(n, a, k);
    ReachedStep(n, rows, 0);
    SkipKeeps(n, a, NO_FAULTS);
    assert Reached(n, rows, 1) == n;
    assert SkippedUnbound(n, rows, 0);
    ReachedStep(n, rows, 1);
    SecondRowTakes(n, a, b, k);
  }

  lemma SecondRowTakes(n: Node, a: NetworkInterface, b: NetworkInterface, k: Slot)
    requires UniqueNames(n.devices) && GoodRow(a) && GoodRow(b) && OneDevice(n.devices, b.mac) && !SameMac(a.mac, b.mac)
    requires b.id in n.stored && b == Current(b, n.stored)
    requires !Bound(n.devices, a.mac) && !Bound(n.devices, b.mac) && LowestFree(n.devices, 0) == Some(k)
    requires FileName(k) in n.files && n.files[FileName(k)] == IfcfgText(a, k)
    ensures var m := WorkerSpec(n, b, NO_FAULTS).0;
            m.files == n.files[FileName(k) := IfcfgText(b, k)] && !Bound(m.devices, a.mac)
  {
    hide WorkerSpec;
    hide GoodRow;
    hide OneDevice;
    hide IfcfgText;
    hide Skips;
    ForeignFileIsRewritten(n, a, b, k);
    assert NameFor(n.devices, b.mac, {}) == Some(k);
    WorkerSettles(n, b);
    WorkerFrame(n, b, NO_FAULTS);
    BoundFrame(n.devices, WorkerSpec(n, b, NO_FAULTS).0.devices, a.mac, b.mac, k);
  }

  lemma OwnFileSkips(n: Node, row: NetworkInterface, k: Slot)
    requires GoodRow(row) && row.status == Configured && !Bound(n.devices, row.mac) &&
             LowestFree(n.devices, 0) == Some(k)
    requires FileName(k) in n.files && n.files[FileName(k)] == IfcfgText(row, k)
    ensures WorkerSpec(n, row, NO_FAULTS).1.Skipped?
  {
    FixedPointExactly(row, k);
  }

  lemma ForeignFileIsRewritten(n: Node, a: NetworkInterface, b: NetworkInterface, k: Slot)
    requires GoodRow(a) && !SameMac(a.mac, b.mac) && !Bound(n.devices, b.mac) && LowestFree(n.devices, 0) == Some(k)
    requires FileName(k) in n.files && n.files[FileName(k)] == IfcfgText(a, k)
    ensures !WorkerSpec(n, b, NO_FAULTS).1.Skipped?
  {
    ReadersAgree(a, k);
  }

  /** A row with nothing to do stays so through a cleanup exactly when its slot's file is no orphan. */
  lemma {:induction false} SkipSurvivesCleanupExactly(n: Node, rows: seq<NetworkInterface>, row: NetworkInterface)
    requires Skips(n, row) && row in rows
    ensures var k := NameFor(n.devices, row.mac, {}).value;
            var files := CleanedFiles(n.files, {}, ActiveMacs(rows), {});
            (Skips(n.(files := files), row) <==> !Orphan(n.files, {}, ActiveMacs(rows), FileName(k)))
  {
    hide HwaddrOf;
    hide ReadConfig;
  }

  // ---- failures are retried ------------------------------------------------------------------

  /** The status column of a row is touched by no other worker of the pass. */
  lemma {:induction false} ColumnKept(n: Node, rows: seq<NetworkInterface>, plans: seq<Plan>, i: nat, t: nat)
    requires UniqueNames(n.devices) && |rows| == |plans| && DistinctRows(rows) && i < t <= |rows|
    ensures UniqueNames(After(n, rows, plans, t).devices)
    ensures Column(After(n, rows, plans, t).stored, rows[i].id) ==
            Column(After(n, rows, plans, i + 1).stored, rows[i].id)
  {
    hide WorkerSpec;
    KeepsUnique(n, rows, plans, t - 1);
    var m := After(n, rows, plans, t - 1);
    WorkerFrame(m, rows[t - 1], plans[t - 1]);
    if t > i + 1 {
      ColumnKept(n, rows, plans, i, t - 1);
      SameColumn(m.stored, m.stored - {rows[t - 1].id}, rows[t - 1].id, rows[i].id);
      SameColumn(After(n, rows, plans, t).stored, m.stored, rows[t - 1].id, rows[i].id);
    }
  }

  lemma {:induction false} KeepsUnique(n: Node, rows: seq<NetworkInterface>, plans: seq<Plan>, i: nat)
    requires UniqueNames(n.devices) && i <= |rows| == |plans|
    ensures UniqueNames(After(n, rows, plans, i).devices) && After(n, rows, plans, i).stored.Keys == n.stored.Keys
  {
    hide WorkerSpec;
    if i > 0 {
      KeepsUnique(n, rows, plans, i - 1);
      WorkerFrame(After(n, rows, plans, i - 1), rows[i - 1], plans[i - 1]);
    }
  }

  lemma FailureIsStored(n: Node, row: NetworkInterface, plan: Plan)
    requires WorkerSpec(n, row, plan).1.Failed? && plan.saveFailed && row.id in n.stored
    ensures Column(WorkerSpec(n, row, plan).0.stored, row.id) == 0
  {
    ProcessColumns(n, row, WorkerSpec(n, row, plan).1.slot, plan);
  }

  /**
   A failure that is recorded is retried: whatever else happens in the rest of the cycle and
   in its cleanup, and in whatever order and with whatever faults the next cycle runs, the
   row's worker does not skip.
   */
  lemma {:induction false} FailureIsRetried(n: Node, rows: seq<NetworkInterface>, plans: seq<Plan>, i: nat,
                                            stuck: set<string>,
                                            table: seq<NetworkInterface>, next: seq<Plan>, j: nat)
    requires UniqueNames(n.devices) && i < |rows| == |plans| && DistinctRows(rows)
    requires OutcomeAt(n, rows, plans, i).Failed? && plans[i].saveFailed && rows[i].id in n.stored
    requires j < |table| == |next| && table[j].id == rows[i].id
    ensures var n1 := CycleSpec(n, rows, plans, {}, stuck);
            !OutcomeAt(n1, Fetch(table, n1.stored), next, j).Skipped?
  {
    hide WorkerSpec;
    hide CleanedFiles;
    var n1 := CycleSpec(n, rows, plans, {}, stuck);
    KeepsUnique(n, rows, plans, i);
    FailureIsStored(After(n, rows, plans, i), rows[i], plans[i]);
    ColumnKept(n, rows, plans, i, |rows|);
    var again := Fetch(table, n1.stored);
    assert again[j].status == Pending;
    PendingNeverSkips(After(n1, again, next, j), again[j], next[j]);
  }
}
