/** Which nodes a faultless cycle does not settle, told from the node before the cycle. */
module Stealing {
  import opened Options
  import opened Entities
  import opened IpLink
  import opened Naming
  import opened Ifcfg
  import opened Rhel
  import opened Cleanup
  import opened Cycle
  import opened Convergence

  /** How many of the names below `b` are free. */
  function FreeBelow(devices: seq<Device>, b: nat): nat
    requires b <= 10
  {
    if b == 0 then 0 else FreeBelow(devices, b - 1) + if InUse(devices, Name(b - 1)) then 0 else 1
  }

  /** How many of the rows before row `i` have devices without a name. */
  function UnnamedBefore(devices: seq<Device>, rows: seq<NetworkInterface>, i: nat): nat
    requires i <= |rows|
  {
    if i == 0 then 0 else UnnamedBefore(devices, rows, i - 1) + if Bound(devices, rows[i - 1].mac) then 0 else 1
  }

  /**
   Row `i` is configured, its device has no name, and under the free name that the row's place among
   such rows leads to lies a file that suits it.
   */
  predicate Exposed(n: Node, rows: seq<NetworkInterface>, i: nat, k: Slot) {
    i < |rows| && !Bound(n.devices, rows[i].mac) && rows[i].status == Configured &&
    !InUse(n.devices, Name(k)) && FreeBelow(n.devices, k) == UnnamedBefore(n.devices, rows, i) &&
    FileName(k) in n.files && !Drifted(rows[i], n.files[FileName(k)])
  }

  /** A row is exposed, and a later row's device has no name either. */
  ghost predicate AtRisk(n: Node, rows: seq<NetworkInterface>) {
    exists i, j, k: Slot :: 0 <= i < j < |rows| && Exposed(n, rows, i, k) && !Bound(n.devices, rows[j].mac)
  }

  // ---- counting free names ---------------------------------------------------------

  lemma {:induction false} FreeBelowGrows(devices: seq<Device>, a: nat, b: nat)
    requires a <= b <= 10
    ensures FreeBelow(devices, a) <= FreeBelow(devices, b)
    ensures (forall s: Slot :: a <= s < b ==> InUse(devices, Name(s))) <==>
            FreeBelow(devices, a) == FreeBelow(devices, b)
  {
    if a < b {
      FreeBelowGrows(devices, a, b - 1);
    }
  }

  /** The names free now are those free before from `b` on. */
  ghost predicate FreeNames(before: seq<Device>, now: seq<Device>, b: nat) {
    b <= 10 && forall s: Slot :: !InUse(now, Name(s)) <==> !InUse(before, Name(s)) && b <= s
  }

  /** At `m` the free names are those of `n` from `b` on, with their files untouched. */
  ghost predicate FreeFrom(n: Node, m: Node, b: nat) {
    FreeNames(n.devices, m.devices, b) &&
    forall s: Slot :: !InUse(m.devices, Name(s)) ==> SameFile(n.files, m.files, FileName(s))
  }

  predicate SameFile(a: map<string, string>, b: map<string, string>, f: string) {
    (f in a <==> f in b) && (f in a ==> a[f] == b[f])
  }

  /** The lowest name free now is known by its count. */
  lemma LowestByCount(before: seq<Device>, now: seq<Device>, b: nat, k: Slot)
    requires FreeNames(before, now, b)
    ensures LowestFree(now, 0) == Some(k) <==> !InUse(before, Name(k)) && FreeBelow(before, k) == FreeBelow(before, b)
  {
    hide Name;
    hide InUse;
    if b <= k {
      FreeBelowGrows(before, b, k);
    } else {
      FreeBelowGrows(before, k, k + 1);
      FreeBelowGrows(before, k + 1, b);
    }
  }

  /** The lowest free name is taken: the bound moves behind it, and the count grows by one. */
  lemma NameTaken(before: seq<Device>, now: seq<Device>, after: seq<Device>, b: nat, k: Slot)
    requires FreeNames(before, now, b) && LowestFree(now, 0) == Some(k) && FreeSlots(after) == FreeSlots(now) - {k}
    ensures FreeNames(before, after, k + 1) && FreeBelow(before, k + 1) == FreeBelow(before, b) + 1
    ensures forall s: Slot :: !InUse(after, Name(s)) <==> !InUse(now, Name(s)) && s != k
  {
    hide Name;
    hide InUse;
    LowestByCount(before, now, b, k);
    forall s: Slot
      ensures !InUse(after, Name(s)) <==> !InUse(now, Name(s)) && s != k
    {
      assert s in FreeSlots(after) <==> s in FreeSlots(now) && s != k;
    }
  }

  // ---- the pass until the first row is skipped without its name ------------------------

  lemma NamedRowKeepsFree(n: Node, m: Node, row: NetworkInterface, b: nat)
    requires FreeFrom(n, m, b) && UniqueNames(m.devices) && OneDevice(m.devices, row.mac) && Bound(m.devices, row.mac)
    requires WorkerSpec(m, row, NO_FAULTS).0.devices == m.devices
    ensures FreeFrom(n, WorkerSpec(m, row, NO_FAULTS).0, b)
  {
    hide WorkerSpec;
    hide Bound;
    hide OneDevice;
    hide Carries;
    var (m1, o) := WorkerSpec(m, row, NO_FAULTS);
    WorkerFrame(m, row, NO_FAULTS);
    if m1 != m {
      WorkerName(m, row, NO_FAULTS);
      NamedInUse(m.devices, row.mac);
      forall s: Slot | !InUse(m1.devices, Name(s))
        ensures SameFile(n.files, m1.files, FileName(s))
      {
        FileNameInjective(o.slot, s);
        SameEntry(m.files, m1.files, FileName(o.slot), FileName(s));
      }
    }
  }

  lemma NamedInUse(devices: seq<Device>, mac: string)
    requires UniqueNames(devices) && OneDevice(devices, mac) && Bound(devices, mac)
    ensures NameFor(devices, mac, {}).Some? && InUse(devices, Name(NameFor(devices, mac, {}).value))
  {
    BoundDevice(devices, mac);
  }

  lemma TakenRowKeepsFree(n: Node, m: Node, m1: Node, b: nat, k: Slot, text: string)
    requires FreeFrom(n, m, b) && LowestFree(m.devices, 0) == Some(k)
    requires FreeSlots(m1.devices) == FreeSlots(m.devices) - {k} && m1.files == m.files[FileName(k) := text]
    ensures FreeFrom(n, m1, k + 1) && FreeBelow(n.devices, k + 1) == FreeBelow(n.devices, b) + 1
  {
    NameTaken(n.devices, m.devices, m1.devices, b, k);
    forall s: Slot | !InUse(m1.devices, Name(s))
      ensures SameFile(n.files, m1.files, FileName(s))
    {
      FileNameInjective(s, k);
    }
  }

  lemma {:induction false} FreeUntilSkipped(n: Node, rows: seq<NetworkInterface>, i: nat) returns (b: nat)
    requires Ready(n, rows) && i <= |rows| && forall j :: 0 <= j < i ==> !SkippedUnbound(n, rows, j)
    ensures FreeFrom(n, Reached(n, rows, i), b) && FreeBelow(n.devices, b) == UnnamedBefore(n.devices, rows, i)
  {
    hide WorkerSpec;
    hide GoodRow;
    hide Bound;
    hide FreeSlots;
    hide UnboundFrom;
    hide Coherent;
    hide OneDevice;
    hide Current;
    hide Skips;
    hide Carries;
    hide FreeFrom;
    hide LowestFree;
    if i == 0 {
      b := 0;
      FreeAtStart(n);
      assert Reached(n, rows, 0) == n;
    } else {
      var c := FreeUntilSkipped(n, rows, i - 1);
      var m, row := Reached(n, rows, i - 1), rows[i - 1];
      assert row in rows;
      ProgressAt(n, rows, i - 1);
      ReachedStep(n, rows, i - 1);
      NameAvailable(n, m, rows, i - 1);
      WorkerSettles(m, row);
      assert !SkippedUnbound(n, rows, i - 1);
      if Bound(m.devices, row.mac) {
        b := c;
        NamedRowKeepsFree(n, m, row, c);
      } else {
        UnboundName(m.devices, row.mac);
        var k := NameFor(m.devices, row.mac, {}).value;
        TakenRowKeepsFree(n, m, WorkerSpec(m, row, NO_FAULTS).0, c, k, IfcfgText(row, k));
        var taken: nat := k;
        b := taken + 1;
      }
    }
  }

  lemma FreeAtStart(n: Node)
    ensures FreeFrom(n, n, 0) && FreeBelow(n.devices, 0) == 0
  {
  }

  /** Until a row is skipped without its name, the next one is exactly if it is exposed. */
  lemma {:induction false} SkippedExactly(n: Node, rows: seq<NetworkInterface>, i: nat)
    requires Ready(n, rows) && i < |rows| && forall j :: 0 <= j < i ==> !SkippedUnbound(n, rows, j)
    ensures SkippedUnbound(n, rows, i) <==> exists k: Slot :: Exposed(n, rows, i, k)
  {
    hide WorkerSpec;
    hide GoodRow;
    hide Bound;
    hide Coherent;
    hide OneDevice;
    hide Drifted;
    hide FreeSlots;
    hide UnboundFrom;
    hide LowestFree;
    hide FreeBelow;
    hide Reached;
    var b := FreeUntilSkipped(n, rows, i);
    var m, row := Reached(n, rows, i), rows[i];
    ProgressAt(n, rows, i);
    if !Bound(m.devices, row.mac) {
      NameAvailable(n, m, rows, i);
      UnboundName(m.devices, row.mac);
      var k := NameFor(m.devices, row.mac, {}).value;
      SkippedMeans(m, row, k);
      LowestByCount(n.devices, m.devices, b, k);
      assert !InUse(m.devices, Name(k)) && SameFile(n.files, m.files, FileName(k));
      if SkippedUnbound(n, rows, i) {
        assert Exposed(n, rows, i, k);
      }
      if s: Slot :| Exposed(n, rows, i, s) {
        LowestByCount(n.devices, m.devices, b, s);
        assert s == k;
      }
    } else {
      assert Bound(n.devices, row.mac);
    }
  }

  lemma SkippedMeans(m: Node, row: NetworkInterface, k: Slot)
    requires NameFor(m.devices, row.mac, {}) == Some(k) && row == Current(row, m.stored)
    ensures WorkerSpec(m, row, NO_FAULTS).1.Skipped? <==>
            FileName(k) in m.files && !Drifted(row, m.files[FileName(k)]) && row.status == Configured
  {
  }

  /** The first row that is skipped without its name, if one before `i` is. */
  lemma {:induction false} FirstSkipped(n: Node, rows: seq<NetworkInterface>, i: nat) returns (first: nat)
    requires i < |rows| && SkippedUnbound(n, rows, i)
    ensures first <= i && SkippedUnbound(n, rows, first) && forall j :: 0 <= j < first ==> !SkippedUnbound(n, rows, j)
    decreases i
  {
    first := i;
    if j :| 0 <= j < i && SkippedUnbound(n, rows, j) {
      first := FirstSkipped(n, rows, j);
    }
  }

  /** A name is stolen in the cycle exactly when the node before it is at risk. */
  lemma {:induction false} StolenExactly(n: Node, rows: seq<NetworkInterface>)
    requires Ready(n, rows)
    ensures Stolen(n, rows) <==> AtRisk(n, rows)
  {
    hide Ready;
    hide SkippedUnbound;
    hide Exposed;
    hide Bound;
    if i, j :| 0 <= i < j < |rows| && SkippedUnbound(n, rows, i) && !Bound(n.devices, rows[j].mac) {
      var first := FirstSkipped(n, rows, i);
      SkippedExactly(n, rows, first);
    }
    if i, j, k: Slot :| 0 <= i < j < |rows| && Exposed(n, rows, i, k) && !Bound(n.devices, rows[j].mac) {
      if x :| 0 <= x < i && SkippedUnbound(n, rows, x) {
        assert Stolen(n, rows);
      } else {
        SkippedExactly(n, rows, i);
      }
    }
  }

  /**
   Convergence, exactly: when no MAC address owns two of the slots' files, one faultless cycle
   leaves a quiet node if and only if the node before it is not at risk.
   */
  lemma {:induction false} CycleConvergesExactly(n: Node, rows: seq<NetworkInterface>)
    requires Ready(n, rows)
    requires forall r :: r in rows ==> OwnsOneFile(n.files, r.mac)
    ensures Quiet(OneCycle(n, rows), rows) <==> !AtRisk(n, rows)
  {
    hide Quiet;
    hide Ready;
    hide OwnsOneFile;
    hide OneCycle;
    hide Stolen;
    hide AtRisk;
    StolenExactly(n, rows);
    if Stolen(n, rows) {
      StolenIsLeftOver(n, rows);
    } else {
      CycleConverges(n, rows);
    }
  }

  /** Without that condition on files, a node that is not at risk settles, and a further cycle does nothing. */
  lemma {:induction false} SafeCycleConverges(n: Node, rows: seq<NetworkInterface>, table: seq<NetworkInterface>)
    requires Ready(n, rows) && !AtRisk(n, rows) && forall r :: r in table <==> r in rows
    ensures var n1 := OneCycle(n, rows);
            var again := Fetch(table, n1.stored);
            Quiet(n1, rows) && OneCycle(n1, again) == n1 &&
            TallyAfter(n1, again, Faultless(|again|), |again|) == Tally(0, 0) &&
              Orphans(n1.files, {}, ActiveMacs(again)) == {}
  {
    hide Ready;
    hide Stolen;
    hide AtRisk;
    hide Quiet;
    hide OneCycle;
    StolenExactly(n, rows);
    CycleConverges(n, rows);
    SecondCycleDoesNothing(n, rows, table);
  }
}
