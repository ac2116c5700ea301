/**
 Serialised cycles from any ready node, as after a reboot: a cycle that does not come to rest gives
 some device its name, so more cycles than there are devices without one do.
 */
module Resting {
  import opened Options
  import opened Text
  import opened Entities
  import opened IpLink
  import opened Naming
  import opened Ifcfg
  import opened Rhel
  import opened Cleanup
  import opened Cycle
  import opened Convergence
  import opened Recovery

  // ---- the pass --------------------------------------------------------------------

  /** A turn names its own row or leaves the table alone, and unnames nobody. */
  lemma TurnNames(n: Node, rows: seq<NetworkInterface>, i: nat)
    requires Ready(n, rows) && i < |rows|
    ensures var a, b := Reached(n, rows, i).devices, Reached(n, rows, i + 1).devices;
            (forall j :: 0 <= j < |rows| && Bound(a, rows[j].mac) ==> Bound(b, rows[j].mac)) &&
            (|UnboundFrom(a, rows, 0)| <= |FreeSlots(a)| ==> |UnboundFrom(b, rows, 0)| <= |FreeSlots(b)|)
  {
    hide WorkerSpec;
    hide GoodRow;
    hide Bound;
    hide FreeSlots;
    hide Coherent;
    hide OneDevice;
    hide Current;
    hide Skips;
    hide Carries;
    hide UnboundFrom;
    hide SameMac;
    var m, m1 := Reached(n, rows, i), Reached(n, rows, i + 1);
    assert rows[i] in rows;
    ProgressAt(n, rows, i);
    ReachedStep(n, rows, i);
    NameAvailable(n, m, rows, i);
    WorkerSettles(m, rows[i]);
    WorkerFrame(m, rows[i], NO_FAULTS);
    var (next, o) := WorkerSpec(m, rows[i], NO_FAULTS);
    forall j | 0 <= j < |rows| && j != i
      ensures Bound(m.devices, rows[j].mac) <==> Bound(m1.devices, rows[j].mac)
    {
      DistinctAt(n, rows, j, i);
      if m1 != m { BoundFrame(m.devices, m1.devices, rows[j].mac, rows[i].mac, o.slot); }
    }
    if !Bound(m.devices, rows[i].mac) && o.Processed? {
      UnboundName(m.devices, rows[i].mac);
      OneFewer(m.devices, m1.devices, rows, i, o.slot);
    }
  }

  lemma OneFewer(a: seq<Device>, b: seq<Device>, rows: seq<NetworkInterface>, i: nat, k: Slot)
    requires i < |rows| && !Bound(a, rows[i].mac) && Bound(b, rows[i].mac) && LowestFree(a, 0) == Some(k)
    requires forall j :: 0 <= j < |rows| && j != i ==> (Bound(a, rows[j].mac) <==> Bound(b, rows[j].mac))
    requires FreeSlots(b) == FreeSlots(a) - {k}
    ensures |UnboundFrom(a, rows, 0)| <= |FreeSlots(a)| ==> |UnboundFrom(b, rows, 0)| <= |FreeSlots(b)|
  {
    hide Bound;
    assert UnboundFrom(b, rows, 0) == UnboundFrom(a, rows, 0) - {i};
    assert k in FreeSlots(a);
  }

  lemma {:induction false} PassNames(n: Node, rows: seq<NetworkInterface>, i: nat, t: nat)
    requires Ready(n, rows) && i <= t <= |rows|
    ensures var a, b := Reached(n, rows, i).devices, Reached(n, rows, t).devices;
            forall j :: 0 <= j < |rows| && Bound(a, rows[j].mac) ==> Bound(b, rows[j].mac)
  {
    hide Ready;
    hide Reached;
    hide Bound;
    if t > i {
      PassNames(n, rows, i, t - 1);
      TurnNames(n, rows, t - 1);
    }
  }

  lemma {:induction false} SlotsAt(n: Node, rows: seq<NetworkInterface>, i: nat)
    requires Ready(n, rows) && i <= |rows|
    ensures |UnboundFrom(Reached(n, rows, i).devices, rows, 0)| <= |FreeSlots(Reached(n, rows, i).devices)|
  {
    hide Ready;
    hide Reached;
    hide FreeSlots;
    hide UnboundFrom;
    if i > 0 {
      SlotsAt(n, rows, i - 1);
      TurnNames(n, rows, i - 1);
    } else {
      SlotsAtStart(n, rows);
    }
  }

  lemma {:induction false} SlotsAtStart(n: Node, rows: seq<NetworkInterface>)
    requires Ready(n, rows)
    ensures |UnboundFrom(Reached(n, rows, 0).devices, rows, 0)| <= |FreeSlots(Reached(n, rows, 0).devices)|
  {
    hide FreeSlots;
    hide UnboundFrom;
    StartReached(n, rows);
  }

  // ---- a cycle that steals gives a name -------------------------------------------------

  lemma NextIsNamed(n: Node, rows: seq<NetworkInterface>, i: nat, j: nat, k: Slot)
    requires Ready(n, rows) && i < j < |rows| && !Bound(n.devices, rows[j].mac)
    requires LowestFree(Reached(n, rows, j).devices, 0) == Some(k) &&
             OwnsFile(Reached(n, rows, j).files, k, rows[i].mac)
    ensures Bound(Reached(n, rows, j + 1).devices, rows[j].mac)
  {
    hide ProcessSpec;
    hide IfcfgText;
    hide Bound;
    hide OneDevice;
    hide FreeSlots;
    hide UnboundFrom;
    hide Coherent;
    hide GoodRow;
    var m := Reached(n, rows, j);
    ProgressAt(n, rows, j);
    ReachedStep(n, rows, j);
    assert rows[j] in rows;
    DistinctAt(n, rows, i, j);
    UnboundName(m.devices, rows[j].mac);
    WorkerSettles(m, rows[j]);
    assert Drifted(rows[j], m.files[FileName(k)]);
  }

  lemma {:induction false} StealingNames(n: Node, rows: seq<NetworkInterface>)
    requires Ready(n, rows) && Stolen(n, rows)
    ensures exists j :: 0 <= j < |rows| &&
                        !Bound(n.devices, rows[j].mac) && Bound(Reached(n, rows, |rows|).devices, rows[j].mac)
  {
    hide WorkerSpec;
    hide GoodRow;
    hide OwnsFile;
    hide Bound;
    hide OneDevice;
    hide Ready;
    hide Reached;
    var i, other :| 0 <= i < other < |rows| && SkippedUnbound(n, rows, i) && !Bound(n.devices, rows[other].mac);
    var j := FirstUnboundAfter(n, rows, i, other);
    var k := SkippedUnder(n, rows, i);
    FreeHere(Reached(n, rows, i + 1).devices, k);
    BoundRowsKeepFreeSlot(n, rows, i + 1, j, k);
    OwnedFileIsThere(Reached(n, rows, i).files, k, rows[i].mac);
    SameOwner(Reached(n, rows, i).files, Reached(n, rows, j).files, k, rows[i].mac);
    NextIsNamed(n, rows, i, j, k);
    PassNames(n, rows, j + 1, |rows|);
  }

  lemma FreeHere(devices: seq<Device>, k: Slot)
    requires LowestFree(devices, 0) == Some(k)
    ensures !InUse(devices, Name(k))
  {
  }

  lemma OwnedFileIsThere(files: map<string, string>, k: Slot, mac: string)
    requires OwnsFile(files, k, mac)
    ensures FileName(k) in files
  {
  }

  // ---- cycle after cycle --------------------------------------------------------------------

  /** The node after `count` faultless serialised cycles over the table's rows, fetched again each time. */
  ghost function Cycles(n: Node, table: seq<NetworkInterface>, count: nat): Node {
    if count == 0 then n
    else
      var m := Cycles(n, table, count - 1);
      OneCycle(m, Fetch(table, m.stored))
  }

  /** Fetching the rows again is all that such a node needs to be ready. */
  lemma {:induction false} FetchedReady(m: Node, rows: seq<NetworkInterface>)
    requires UniqueNames(m.devices) && DistinctRows(rows) && Coherent(m.files)
    requires forall r :: r in rows ==> GoodRow(r) && OneDevice(m.devices, r.mac) && r.id in m.stored
    requires |UnboundFrom(m.devices, rows, 0)| <= |FreeSlots(m.devices)|
    ensures Ready(m, Fetch(rows, m.stored))
  {
    hide GoodRow;
    hide OneDevice;
    hide Bound;
    hide FreeSlots;
    hide Coherent;
    var again := Fetch(rows, m.stored);
    assert forall i :: 0 <= i < |rows| ==> rows[i] in rows && again[i].mac == rows[i].mac && again[i].id == rows[i].id;
    assert UnboundFrom(m.devices, again, 0) == UnboundFrom(m.devices, rows, 0);
    forall r | r in again
      ensures GoodRow(r) && OneDevice(m.devices, r.mac) && r.id in m.stored && r == Current(r, m.stored)
    {
      var i :| 0 <= i < |again| && again[i] == r;
      GoodWithStatus(rows[i], r);
    }
  }

  /** A ready node is ready for the next cycle when one is over. */
  lemma {:induction false} CycleKeepsReady(n: Node, rows: seq<NetworkInterface>)
    requires Ready(n, rows)
    ensures var m := OneCycle(n, rows); Ready(m, Fetch(rows, m.stored))
  {
    hide GoodRow;
    hide OneDevice;
    hide OneCycle;
    hide FreeSlots;
    hide UnboundFrom;
    hide Coherent;
    hide Current;
    hide Orphans;
    hide Reached;
    var end := Reached(n, rows, |rows|);
    ProgressAt(n, rows, |rows|);
    SlotsAt(n, rows, |rows|);
    CycleEndsReached(n, rows);
    FewerCoherent(end.files, Orphans(end.files, {}, ActiveMacs(rows)));
    FetchedReady(OneCycle(n, rows), rows);
  }

  lemma CycleEndsReached(n: Node, rows: seq<NetworkInterface>)
    ensures var end := Reached(n, rows, |rows|);
            OneCycle(n, rows) == end.(files := end.files - Orphans(end.files, {}, ActiveMacs(rows)))
  {
    hide WorkerSpec;
    hide Orphans;
    var end := Reached(n, rows, |rows|);
    assert Orphans(end.files, {}, ActiveMacs(rows)) - {} == Orphans(end.files, {}, ActiveMacs(rows));
  }

  lemma FewerCoherent(files: map<string, string>, gone: set<string>)
    requires Coherent(files)
    ensures Coherent(files - gone)
  {
    hide CoherentText;
    forall k: Slot | FileName(k) in files - gone
      ensures CoherentText((files - gone)[FileName(k)])
    {
      assert FileName(k) in files;
    }
  }

  /** One cycle: it ends quiet, or fewer devices are without a name. */
  lemma {:induction false} CycleRestsOrNames(n: Node, rows: seq<NetworkInterface>)
    requires Ready(n, rows)
    ensures Quiet(OneCycle(n, rows), rows) || Nameless(OneCycle(n, rows).devices, rows) < Nameless(n.devices, rows)
  {
    hide Ready;
    hide Quiet;
    hide Bound;
    hide Stolen;
    hide Reached;
    hide Nameless;
    hide Orphans;
    if Stolen(n, rows) {
      PassNames(n, rows, 0, |rows|);
      StartReached(n, rows);
      StealingNames(n, rows);
      CycleEndsReached(n, rows);
      FewerNameless(n.devices, OneCycle(n, rows).devices, rows);
    } else {
      CycleConverges(n, rows);
    }
  }

  lemma StartReached(n: Node, rows: seq<NetworkInterface>)
    ensures Reached(n, rows, 0) == n
  {
  }

  lemma QuietForStatus(n: Node, a: seq<NetworkInterface>, b: seq<NetworkInterface>)
    requires |a| == |b| && forall i :: 0 <= i < |a| ==> b[i] == a[i].(status := b[i].status)
    requires Quiet(n, a)
    ensures Quiet(n, b)
  {
    hide WorkerSpec;
    hide Orphan;
    assert ActiveMacs(a) == ActiveMacs(b) by {
      forall r | r in a
        ensures Lower(r.mac) in ActiveMacs(b)
      {
        var i :| 0 <= i < |a| && a[i] == r;
        assert b[i] in b && b[i].mac == r.mac;
      }
      forall r | r in b
        ensures Lower(r.mac) in ActiveMacs(a)
      {
        var i :| 0 <= i < |b| && b[i] == r;
        assert a[i] in a && a[i].mac == r.mac;
      }
    }
    forall r | r in b
      ensures Skips(n, r)
    {
      var i :| 0 <= i < |b| && b[i] == r;
      assert a[i] in a && Current(a[i], n.stored) == Current(r, n.stored);
    }
  }

  lemma FetchTwice(table: seq<NetworkInterface>, a: map<int, int>, b: map<int, int>)
    ensures Fetch(Fetch(table, a), b) == Fetch(table, b)
  {
  }

  lemma {:induction false} CyclesProgress(n: Node, table: seq<NetworkInterface>, count: nat)
    requires Ready(n, Fetch(table, n.stored))
    ensures var m := Cycles(n, table, count);
            Ready(m, Fetch(table, m.stored)) &&
            ((count > 0 &&
              Quiet(m, Fetch(table, m.stored))) || Nameless(m.devices, table) + count <= Nameless(n.devices, table))
  {
    hide Ready;
    hide Quiet;
    hide Nameless;
    hide OneCycle;
    if count > 0 {
      CyclesProgress(n, table, count - 1);
      var m, m1 := Cycles(n, table, count - 1), Cycles(n, table, count);
      var rows, again := Fetch(table, m.stored), Fetch(table, m1.stored);
      CycleKeepsReady(m, rows);
      FetchTwice(table, m.stored, m1.stored);
      CycleRestsOrNames(m, rows);
      SameMacsNameless(m.devices, rows, table);
      SameMacsNameless(m1.devices, rows, table);
      if Quiet(m1, rows) { QuietForStatus(m1, rows, again); }
      if Quiet(m, rows) {
        StaysQuiet(m, table);
      }
    }
  }

  lemma StaysQuiet(m: Node, table: seq<NetworkInterface>)
    requires Quiet(m, Fetch(table, m.stored))
    ensures OneCycle(m, Fetch(table, m.stored)) == m
  {
    hide Quiet;
    hide OneCycle;
    var rows := Fetch(table, m.stored);
    QuietCycle(m, rows, rows);
    FetchTwice(table, m.stored, m.stored);
  }

  /**
   Rest after a reboot: from any ready node, at risk or not, one more faultless serialised cycle than there are
   devices without a name leaves nothing to do.
   */
  lemma {:induction false} CyclesComeToRest(n: Node, table: seq<NetworkInterface>, count: nat)
    requires Ready(n, Fetch(table, n.stored)) && count > Nameless(n.devices, table)
    ensures var m := Cycles(n, table, count); Quiet(m, Fetch(table, m.stored))
  {
    hide Ready;
    hide Quiet;
    hide Nameless;
    CyclesProgress(n, table, count);
  }

  /**
   So a reboot after any run with faults is survived: whatever names it gives back to the devices, as long as they
   are distinct and enough of the ten are free, that many serialised cycles bring rest.
   */
  lemma {:induction false} RebootThenRest(n: Node, table: seq<NetworkInterface>, history: seq<Round>,
                                          devices: seq<Device>, count: nat)
    requires Sound(n, table) && ValidHistory(history, table)
    requires UniqueNames(devices) && (forall r :: r in table ==> OneDevice(devices, r.mac))
    requires |UnboundFrom(devices, table, 0)| <= |FreeSlots(devices)| && count > Nameless(devices, table)
    ensures var m := Cycles(AfterHistory(n, table, history).(devices := devices), table, count);
            Quiet(m, Fetch(table, m.stored))
  {
    hide Sound;
    hide Ready;
    hide Quiet;
    hide Nameless;
    hide AfterHistory;
    hide Cycles;
    hide FreeSlots;
    hide UnboundFrom;
    hide OneDevice;
    HistoryKeepsSound(n, table, history);
    var m := AfterHistory(n, table, history);
    RebootedIsReady(m, table, devices);
    CyclesComeToRest(m.(devices := devices), table, count);
  }

  lemma {:induction false} RebootedIsReady(m: Node, table: seq<NetworkInterface>, devices: seq<Device>)
    requires Sound(m, table) && UniqueNames(devices) && (forall r :: r in table ==> OneDevice(devices, r.mac))
    requires |UnboundFrom(devices, table, 0)| <= |FreeSlots(devices)|
    ensures Ready(m.(devices := devices), Fetch(table, m.stored))
  {
    hide GoodRow;
    hide OneDevice;
    hide FreeSlots;
    hide UnboundFrom;
    hide Coherent;
    FetchedReady(m.(devices := devices), table);
  }
}
