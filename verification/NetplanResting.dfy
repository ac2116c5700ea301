/**
 Serialised Netplan cycles from any ready node: a cycle that does not come to rest gives some device
 its name, so more cycles than there are devices without one do.
 */
module NetplanResting {
  import opened Options
  import opened Text
  import opened Entities
  import opened Naming
  import opened Cleanup
  import opened Cycle
  import opened Recovery
  import opened Listing
  import opened Netplan
  import opened NetplanCleanup
  import opened NetplanConvergence
  import opened NetplanTurns
  import opened NetplanStealing

  // ---- the pass ------------------------------------------------------------------------

  /** A turn unnames nobody. */
  lemma TurnUnnamesNobody(m: NetplanNode, rows: seq<NetworkInterface>, x: nat, j: nat)
    requires NetBase(m, rows) && x < |rows| && j < |rows| && Bound(m.devices, rows[j].mac)
    ensures Bound(Turn(m, rows[x]).0.devices, rows[j].mac)
  {
    hide Turn;
    hide NetBase;
    hide Bound;
    hide Suits;
    hide NameFor;
    if j != x {
      TurnFrame(m, rows, x, j);
    } else {
      var k := TurnEffect(m, rows, x);
    }
  }

  lemma {:induction false} TurnsUnnameNobody(n: NetplanNode, rows: seq<NetworkInterface>, i: nat, t: nat, j: nat)
    requires NetReady(n, rows) && i <= t <= |rows| && j < |rows| && Bound(Turns(n, rows, i).devices, rows[j].mac)
    ensures Bound(Turns(n, rows, t).devices, rows[j].mac)
  {
    hide Turn;
    hide NetBase;
    hide Bound;
    if t > i {
      TurnsUnnameNobody(n, rows, i, t - 1, j);
      TurnsProgress(n, rows, t - 1);
      TurnUnnamesNobody(Turns(n, rows, t - 1), rows, t - 1, j);
    }
  }

  // ---- a cycle that steals gives a name ---------------------------------------------------

  lemma NextGetsName(n: NetplanNode, rows: seq<NetworkInterface>, i: nat, j: nat, k: Slot)
    requires NetReady(n, rows) && i < j < |rows| && !Bound(n.devices, rows[j].mac)
    requires LowestFree(Turns(n, rows, j).devices, 0) == Some(k) && NetOwns(Turns(n, rows, j).files, k, rows[i].mac)
    ensures Bound(Turns(n, rows, j + 1).devices, rows[j].mac)
  {
    hide Turn;
    hide NetBase;
    hide Bound;
    hide NameFor;
    hide LowestFree;
    var m := Turns(n, rows, j);
    TurnsProgress(n, rows, j);
    var s := TurnEffect(m, rows, j);
    MacsApart(m, rows, j, i);
    OwnedDoesNotSuit(m.files, rows[j], k, rows[i].mac);
  }

  lemma {:induction false} NetStealingNames(n: NetplanNode, rows: seq<NetworkInterface>)
    requires NetReady(n, rows) && NetStolen(n, rows)
    ensures exists j :: 0 <= j < |rows| &&
                        !Bound(n.devices, rows[j].mac) && Bound(CycleEnd(n, rows).devices, rows[j].mac)
  {
    hide NetReady;
    hide SkippedNameless;
    hide Turns;
    hide NetOwns;
    hide Bound;
    hide NetplanOrphans;
    var i, other :| 0 <= i < other < |rows| && SkippedNameless(n, rows, i) && !Bound(n.devices, rows[other].mac);
    var j := FirstNamelessAfter(n, rows, i, other);
    var k := NetSkippedUnder(n, rows, i);
    FreeIsUnused(Turns(n, rows, i + 1).devices, k);
    NamedTurnsKeepFree(n, rows, i + 1, j, k, rows[i].mac);
    NextGetsName(n, rows, i, j, k);
    TurnsUnnameNobody(n, rows, j + 1, |rows|, j);
  }

  /** One cycle: it ends quiet, or fewer devices are without a name. */
  lemma {:induction false} NetCycleRestsOrNames(n: NetplanNode, rows: seq<NetworkInterface>)
    requires NetReady(n, rows)
    ensures NetQuiet(CycleEnd(n, rows), rows) || Nameless(CycleEnd(n, rows).devices, rows) < Nameless(n.devices, rows)
  {
    hide NetReady;
    hide NetQuiet;
    hide Bound;
    hide NetStolen;
    hide Turns;
    hide Nameless;
    hide NetplanOrphans;
    if NetStolen(n, rows) {
      StartIsTurns(n, rows);
      forall j | 0 <= j < |rows| && Bound(n.devices, rows[j].mac)
        ensures Bound(CycleEnd(n, rows).devices, rows[j].mac)
      {
        TurnsUnnameNobody(n, rows, 0, |rows|, j);
      }
      NetStealingNames(n, rows);
      FewerNameless(n.devices, CycleEnd(n, rows).devices, rows);
    } else {
      SafeTurnsConverge(n, rows);
    }
  }

  // ---- cycle after cycle ----------------------------------------------------------------------

  /** The static columns of the rows are all that a ready node needs: fetching gives the rest. */
  lemma FetchedReady(n: NetplanNode, rows: seq<NetworkInterface>)
    requires NetBase(n, rows)
    ensures NetReady(n, Fetch(rows, n.stored))
  {
    hide OneDevice;
    hide Bound;
    hide Tidy;
    hide FreeSlots;
    hide NetGood;
    var again := Fetch(rows, n.stored);
    assert forall i :: 0 <= i < |rows| ==> rows[i] in rows && again[i].mac == rows[i].mac && again[i].id == rows[i].id;
    assert UnboundFrom(n.devices, again, 0) == UnboundFrom(n.devices, rows, 0);
    forall r | r in again
      ensures NetGood(r) && OneDevice(n.devices, r.mac) && r.id in n.stored && r == Current(r, n.stored)
    {
      var i :| 0 <= i < |again| && again[i] == r;
      StillGood(rows[i], r);
    }
  }

  lemma StillGood(a: NetworkInterface, b: NetworkInterface)
    requires NetGood(a) && b == a.(status := b.status)
    ensures NetGood(b)
  {
    if ip, n: nat :| IsCidrOf(a, ip, n) {
      assert IsCidrOf(b, ip, n);
    }
  }

  lemma CycleKeepsBase(n: NetplanNode, rows: seq<NetworkInterface>)
    requires NetReady(n, rows)
    ensures NetBase(CycleEnd(n, rows), rows)
  {
    hide NetBase;
    hide Turns;
    hide NetplanOrphans;
    TurnsProgress(n, rows, |rows|);
    var m := Turns(n, rows, |rows|);
    FewerBase(m, rows, NetplanOrphans(m.files, {}, ActiveMacs(rows)));
  }

  /** The node after `count` faultless serialised cycles over the table's rows, fetched again each time. */
  ghost function NetCycles(n: NetplanNode, table: seq<NetworkInterface>, count: nat): NetplanNode {
    if count == 0 then n
    else
      var m := NetCycles(n, table, count - 1);
      CycleEnd(m, Fetch(table, m.stored))
  }

  lemma RestForStatus(n: NetplanNode, a: seq<NetworkInterface>, b: seq<NetworkInterface>)
    requires |a| == |b| && forall i :: 0 <= i < |a| ==> b[i] == a[i].(status := b[i].status)
    requires NetQuiet(n, a)
    ensures NetQuiet(n, b)
  {
    hide NetplanWorker;
    hide NetplanOrphan;
    hide Lists;
    assert ActiveMacs(a) == ActiveMacs(b) by {
      forall r | r in a
        ensures Lower(r.mac) in ActiveMacs(b)
      {
        var i :| 0 <= i < |a| && a[i] == r;
        assert b[i] in b && b[i].mac == r.mac;
      }
      forall r | r in b
        ensures Lower(r.mac) in ActiveMacs(a)
      {
        var i :| 0 <= i < |b| && b[i] == r;
        assert a[i] in a && a[i].mac == r.mac;
      }
    }
    forall r, listing | r in b && Lists(listing, n.files.Keys)
      ensures NetplanWorker(n, listing, Current(r, n.stored), NO_NETPLAN_FAULTS).1.Skipped?
    {
      var i :| 0 <= i < |b| && b[i] == r;
      assert a[i] in a && Current(a[i], n.stored) == Current(r, n.stored);
    }
  }

  lemma {:induction false} RestingTurns(n: NetplanNode, rows: seq<NetworkInterface>, i: nat)
    requires NetReady(n, rows) && i <= |rows| && forall r :: r in rows ==> Rests(n, r)
    ensures Turns(n, rows, i) == n
  {
    hide NetBase;
    hide NameFor;
    hide Suits;
    if i > 0 {
      RestingTurns(n, rows, i - 1);
      assert rows[i - 1] in rows && Rests(n, rows[i - 1]);
    }
  }

  /** A cycle over a quiet node changes nothing. */
  lemma QuietCycleEnd(n: NetplanNode, rows: seq<NetworkInterface>)
    requires NetReady(n, rows) && NetQuiet(n, rows)
    ensures CycleEnd(n, rows) == n
  {
    hide NetQuiet;
    hide Rests;
    hide Turns;
    hide NetplanOrphans;
    hide Tidy;
    QuietMeansRest(n, rows);
    RestingTurns(n, rows, |rows|);
    assert n.files - {} == n.files;
  }

  lemma {:induction false} NetCyclesProgress(n: NetplanNode, table: seq<NetworkInterface>, count: nat)
    requires NetBase(n, table)
    ensures var m := NetCycles(n, table, count);
            NetBase(m, table) &&
            ((count > 0 && NetQuiet(m, Fetch(table, m.stored))) ||
             Nameless(m.devices, table) + count <= Nameless(n.devices, table))
  {
    hide NetBase;
    hide NetReady;
    hide NetQuiet;
    hide Nameless;
    hide CycleEnd;
    if count > 0 {
      NetCyclesProgress(n, table, count - 1);
      var m, m1 := NetCycles(n, table, count - 1), NetCycles(n, table, count);
      var rows, again := Fetch(table, m.stored), Fetch(table, m1.stored);
      FetchedReady(m, table);
      CycleKeepsBase(m, rows);
      BaseForStatus(m1, rows, table);
      NetCycleRestsOrNames(m, rows);
      SameMacsNameless(m.devices, rows, table);
      SameMacsNameless(m1.devices, rows, table);
      if NetQuiet(m1, rows) { RestForStatus(m1, rows, again); }
      if NetQuiet(m, rows) { QuietCycleEnd(m, rows); }
    }
  }

  lemma BaseForStatus(n: NetplanNode, a: seq<NetworkInterface>, b: seq<NetworkInterface>)
    requires |a| == |b| && forall i :: 0 <= i < |a| ==> b[i] == a[i].(status := b[i].status)
    requires NetBase(n, a)
    ensures NetBase(n, b)
  {
    hide OneDevice;
    hide Bound;
    hide Tidy;
    hide FreeSlots;
    hide NetGood;
    assert forall i :: 0 <= i < |a| ==> a[i] in a && b[i].mac == a[i].mac && b[i].id == a[i].id;
    assert UnboundFrom(n.devices, b, 0) == UnboundFrom(n.devices, a, 0);
    forall r | r in b
      ensures NetGood(r) && OneDevice(n.devices, r.mac) && r.id in n.stored
    {
      var i :| 0 <= i < |b| && b[i] == r;
      StillGood(a[i], r);
    }
  }

  /**
   Rest on the Netplan path: whichever rows are configured without their devices having names, one more faultless
   serialised cycle than there are devices without a name leaves nothing to do.
   */
  lemma {:induction false} NetCyclesComeToRest(n: NetplanNode, table: seq<NetworkInterface>, count: nat)
    requires NetBase(n, table) && count > Nameless(n.devices, table)
    ensures var m := NetCycles(n, table, count); NetQuiet(m, Fetch(table, m.stored))
  {
    hide NetBase;
    hide NetQuiet;
    hide Nameless;
    NetCyclesProgress(n, table, count);
  }
}
