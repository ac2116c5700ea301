/** Two Netplan workers at once on one name: a run in which both succeed and neither row has both name and document. */
module NetplanCollision {
  import opened Options
  import opened Entities
  import opened Naming
  import opened Rhel
  import opened Cycle
  import opened Serial
  import opened Listing
  import opened Netplan
  import opened NetplanConvergence
  import opened NetplanTurns
  import opened NetplanStealing
  import opened NetplanLosses
  import opened NetplanPool

  lemma {:induction false} MoveAllAppend(rows: seq<NetworkInterface>, a: Assignment, c: Crew, s: seq<nat>, t: seq<nat>)
    requires |rows| == |a.plans| == |a.listings| == |c.stages|
    ensures MoveAll(rows, a, c, s + t) == MoveAll(rows, a, MoveAll(rows, a, c, s), t)
  {
    hide MoveOne;
    if t == [] {
      assert s + t == s;
    } else {
      assert (s + t)[..|s + t| - 1] == s + t[..|t| - 1];
      MoveAllAppend(rows, a, c, s, t[..|t| - 1]);
    }
  }

  lemma OneMove(rows: seq<NetworkInterface>, a: Assignment, c: Crew, i: nat)
    requires |rows| == |a.plans| == |a.listings| == |c.stages|
    ensures MoveAll(rows, a, c, [i]) == MoveOne(rows, a, c, i)
  {
    hide MoveOne;
    assert [i][..0] == [];
  }

  /** Moving one worker alone takes it to the end it would reach by itself. */
  lemma {:induction false} FinishAlone(rows: seq<NetworkInterface>, a: Assignment, c: Crew,
                                       i: nat) returns (schedule: seq<nat>)
    requires |rows| == |a.plans| == |a.listings| == |c.stages| && i < |rows|
    ensures var (n, o) := Finish(c.node, a.listings[i], rows[i], c.stages[i], a.plans[i]);
            MoveAll(rows, a, c, schedule) == Crew(n, c.stages[i := Ended(o)])
    decreases Left(c.stages[i])
  {
    hide Move;
    hide Finish;
    hide MoveAll;
    if c.stages[i].Ended? {
      schedule := [];
      FinishEnded(c.node, a.listings[i], rows[i], c.stages[i].outcome, a.plans[i]);
      NoMoves(rows, a, c);
      assert c.stages[i := Ended(c.stages[i].outcome)] == c.stages;
    } else {
      FinishMove(c.node, a.listings[i], rows[i], c.stages[i], a.plans[i]);
      MoveAdvances(c.node, a.listings[i], rows[i], c.stages[i], a.plans[i]);
      OneMove(rows, a, c, i);
      var next := MoveOne(rows, a, c, i);
      var rest := FinishAlone(rows, a, next, i);
      MoveAllAppend(rows, a, c, [i], rest);
      schedule := [i] + rest;
    }
  }

  lemma NoMoves(rows: seq<NetworkInterface>, a: Assignment, c: Crew)
    requires |rows| == |a.plans| == |a.listings| == |c.stages|
    ensures MoveAll(rows, a, c, []) == c
  {
  }

  function AtStart(n: NetplanNode, count: nat): Crew {
    Crew(n, seq(count, _ => Starting))
  }

  /** Both workers look for a name before either takes it. */
  lemma {:induction false} BothGiven(n: NetplanNode, rows: seq<NetworkInterface>, a: Assignment, w: nat, l: nat,
                                     k: Slot)
    requires |rows| == |a.plans| == |a.listings| && w < |rows| && l < |rows| && w != l
    requires a.plans[w] == NO_NETPLAN_FAULTS && a.plans[l] == NO_NETPLAN_FAULTS
    requires NameFor(n.devices, rows[w].mac, {}) == Some(k) && NameFor(n.devices, rows[l].mac, {}) == Some(k)
    ensures MoveAll(rows, a, AtStart(n, |rows|), [w, l]) ==
            Crew(n, AtStart(n, |rows|).stages[w := Given(k)][l := Given(k)])
  {
    hide NameFor;
    var c := AtStart(n, |rows|);
    OneMove(rows, a, c, w);
    assert [w, l][..1] == [w];
    assert MoveOne(rows, a, c, w) == Crew(n, c.stages[w := Given(k)]);
  }

  lemma NeedsBoth(files: map<string, Content>, w: NetworkInterface, l: NetworkInterface, k: Slot)
    requires w.mac != l.mac
    ensures !Suits(files[ConfigFile(Name(k)) := Generated(w, k)], l, k)
  {
    hide ConfigFile;
  }

  lemma NeedsMeans(n: NetplanNode, listing: seq<string>, row: NetworkInterface, k: Slot)
    requires Tidy(n.files) && Lists(listing, n.files.Keys)
    ensures NetplanNeedsProcessing(n, listing, row, k, true) <==> !Suits(n.files, row, k) || row.status == Pending
  {
    hide ConfigFile;
    hide Tidy;
    hide Lists;
    hide CheckedFile;
    hide IsDrifted;
    ChecksOwnFile(n.files, listing, k);
  }

  /**
   Of any two rows without a name, the first of which needs processing, there is a run in which both workers are
   given the same name and both end as processed and recorded; the first has the name and no longer its document,
   the second has its document and not the name.
   */
  lemma {:induction false} TwoCrewCollide(n: NetplanNode, rows: seq<NetworkInterface>, a: Assignment, w: nat, l: nat,
                                          k: Slot)
    returns (schedule: seq<nat>)
    requires NetReady(n, rows) && |rows| == |a.plans| == |a.listings| && w < |rows| && l < |rows| && w != l
    requires a.plans[w] == NO_NETPLAN_FAULTS && a.plans[l] == NO_NETPLAN_FAULTS
    requires Lists(a.listings[w], n.files.Keys) && Lists(a.listings[l], n.files.Keys + {ConfigFile(Name(k))})
    requires !Bound(n.devices, rows[w].mac) && !Bound(n.devices, rows[l].mac) && LowestFree(n.devices, 0) == Some(k)
    requires !Suits(n.files, rows[w], k) || rows[w].status == Pending
    ensures var c := MoveAll(rows, a, AtStart(n, |rows|), schedule);
            c.stages[w] == Ended(Processed(k)) && c.stages[l] == Ended(Processed(k)) &&
            Column(c.node.stored, rows[w].id) == 1 && Column(c.node.stored, rows[l].id) == 1 &&
            HasSlot(c.node.devices, rows[w].mac, k) && !HasSlot(c.node.devices, rows[l].mac, k) &&
            c.node.files == n.files[ConfigFile(Name(k)) := Generated(rows[l], k)]
  {
    hide MoveAll;
    hide Finish;
    hide ProcessNetplan;
    hide NetplanNeedsProcessing;
    hide ConfigFile;
    hide Generated;
    hide NetGood;
    hide OneDevice;
    hide Bound;
    hide Tidy;
    hide Lists;
    hide LowestFree;
    hide HasSlot;
    hide Suits;
    hide FreeSlots;
    hide UnboundFrom;
    hide Validate;
    var x, y := rows[w], rows[l];
    assert x in rows && y in rows;
    RowIsGood(x, x);
    RowIsGood(y, y);
    OtherRow(rows, w, l);
    OneNameForTwo(n, x, y, k);
    var m := ProcessNetplan(n, x, k, NO_NETPLAN_FAULTS).0;
    WrittenFile(n, x, k);
    TidyWithSlot(n.files, x, k);
    NeedsMeans(n, a.listings[w], x, k);
    NeedsMeans(m, a.listings[l], y, k);
    MacsApart(n, rows, w, l);
    NeedsBoth(n.files, x, y, k);
    BothGiven(n, rows, a, w, l, k);
    var start := AtStart(n, |rows|);
    var c := MoveAll(rows, a, start, [w, l]);
    var s := FinishAlone(rows, a, c, w);
    FinishGiven(n, a.listings[w], x, k, NO_NETPLAN_FAULTS);
    MoveAllAppend(rows, a, start, [w, l], s);
    var d := MoveAll(rows, a, start, [w, l] + s);
    var t := FinishAlone(rows, a, d, l);
    FinishGiven(m, a.listings[l], y, k, NO_NETPLAN_FAULTS);
    MoveAllAppend(rows, a, start, [w, l] + s, t);
    schedule := [w, l] + s + t;
  }

  lemma WrittenFile(n: NetplanNode, row: NetworkInterface, k: Slot)
    requires ProcessNetplan(n, row, k, NO_NETPLAN_FAULTS).1
    ensures var m := ProcessNetplan(n, row, k, NO_NETPLAN_FAULTS).0;
            m.files == n.files[ConfigFile(Name(k)) := Generated(row, k)] &&
            m.files.Keys == n.files.Keys + {ConfigFile(Name(k))}
  {
    hide ConfigFile;
    hide Generated;
    hide ApplyRename;
  }

  lemma TidyWithSlot(files: map<string, Content>, row: NetworkInterface, k: Slot)
    requires Tidy(files)
    ensures Tidy(files[ConfigFile(Name(k)) := Generated(row, k)])
  {
    hide ConfigFile;
    hide Generated;
    var after := files[ConfigFile(Name(k)) := Generated(row, k)];
    assert after - {ConfigFile(Name(k))} == files - {ConfigFile(Name(k))};
    TidyFrame(files, after, k);
  }
}
