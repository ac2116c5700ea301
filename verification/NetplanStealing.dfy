/** Which nodes a faultless Netplan cycle does not settle, told from the node before the cycle. */
module NetplanStealing {
  import opened Options
  import opened Entities
  import opened IpLink
  import opened Naming
  import opened Cleanup
  import opened Cycle
  import opened Stealing
  import opened Netplan
  import opened NetplanCleanup
  import opened NetplanConvergence
  import opened NetplanTurns

  /**
   Row `i` is configured, its device has no name, and under the free name that the row's place among
   such rows leads to lies a file that suits it.
   */
  predicate NetExposed(n: NetplanNode, rows: seq<NetworkInterface>, i: nat, k: Slot) {
    i < |rows| && !Bound(n.devices, rows[i].mac) && rows[i].status == Configured &&
    !InUse(n.devices, Name(k)) && FreeBelow(n.devices, k) == UnnamedBefore(n.devices, rows, i) &&
    Suits(n.files, rows[i], k)
  }

  /** A row is exposed, and a later row's device has no name either. */
  ghost predicate NetAtRisk(n: NetplanNode, rows: seq<NetworkInterface>) {
    exists i, j, k: Slot :: 0 <= i < j < |rows| && NetExposed(n, rows, i, k) && !Bound(n.devices, rows[j].mac)
  }

  /** At its turn, row `i` is skipped although its device has no name. */
  predicate SkippedNameless(n: NetplanNode, rows: seq<NetworkInterface>, i: nat)
    requires i < |rows|
  {
    Turn(Turns(n, rows, i), rows[i]).1.Skipped? && !Bound(Turns(n, rows, i).devices, rows[i].mac)
  }

  /** Some row is skipped that way while a later row still needs a name, and is then given the same one. */
  ghost predicate NetStolen(n: NetplanNode, rows: seq<NetworkInterface>) {
    exists i, j :: 0 <= i < j < |rows| && SkippedNameless(n, rows, i) && !Bound(n.devices, rows[j].mac)
  }

  // ---- without it, every row rests afterwards ----------------------------------------

  /** A row rests after its own turn. */
  lemma TurnRests(m: NetplanNode, rows: seq<NetworkInterface>, x: nat)
    requires NetBase(m, rows) && x < |rows| && rows[x] == Current(rows[x], m.stored)
    ensures var (m1, o) := Turn(m, rows[x]);
            Rests(m1, rows[x]) && (Bound(m1.devices, rows[x].mac) || (o.Skipped? && !Bound(m.devices, rows[x].mac)))
  {
    hide Turn;
    hide NetBase;
    hide Suits;
    hide NameFor;
    hide Bound;
    var k := TurnEffect(m, rows, x);
  }

  lemma OtherName(m: NetplanNode, rows: seq<NetworkInterface>, x: nat, j: nat, k: Slot, s: Slot)
    requires NetBase(m, rows) && x < |rows| && j < |rows| && x != j
    requires NameFor(m.devices, rows[x].mac, {}) == Some(k) && NameFor(m.devices, rows[j].mac, {}) == Some(s)
    requires Bound(m.devices, rows[j].mac) || Bound(m.devices, rows[x].mac)
    ensures s != k
  {
    hide NetGood;
    hide Tidy;
    hide OneDevice;
    hide FreeSlots;
    hide UnboundFrom;
    hide Bound;
    OtherRow(rows, x, j);
    if Bound(m.devices, rows[j].mac) {
      BoundIsCarried(m.devices, rows[j].mac);
      NetSlotsDiffer(m.devices, rows[j].mac, rows[x].mac, {}, s);
    } else {
      BoundIsCarried(m.devices, rows[x].mac);
      NetSlotsDiffer(m.devices, rows[x].mac, rows[j].mac, {}, k);
    }
  }

  /** A resting row keeps resting through another's turn, unless both are without a name. */
  lemma RestSurvives(m: NetplanNode, rows: seq<NetworkInterface>, x: nat, j: nat)
    requires NetBase(m, rows) && x < |rows| && j < |rows| && x != j && Rests(m, rows[j])
    requires Bound(m.devices, rows[j].mac) || Bound(m.devices, rows[x].mac)
    ensures var m1 := Turn(m, rows[x]).0;
            Rests(m1, rows[j]) && (Bound(m1.devices, rows[j].mac) <==> Bound(m.devices, rows[j].mac))
  {
    hide Turn;
    hide NetBase;
    hide Bound;
    hide IsDrifted;
    hide ConfigFile;
    hide LowestCarrying;
    hide LowestFree;
    var m1 := Turn(m, rows[x]).0;
    var k := TurnEffect(m, rows, x);
    var s := NameFor(m.devices, rows[j].mac, {}).value;
    OtherName(m, rows, x, j, k, s);
    TurnFrame(m, rows, x, j);
    ConfigFileInjective(s, k);
    if Bound(m.devices, rows[j].mac) { BoundIsCarried(m.devices, rows[j].mac); }
  }

  lemma {:induction false} NetRowsRest(n: NetplanNode, rows: seq<NetworkInterface>, i: nat)
    requires NetReady(n, rows) && !NetStolen(n, rows) && i <= |rows|
    ensures forall j :: 0 <= j < i ==> Rests(Turns(n, rows, i), rows[j])
    ensures forall j :: 0 <= j < i ==> Bound(Turns(n, rows, i).devices, rows[j].mac) || SkippedNameless(n, rows, j)
  {
    hide Turn;
    hide Rests;
    hide NetBase;
    hide Bound;
    if i > 0 {
      NetRowsRest(n, rows, i - 1);
      TurnsProgress(n, rows, i - 1);
      var m, x := Turns(n, rows, i - 1), i - 1;
      TurnRests(m, rows, x);
      forall j | 0 <= j < x
        ensures Rests(Turns(n, rows, i), rows[j])
        ensures Bound(Turns(n, rows, i).devices, rows[j].mac) || SkippedNameless(n, rows, j)
      {
        RestSurvives(m, rows, x, j);
      }
    }
  }

  /** When no name is stolen, the faultless cycle leaves a quiet node. */
  lemma SafeTurnsConverge(n: NetplanNode, rows: seq<NetworkInterface>)
    requires NetReady(n, rows) && !NetStolen(n, rows)
    ensures NetQuiet(CycleEnd(n, rows), rows)
  {
    hide Rests;
    hide Turns;
    hide NetStolen;
    hide Tidy;
    hide NetplanOrphan;
    hide NetQuiet;
    NetRowsRest(n, rows, |rows|);
    TurnsProgress(n, rows, |rows|);
    var m, end := Turns(n, rows, |rows|), CycleEnd(n, rows);
    forall r | r in rows
      ensures Rests(end, r)
    {
      var j :| 0 <= j < |rows| && rows[j] == r;
      GoodHasMac(r);
      RestSurvivesCleanup(m, rows, r);
    }
    FewerTidy(m.files, NetplanOrphans(m.files, {}, ActiveMacs(rows)));
    NothingLeft(m.files, ActiveMacs(rows));
    QuietMeansRest(end, rows);
  }

  lemma GoodHasMac(row: NetworkInterface)
    requires NetGood(row)
    ensures row.mac != ""
  {
  }

  // ---- with it, a row is left over ---------------------------------------------------------

  /** The slot's file is read as belonging to the MAC address. */
  predicate NetOwns(files: map<string, Content>, k: Slot, mac: string) {
    ConfigFile(Name(k)) in files && HasMac(files[ConfigFile(Name(k))], mac)
  }

  predicate HasMac(content: Content, mac: string) {
    !content.Unparsable? && DocumentConfig(content.ethernets).mac == mac
  }

  predicate NetOwnsOne(files: map<string, Content>, mac: string) {
    forall a: Slot, b: Slot :: NetOwns(files, a, mac) && NetOwns(files, b, mac) ==> a == b
  }

  predicate NetOwnsNone(files: map<string, Content>, mac: string) {
    forall a: Slot :: !NetOwns(files, a, mac)
  }

  lemma SuitsIsOwned(files: map<string, Content>, row: NetworkInterface, k: Slot)
    requires Suits(files, row, k)
    ensures NetOwns(files, k, row.mac)
  {
    hide ConfigFile;
  }

  lemma GeneratedMac(row: NetworkInterface, k: Slot, mac: string)
    ensures HasMac(Generated(row, k), mac) <==> row.mac == mac
  {
  }

  /** A turn gives another row's MAC address no file it did not have. */
  lemma TurnGivesNothing(m: NetplanNode, rows: seq<NetworkInterface>, x: nat, j: nat)
    requires NetBase(m, rows) && x < |rows| && j < |rows| && x != j
    ensures var m1 := Turn(m, rows[x]).0;
            (forall a: Slot :: NetOwns(m1.files, a, rows[j].mac) ==> NetOwns(m.files, a, rows[j].mac)) &&
            (Turn(m, rows[x]).1.Processed? ==> !NetOwns(m1.files, Turn(m, rows[x]).1.slot, rows[j].mac)) &&
            (Bound(m1.devices, rows[j].mac) <==> Bound(m.devices, rows[j].mac))
  {
    hide Turn;
    hide NetBase;
    hide Bound;
    hide HasMac;
    hide Suits;
    hide ConfigFile;
    hide Generated;
    hide NameFor;
    var m1 := Turn(m, rows[x]).0;
    var k := TurnEffect(m, rows, x);
    TurnFrame(m, rows, x, j);
    GeneratedMac(rows[x], k, rows[j].mac);
    MacsApart(m, rows, x, j);
    forall a: Slot | NetOwns(m1.files, a, rows[j].mac)
      ensures NetOwns(m.files, a, rows[j].mac)
    {
      ConfigFileInjective(a, k);
    }
  }

  lemma MacsApart(m: NetplanNode, rows: seq<NetworkInterface>, x: nat, j: nat)
    requires NetBase(m, rows) && x < |rows| && j < |rows| && x != j
    ensures rows[x].mac != rows[j].mac
  {
    OtherRow(rows, x, j);
  }

  lemma {:induction false} OneFileKept(n: NetplanNode, rows: seq<NetworkInterface>, i: nat, from: nat, t: nat)
    requires NetReady(n, rows) && i < |rows| && from <= t <= |rows| && (t <= i || i < from)
    requires NetOwnsOne(Turns(n, rows, from).files, rows[i].mac)
    ensures NetOwnsOne(Turns(n, rows, t).files, rows[i].mac)
  {
    hide Turn;
    hide NetOwns;
    hide NetBase;
    if t > from {
      OneFileKept(n, rows, i, from, t - 1);
      TurnsProgress(n, rows, t - 1);
      TurnGivesNothing(Turns(n, rows, t - 1), rows, t - 1, i);
    }
  }

  /** What a row skipped without a name leaves: its name is the lowest free one, and the name's file is its own. */
  lemma NetSkippedUnder(n: NetplanNode, rows: seq<NetworkInterface>, i: nat) returns (k: Slot)
    requires NetReady(n, rows) && i < |rows| && SkippedNameless(n, rows, i)
    ensures var m := Turns(n, rows, i);
            LowestFree(m.devices, 0) == Some(k) && NetOwns(m.files, k, rows[i].mac) && Turns(n, rows, i + 1) == m
  {
    hide Turn;
    hide NetBase;
    hide Bound;
    hide NetOwns;
    hide Suits;
    TurnsProgress(n, rows, i);
    k := TurnEffect(Turns(n, rows, i), rows, i);
    SuitsIsOwned(Turns(n, rows, i).files, rows[i], k);
  }

  /** Through the turns of rows with names, the device table and the file of a free name stay as they are. */
  lemma {:induction false} NamedTurnsKeepFree(n: NetplanNode, rows: seq<NetworkInterface>, i: nat, t: nat, k: Slot,
                                              mac: string)
    requires NetReady(n, rows) && i <= t <= |rows| && !InUse(Turns(n, rows, i).devices, Name(k))
    requires forall x :: i <= x < t ==> Bound(n.devices, rows[x].mac)
    ensures var a, b := Turns(n, rows, i), Turns(n, rows, t);
            a.devices == b.devices && (NetOwns(a.files, k, mac) <==> NetOwns(b.files, k, mac))
  {
    hide Turn;
    hide NetBase;
    hide Bound;
    hide Suits;
    hide ConfigFile;
    hide HasMac;
    hide NameFor;
    if t > i {
      NamedTurnsKeepFree(n, rows, i, t - 1, k, mac);
      TurnsProgress(n, rows, t - 1);
      var s := TurnEffect(Turns(n, rows, t - 1), rows, t - 1);
      ConfigFileInjective(s, k);
    }
  }

  /** The row without a name whose turn comes next takes the name, and the file with it. */
  lemma NextTakesName(n: NetplanNode, rows: seq<NetworkInterface>, i: nat, j: nat, k: Slot)
    requires NetReady(n, rows) && i < j < |rows| && !Bound(n.devices, rows[j].mac)
    requires LowestFree(Turns(n, rows, j).devices, 0) == Some(k)
    requires NetOwns(Turns(n, rows, j).files, k, rows[i].mac) && NetOwnsOne(Turns(n, rows, j).files, rows[i].mac)
    ensures NetOwnsNone(Turns(n, rows, j + 1).files, rows[i].mac)
    ensures Bound(Turns(n, rows, j + 1).devices, rows[j].mac)
  {
    hide Turn;
    hide NetBase;
    hide Bound;
    hide NameFor;
    hide LowestFree;
    var m := Turns(n, rows, j);
    TurnsProgress(n, rows, j);
    var s := TurnEffect(m, rows, j);
    MacsApart(m, rows, j, i);
    OwnedDoesNotSuit(m.files, rows[j], k, rows[i].mac);
    TurnGivesNothing(m, rows, j, i);
    OnlyOneOwned(m.files, Turns(n, rows, j + 1).files, rows[i].mac, k);
  }

  lemma OwnedDoesNotSuit(files: map<string, Content>, row: NetworkInterface, k: Slot, mac: string)
    requires NetOwns(files, k, mac) && mac != row.mac
    ensures !Suits(files, row, k)
  {
    hide ConfigFile;
  }

  lemma OnlyOneOwned(before: map<string, Content>, after: map<string, Content>, mac: string, k: Slot)
    requires NetOwnsOne(before, mac) && NetOwns(before, k, mac) && !NetOwns(after, k, mac)
    requires forall a: Slot :: NetOwns(after, a, mac) ==> NetOwns(before, a, mac)
    ensures NetOwnsNone(after, mac)
  {
    hide NetOwns;
  }

  lemma {:induction false} NetStaysRobbed(n: NetplanNode, rows: seq<NetworkInterface>, i: nat, from: nat, t: nat)
    requires NetReady(n, rows) && i < from <= t <= |rows|
    requires !Bound(Turns(n, rows, from).devices, rows[i].mac)
    ensures !Bound(Turns(n, rows, t).devices, rows[i].mac)
    ensures NetOwnsNone(Turns(n, rows, from).files, rows[i].mac) ==> NetOwnsNone(Turns(n, rows, t).files, rows[i].mac)
  {
    hide Turn;
    hide NetOwns;
    hide NetBase;
    hide Bound;
    if t > from {
      NetStaysRobbed(n, rows, i, from, t - 1);
      TurnsProgress(n, rows, t - 1);
      TurnGivesNothing(Turns(n, rows, t - 1), rows, t - 1, i);
    }
  }

  lemma {:induction false} FirstNamelessAfter(n: NetplanNode, rows: seq<NetworkInterface>, i: nat,
                                              j: nat) returns (first: nat)
    requires i < j < |rows| && !Bound(n.devices, rows[j].mac)
    ensures i < first <= j && !Bound(n.devices, rows[first].mac)
    ensures forall x :: i < x < first ==> Bound(n.devices, rows[x].mac)
    decreases j
  {
    if x :| i < x < j && !Bound(n.devices, rows[x].mac) {
      first := FirstNamelessAfter(n, rows, i, x);
    } else {
      first := j;
    }
  }

  /** A MAC address without a name and without a file of its own never rests. */
  lemma RobbedNeverRests(m: NetplanNode, row: NetworkInterface)
    requires NetOwnsNone(m.files, row.mac)
    ensures !Rests(m, row)
  {
    hide NetOwns;
    hide Suits;
    var name := NameFor(m.devices, row.mac, {});
    if name.Some? && Suits(m.files, row, name.value) { SuitsIsOwned(m.files, row, name.value); }
  }

  lemma FewerOwned(files: map<string, Content>, gone: set<string>, mac: string)
    requires NetOwnsNone(files, mac)
    ensures NetOwnsNone(files - gone, mac)
  {
    hide ConfigFile;
    hide HasMac;
    forall a: Slot
      ensures !NetOwns(files - gone, a, mac)
    {
      assert NetOwns(files - gone, a, mac) ==> NetOwns(files, a, mac);
    }
  }

  lemma {:induction false} NetStolenIsLeftOver(n: NetplanNode, rows: seq<NetworkInterface>)
    requires NetReady(n, rows) && NetStolen(n, rows)
    requires forall r :: r in rows ==> NetOwnsOne(n.files, r.mac)
    ensures !NetQuiet(CycleEnd(n, rows), rows)
  {
    hide NetReady;
    hide SkippedNameless;
    hide Turns;
    hide NetOwns;
    hide NetOwnsOne;
    hide NetOwnsNone;
    hide Bound;
    hide Rests;
    hide NetQuiet;
    hide NetplanOrphans;
    var i, other :| 0 <= i < other < |rows| && SkippedNameless(n, rows, i) && !Bound(n.devices, rows[other].mac);
    var j := FirstNamelessAfter(n, rows, i, other);
    assert rows[i] in rows;
    StartIsTurns(n, rows);
    OneFileKept(n, rows, i, 0, i);
    var k := NetSkippedUnder(n, rows, i);
    NamedTurnsKeepFree(n, rows, i + 1, j, k, rows[i].mac);
    OneFileKept(n, rows, i, i + 1, j);
    NextTakesName(n, rows, i, j, k);
    NamelessWhenSkipped(n, rows, i);
    NetStaysRobbed(n, rows, i, i + 1, j + 1);
    NetStaysRobbed(n, rows, i, j + 1, |rows|);
    var m := Turns(n, rows, |rows|);
    EndIsTidy(n, rows);
    FewerOwned(m.files, NetplanOrphans(m.files, {}, ActiveMacs(rows)), rows[i].mac);
    RobbedNeverRests(CycleEnd(n, rows), rows[i]);
    QuietMeansRest(CycleEnd(n, rows), rows);
  }

  lemma StartIsTurns(n: NetplanNode, rows: seq<NetworkInterface>)
    ensures Turns(n, rows, 0) == n
  {
  }

  lemma NamelessWhenSkipped(n: NetplanNode, rows: seq<NetworkInterface>, i: nat)
    requires i < |rows| && SkippedNameless(n, rows, i) && Turns(n, rows, i + 1) == Turns(n, rows, i)
    ensures !Bound(Turns(n, rows, i + 1).devices, rows[i].mac)
  {
    hide Turn;
    hide Bound;
  }

  lemma EndIsTidy(n: NetplanNode, rows: seq<NetworkInterface>)
    requires NetReady(n, rows)
    ensures Tidy(CycleEnd(n, rows).files)
  {
    hide Turns;
    hide Tidy;
    hide NetplanOrphans;
    TurnsProgress(n, rows, |rows|);
    var m := Turns(n, rows, |rows|);
    FewerTidy(m.files, NetplanOrphans(m.files, {}, ActiveMacs(rows)));
  }

  // ---- told from the node before the cycle ---------------------------------------------------

  predicate SameDocument(a: map<string, Content>, b: map<string, Content>, f: string) {
    (f in a <==> f in b) && (f in a ==> a[f] == b[f])
  }

  /** At `m` the free names are those of `n` from `b` on, with their files untouched. */
  ghost predicate NetFreeFrom(n: NetplanNode, m: NetplanNode, b: nat) {
    FreeNames(n.devices, m.devices, b) &&
    forall s: Slot :: !InUse(m.devices, Name(s)) ==> SameDocument(n.files, m.files, ConfigFile(Name(s)))
  }

  lemma NamedTurnKeepsFree(n: NetplanNode, m: NetplanNode, rows: seq<NetworkInterface>, x: nat, b: nat)
    requires NetBase(m, rows) && x < |rows| && NetFreeFrom(n, m, b) && Bound(m.devices, rows[x].mac)
    ensures NetFreeFrom(n, Turn(m, rows[x]).0, b)
  {
    hide Turn;
    hide NetBase;
    hide Bound;
    hide Suits;
    hide ConfigFile;
    hide NameFor;
    hide FreeNames;
    var m1 := Turn(m, rows[x]).0;
    var k := TurnEffect(m, rows, x);
    forall s: Slot | !InUse(m1.devices, Name(s))
      ensures SameDocument(n.files, m1.files, ConfigFile(Name(s)))
    {
      ConfigFileInjective(s, k);
    }
  }

  lemma TakingTurnKeepsFree(n: NetplanNode, m: NetplanNode, rows: seq<NetworkInterface>, x: nat,
                            b: nat) returns (c: nat)
    requires NetBase(m, rows) && x < |rows| && NetFreeFrom(n, m, b) && !Bound(m.devices, rows[x].mac)
    requires Turn(m, rows[x]).1.Processed?
    ensures NetFreeFrom(n, Turn(m, rows[x]).0, c) && FreeBelow(n.devices, c) == FreeBelow(n.devices, b) + 1
  {
    hide Turn;
    hide NetBase;
    hide Bound;
    hide Suits;
    hide ConfigFile;
    hide NameFor;
    hide FreeNames;
    hide FreeSlots;
    hide FreeBelow;
    hide LowestFree;
    var m1 := Turn(m, rows[x]).0;
    var k := TurnEffect(m, rows, x);
    NameTaken(n.devices, m.devices, m1.devices, b, k);
    forall s: Slot | !InUse(m1.devices, Name(s))
      ensures SameDocument(n.files, m1.files, ConfigFile(Name(s)))
    {
      ConfigFileInjective(s, k);
    }
    var taken: nat := k;
    c := taken + 1;
  }

  lemma {:induction false} NetFreeUntil(n: NetplanNode, rows: seq<NetworkInterface>, i: nat) returns (b: nat)
    requires NetReady(n, rows) && i <= |rows| && forall j :: 0 <= j < i ==> !SkippedNameless(n, rows, j)
    ensures NetFreeFrom(n, Turns(n, rows, i), b) && FreeBelow(n.devices, b) == UnnamedBefore(n.devices, rows, i)
  {
    hide Turn;
    hide NetBase;
    hide Bound;
    hide NetFreeFrom;
    hide Suits;
    hide FreeSlots;
    hide LowestFree;
    hide NameFor;
    if i == 0 {
      b := 0;
      NetFreeAtStart(n);
    } else {
      var c := NetFreeUntil(n, rows, i - 1);
      var m := Turns(n, rows, i - 1);
      TurnsProgress(n, rows, i - 1);
      assert !SkippedNameless(n, rows, i - 1);
      var k := TurnEffect(m, rows, i - 1);
      if Bound(m.devices, rows[i - 1].mac) {
        b := c;
        NamedTurnKeepsFree(n, m, rows, i - 1, c);
      } else {
        b := TakingTurnKeepsFree(n, m, rows, i - 1, c);
      }
    }
  }

  lemma NetFreeAtStart(n: NetplanNode)
    ensures NetFreeFrom(n, n, 0) && FreeBelow(n.devices, 0) == 0
  {
    hide ConfigFile;
  }

  lemma SameSuits(n: NetplanNode, m: NetplanNode, row: NetworkInterface, k: Slot)
    requires SameDocument(n.files, m.files, ConfigFile(Name(k)))
    ensures Suits(n.files, row, k) <==> Suits(m.files, row, k)
  {
    hide ConfigFile;
    hide IsDrifted;
  }

  /** Until a row is skipped without its name, the next one is exactly if it is exposed. */
  lemma {:induction false} NetSkippedExactly(n: NetplanNode, rows: seq<NetworkInterface>, i: nat)
    requires NetReady(n, rows) && i < |rows| && forall j :: 0 <= j < i ==> !SkippedNameless(n, rows, j)
    ensures SkippedNameless(n, rows, i) <==> exists k: Slot :: NetExposed(n, rows, i, k)
  {
    hide NetBase;
    hide Bound;
    hide LowestFree;
    hide LowestCarrying;
    hide FreeBelow;
    hide Turns;
    hide Suits;
    hide ConfigFile;
    hide FreeNames;
    var b := NetFreeUntil(n, rows, i);
    var m, row := Turns(n, rows, i), rows[i];
    TurnsProgress(n, rows, i);
    var k := TurnEffect(m, rows, i);
    if !Bound(m.devices, row.mac) {
      LowestByCount(n.devices, m.devices, b, k);
      FreeIsUnused(m.devices, k);
      SameSuits(n, m, row, k);
      if SkippedNameless(n, rows, i) {
        assert NetExposed(n, rows, i, k);
      }
      if s: Slot :| NetExposed(n, rows, i, s) {
        LowestByCount(n.devices, m.devices, b, s);
        assert s == k;
      }
    } else {
      assert Bound(n.devices, row.mac);
    }
  }

  lemma FreeIsUnused(devices: seq<Device>, k: Slot)
    requires LowestFree(devices, 0) == Some(k)
    ensures !InUse(devices, Name(k))
  {
  }

  /** The first row that is skipped without its name, if row `i` is. */
  lemma {:induction false} FirstNamelessSkip(n: NetplanNode, rows: seq<NetworkInterface>, i: nat) returns (first: nat)
    requires i < |rows| && SkippedNameless(n, rows, i)
    ensures first <= i && SkippedNameless(n, rows, first) && forall j :: 0 <= j < first ==> !SkippedNameless(n, rows, j)
    decreases i
  {
    hide SkippedNameless;
    first := i;
    if j :| 0 <= j < i && SkippedNameless(n, rows, j) {
      first := FirstNamelessSkip(n, rows, j);
    }
  }

  /** A name is stolen in the cycle exactly when the node before it is at risk. */
  lemma {:induction false} NetStolenExactly(n: NetplanNode, rows: seq<NetworkInterface>)
    requires NetReady(n, rows)
    ensures NetStolen(n, rows) <==> NetAtRisk(n, rows)
  {
    hide NetReady;
    hide SkippedNameless;
    hide NetExposed;
    hide Bound;
    if i, j :| 0 <= i < j < |rows| && SkippedNameless(n, rows, i) && !Bound(n.devices, rows[j].mac) {
      var first := FirstNamelessSkip(n, rows, i);
      NetSkippedExactly(n, rows, first);
    }
    if i, j, k: Slot :| 0 <= i < j < |rows| && NetExposed(n, rows, i, k) && !Bound(n.devices, rows[j].mac) {
      if x :| 0 <= x < i && SkippedNameless(n, rows, x) {
        assert NetStolen(n, rows);
      } else {
        NetSkippedExactly(n, rows, i);
      }
    }
  }

  /**
   Convergence on the Netplan path, exactly: in a tidy directory in which no row's MAC address has two
   of the slots' files, one faultless cycle leaves a quiet node if and only if the node before it is
   not at risk.
   */
  lemma {:induction false} NetCycleConvergesExactly(n: NetplanNode, rows: seq<NetworkInterface>,
                                                    listings: seq<seq<string>>, last: seq<string>)
    requires NetReady(n, rows) && CycleListed(n, rows, listings, last)
    requires forall r :: r in rows ==> NetOwnsOne(n.files, r.mac)
    ensures NetQuiet(NetCycle(n, rows, listings, last), rows) <==> !NetAtRisk(n, rows)
  {
    hide NetReady;
    hide CycleListed;
    hide NetCycle;
    hide CycleEnd;
    hide NetQuiet;
    hide NetStolen;
    hide NetAtRisk;
    hide NetOwnsOne;
    CycleIsTurns(n, rows, listings, last);
    NetStolenExactly(n, rows);
    if NetStolen(n, rows) {
      NetStolenIsLeftOver(n, rows);
    } else {
      SafeTurnsConverge(n, rows);
    }
  }

  /** Without that condition on files, a node that is not at risk settles. */
  lemma {:induction false} NetSafeCycleConverges(n: NetplanNode, rows: seq<NetworkInterface>,
                                                 listings: seq<seq<string>>, last: seq<string>)
    requires NetReady(n, rows) && CycleListed(n, rows, listings, last) && !NetAtRisk(n, rows)
    ensures NetQuiet(NetCycle(n, rows, listings, last), rows)
  {
    hide NetReady;
    hide CycleListed;
    hide NetCycle;
    hide CycleEnd;
    hide NetQuiet;
    hide NetStolen;
    hide NetAtRisk;
    CycleIsTurns(n, rows, listings, last);
    NetStolenExactly(n, rows);
    SafeTurnsConverge(n, rows);
  }
}
