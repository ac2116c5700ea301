/** The faultless Netplan worker without its listing: what one turn of the pass does to the node. */
module NetplanTurns {
  import opened Options
  import opened Text
  import opened Entities
  import opened IpLink
  import opened Naming
  import opened Rhel
  import opened Cleanup
  import opened Cycle
  import opened Convergence
  import opened Recovery
  import opened Listing
  import opened Netplan
  import opened NetplanCleanup
  import opened NetplanConvergence

  /** The file of the name is there and suits the row. */
  predicate Suits(files: map<string, Content>, row: NetworkInterface, k: Slot) {
    ConfigFile(Name(k)) in files && !IsDrifted(row, files[ConfigFile(Name(k))])
  }

  /** One faultless turn: skip, or write the document, name the device and record the row. */
  function Turn(n: NetplanNode, row: NetworkInterface): (NetplanNode, Outcome) {
    match NameFor(n.devices, row.mac, {})
    case None => (n, Unnamed)
    case Some(k) =>
      if Suits(n.files, row, k) && row.status != Pending then (n, Skipped(k))
      else (NetplanNode(ApplyRename(n.devices, row.mac, k), n.files[ConfigFile(Name(k)) := Generated(row, k)],
                        n.stored[row.id := 1]), Processed(k))
  }

  /** The row's worker, with the status read again, has nothing to do. */
  predicate Rests(n: NetplanNode, row: NetworkInterface) {
    match NameFor(n.devices, row.mac, {})
    case None => false
    case Some(k) => Suits(n.files, row, k) && Column(n.stored, row.id) == 1
  }

  /** What holds of the rows and the node throughout a faultless pass. */
  ghost predicate NetBase(n: NetplanNode, rows: seq<NetworkInterface>) {
    UniqueNames(n.devices) && DistinctRows(rows) && Tidy(n.files) &&
    (forall r :: r in rows ==> NetGood(r) && OneDevice(n.devices, r.mac) && r.id in n.stored) &&
    |UnboundFrom(n.devices, rows, 0)| <= |FreeSlots(n.devices)|
  }

  /** The rows as fetched from a node of which nothing is assumed about the devices of configured rows. */
  ghost predicate NetReady(n: NetplanNode, rows: seq<NetworkInterface>) {
    NetBase(n, rows) && forall r :: r in rows ==> r == Current(r, n.stored)
  }

  // ---- one turn ------------------------------------------------------------------------

  lemma WorkerRests(n: NetplanNode, listing: seq<string>, row: NetworkInterface)
    requires Tidy(n.files) && Lists(listing, n.files.Keys)
    ensures NetplanWorker(n, listing, Current(row, n.stored), NO_NETPLAN_FAULTS).1.Skipped? <==> Rests(n, row)
  {
    hide ConfigFile;
    hide ProcessNetplan;
    hide IsDrifted;
    hide CheckedFile;
    hide Tidy;
    hide Lists;
    hide NameFor;
    StatusIsNotDrift(row, Current(row, n.stored));
    var name := NameFor(n.devices, row.mac, {});
    if name.Some? { ChecksOwnFile(n.files, listing, name.value); }
  }

  lemma WorkedNode(n: NetplanNode, row: NetworkInterface, k: Slot)
    requires UniqueNames(n.devices) && OneDevice(n.devices, row.mac) && Validate(row) == Valid && row.id in n.stored
    requires NameFor(n.devices, row.mac, {}) == Some(k)
    ensures ProcessNetplan(n, row, k, NO_NETPLAN_FAULTS) ==
            (NetplanNode(ApplyRename(n.devices, row.mac, k), n.files[ConfigFile(Name(k)) := Generated(row, k)],
                         n.stored[row.id := 1]), true)
  {
    hide ConfigFile;
    hide Generated;
    hide OneDevice;
    hide NameFor;
    hide Validate;
    AppliedIsUsed(n.devices, row.mac, k);
  }

  /** In a tidy directory the faultless worker is the turn, whatever the order of its listing. */
  lemma {:induction false} TurnIsWorker(n: NetplanNode, rows: seq<NetworkInterface>, listing: seq<string>,
                                        row: NetworkInterface)
    requires NetBase(n, rows) && row in rows && Lists(listing, n.files.Keys)
    ensures NetplanWorker(n, listing, row, NO_NETPLAN_FAULTS) == Turn(n, row)
  {
    hide ConfigFile;
    hide ProcessNetplan;
    hide IsDrifted;
    hide CheckedFile;
    hide Tidy;
    hide Lists;
    hide NameFor;
    hide Generated;
    hide OneDevice;
    hide NetGood;
    hide UnboundFrom;
    hide FreeSlots;
    hide ApplyRename;
    RowIsGood(row, row);
    var name := NameFor(n.devices, row.mac, {});
    if name.Some? {
      ChecksOwnFile(n.files, listing, name.value);
      WorkedNode(n, row, name.value);
    }
  }

  /** What a turn that processes does to the device table. */
  lemma TurnTable(devices: seq<Device>, mac: string, k: Slot)
    requires UniqueNames(devices) && OneDevice(devices, mac) && NameFor(devices, mac, {}) == Some(k)
    ensures var b := ApplyRename(devices, mac, k);
            UniqueNames(b) && Bound(b, mac) && NameFor(b, mac, {}) == Some(k) &&
            if Bound(devices, mac) then b == devices && InUse(devices, Name(k))
            else
              LowestFree(devices, 0) == Some(k) && TookSlot(devices, b, mac, k) &&
              FreeSlots(b) == FreeSlots(devices) - {k}
  {
    hide Name;
    hide FreeSlots;
    if Bound(devices, mac) {
      BoundDevice(devices, mac);
      BoundIsCarried(devices, mac);
    } else {
      UnboundName(devices, mac);
      UnboundDevice(devices, mac, k);
      BoundIsCarried(ApplyRename(devices, mac, k), mac);
    }
  }

  lemma NetNamed(n: NetplanNode, rows: seq<NetworkInterface>, x: nat)
    requires NetBase(n, rows) && x < |rows|
    ensures NameFor(n.devices, rows[x].mac, {}).Some?
  {
    hide NetGood;
    hide Tidy;
    hide OneDevice;
    if !Bound(n.devices, rows[x].mac) {
      assert x in UnboundFrom(n.devices, rows, 0);
      assert FreeSlots(n.devices) != {};
      var k :| k in FreeSlots(n.devices);
      assert !InUse(n.devices, Name(k));
    } else {
      BoundIsCarried(n.devices, rows[x].mac);
    }
  }

  /** What a turn does to the node, told case by case. */
  lemma {:induction false} TurnEffect(n: NetplanNode, rows: seq<NetworkInterface>, x: nat) returns (k: Slot)
    requires NetBase(n, rows) && x < |rows|
    ensures var row := rows[x];
            var (n1, o) := Turn(n, row);
            NameFor(n.devices, row.mac, {}) == Some(k) && (o == Skipped(k) || o == Processed(k)) &&
            (o.Skipped? ==> n1 == n && Suits(n.files, row, k) && row.status != Pending) &&
            (o.Processed? ==>
               n1.files == n.files[ConfigFile(Name(k)) := Generated(row, k)] && n1.stored == n.stored[row.id := 1] &&
               Bound(n1.devices, row.mac) && NameFor(n1.devices, row.mac, {}) == Some(k) && Suits(n1.files, row, k)) &&
            (Bound(n.devices, row.mac) ==> n1.devices == n.devices && InUse(n.devices, Name(k))) &&
            (!Bound(n.devices, row.mac) ==>
               LowestFree(n.devices, 0) == Some(k) &&
               (o.Processed? ==> TookSlot(n.devices, n1.devices, row.mac, k) &&
                                 FreeSlots(n1.devices) == FreeSlots(n.devices) - {k}))
  {
    hide Turn;
    hide NetGood;
    hide Tidy;
    hide OneDevice;
    hide NameFor;
    hide Suits;
    hide Bound;
    hide TookSlot;
    hide FreeSlots;
    hide UnboundFrom;
    hide ApplyRename;
    hide ConfigFile;
    hide Generated;
    hide DistinctRows;
    var row := rows[x];
    assert row in rows;
    NetNamed(n, rows, x);
    k := NameFor(n.devices, row.mac, {}).value;
    TurnTable(n.devices, row.mac, k);
    TurnShape(n, row, k);
  }

  lemma TurnShape(n: NetplanNode, row: NetworkInterface, k: Slot)
    requires NameFor(n.devices, row.mac, {}) == Some(k) && NetGood(row)
    ensures var (n1, o) := Turn(n, row);
            if Suits(n.files, row, k) && row.status != Pending then n1 == n && o == Skipped(k)
            else o == Processed(k) && Suits(n1.files, row, k) && n1.devices == ApplyRename(n.devices, row.mac, k) &&
                 n1.files == n.files[ConfigFile(Name(k)) := Generated(row, k)] && n1.stored == n.stored[row.id := 1]
  {
    hide ConfigFile;
    hide IsDrifted;
    hide NameFor;
    hide Generated;
    hide NetGood;
    hide ApplyRename;
    NetFreshFile(row, row, k);
  }

  lemma OtherRow(rows: seq<NetworkInterface>, x: nat, j: nat)
    requires DistinctRows(rows) && x < |rows| && j < |rows| && x != j
    ensures rows[x].id != rows[j].id && !SameMac(rows[x].mac, rows[j].mac) && !SameMac(rows[j].mac, rows[x].mac)
  {
  }

  /** A turn touches no other row's status or device, and no file but its name's. */
  lemma TurnFrame(n: NetplanNode, rows: seq<NetworkInterface>, x: nat, j: nat)
    requires NetBase(n, rows) && x < |rows| && j < |rows| && x != j
    ensures var n1 := Turn(n, rows[x]).0;
            (Bound(n1.devices, rows[j].mac) <==> Bound(n.devices, rows[j].mac)) &&
            LowestCarrying(n1.devices, rows[j].mac, {}, 0) == LowestCarrying(n.devices, rows[j].mac, {}, 0) &&
            Column(n1.stored, rows[j].id) == Column(n.stored, rows[j].id) &&
            OneDevice(n1.devices, rows[j].mac) && rows[j].id in n1.stored
  {
    hide Turn;
    hide Suits;
    hide NetGood;
    hide Tidy;
    hide OneDevice;
    hide Bound;
    hide TookSlot;
    hide FreeSlots;
    hide UnboundFrom;
    hide SameMac;
    var (n1, o) := Turn(n, rows[x]);
    assert rows[j] in rows;
    var k := TurnEffect(n, rows, x);
    OtherRow(rows, x, j);
    if n1.devices != n.devices {
      TakenIsBound(n.devices, n1.devices, rows[x].mac, o.slot);
      BoundFrame(n.devices, n1.devices, rows[j].mac, rows[x].mac, o.slot);
      OneDeviceFrame(n.devices, n1.devices, rows[j].mac, rows[x].mac, o.slot);
    }
  }

  lemma TurnKeepsBase(n: NetplanNode, rows: seq<NetworkInterface>, x: nat)
    requires NetBase(n, rows) && x < |rows|
    ensures NetBase(Turn(n, rows[x]).0, rows)
  {
    hide Turn;
    hide Suits;
    hide NetGood;
    hide Tidy;
    hide OneDevice;
    hide Bound;
    hide TookSlot;
    hide FreeSlots;
    hide UnboundFrom;
    hide ConfigFile;
    var (n1, o) := Turn(n, rows[x]);
    assert rows[x] in rows;
    var k := TurnEffect(n, rows, x);
    if o.Processed? {
      var f := ConfigFile(Name(o.slot));
      assert n1.files - {f} == n.files - {f};
      TidyFrame(n.files, n1.files, o.slot);
    }
    if n1.devices != n.devices {
      TakenIsBound(n.devices, n1.devices, rows[x].mac, o.slot);
      OneDeviceFrame(n.devices, n1.devices, rows[x].mac, rows[x].mac, o.slot);
      SlotsSuffice(n.devices, n1.devices, rows, x, o.slot);
    }
    forall r | r in rows
      ensures OneDevice(n1.devices, r.mac) && r.id in n1.stored
    {
      var j :| 0 <= j < |rows| && rows[j] == r;
      if j != x { TurnFrame(n, rows, x, j); }
    }
  }

  // ---- the pass --------------------------------------------------------------------------

  /** The node after the first `i` turns. */
  function Turns(n: NetplanNode, rows: seq<NetworkInterface>, i: nat): NetplanNode
    requires i <= |rows|
  {
    if i == 0 then n else Turn(Turns(n, rows, i - 1), rows[i - 1]).0
  }

  /** Before its turn a row is as fetched, and its device has a name exactly if it had one at the start. */
  lemma {:induction false} TurnsProgress(n: NetplanNode, rows: seq<NetworkInterface>, i: nat)
    requires NetReady(n, rows) && i <= |rows|
    ensures var m := Turns(n, rows, i);
            NetBase(m, rows) &&
            (forall j :: i <= j < |rows| ==> rows[j] == Current(rows[j], m.stored)) &&
            (forall j :: i <= j < |rows| ==> (Bound(m.devices, rows[j].mac) <==> Bound(n.devices, rows[j].mac)))
  {
    hide Turn;
    hide NetBase;
    hide Bound;
    if i == 0 {
      assert forall j :: 0 <= j < |rows| ==> rows[j] in rows;
    } else {
      TurnsProgress(n, rows, i - 1);
      var m, m1 := Turns(n, rows, i - 1), Turns(n, rows, i);
      TurnKeepsBase(m, rows, i - 1);
      forall j | i <= j < |rows|
        ensures rows[j] == Current(rows[j], m1.stored)
        ensures Bound(m1.devices, rows[j].mac) <==> Bound(n.devices, rows[j].mac)
      {
        TurnFrame(m, rows, i - 1, j);
      }
    }
  }

  lemma {:induction false} PassIsTurns(n: NetplanNode, rows: seq<NetworkInterface>, listings: seq<seq<string>>, i: nat)
    requires NetReady(n, rows) && Listed(n, rows, listings) && i <= |rows|
    ensures NetAfter(n, rows, listings, AllWell(|rows|), i) == Turns(n, rows, i)
  {
    hide Turn;
    hide NetplanWorker;
    hide NetBase;
    hide Lists;
    if i > 0 {
      PassIsTurns(n, rows, listings, i - 1);
      assert ListedAt(n, rows, listings, i - 1);
      TurnsProgress(n, rows, i - 1);
      assert rows[i - 1] in rows;
      TurnIsWorker(Turns(n, rows, i - 1), rows, listings[i - 1], rows[i - 1]);
    }
  }

  // ---- the cycle -----------------------------------------------------------------------------

  /** The node after a faultless pass and a cleanup that removes the orphans. */
  ghost function CycleEnd(n: NetplanNode, rows: seq<NetworkInterface>): NetplanNode {
    var m := Turns(n, rows, |rows|);
    m.(files := m.files - NetplanOrphans(m.files, {}, ActiveMacs(rows)))
  }

  lemma {:induction false} CycleIsTurns(n: NetplanNode, rows: seq<NetworkInterface>, listings: seq<seq<string>>,
                                        last: seq<string>)
    requires NetReady(n, rows) && CycleListed(n, rows, listings, last)
    ensures NetCycle(n, rows, listings, last) == CycleEnd(n, rows) && NetBase(CycleEnd(n, rows), rows)
  {
    hide NetAfter;
    hide Turns;
    hide Listed;
    hide NetplanOrphan;
    hide Lists;
    PassIsTurns(n, rows, listings, |rows|);
    TurnsProgress(n, rows, |rows|);
    var m := Turns(n, rows, |rows|);
    TidyIsCanonical(m.files);
    CanonicalCleanupIsExact(m.files, {}, ActiveMacs(rows), last);
    FewerBase(m, rows, NetplanOrphans(m.files, {}, ActiveMacs(rows)));
  }

  lemma FewerBase(n: NetplanNode, rows: seq<NetworkInterface>, gone: set<string>)
    requires NetBase(n, rows)
    ensures NetBase(n.(files := n.files - gone), rows)
  {
    hide ConfigFile;
    hide NetGood;
    hide OneDevice;
    hide FreeSlots;
    hide UnboundFrom;
    FewerTidy(n.files, gone);
  }

  lemma FewerTidy(files: map<string, Content>, gone: set<string>)
    requires Tidy(files)
    ensures Tidy(files - gone)
  {
    hide ConfigFile;
    assert forall f :: f in files - gone ==> f in files;
  }

  lemma {:induction false} SomeListing(files: set<string>) returns (listing: seq<string>)
    ensures Lists(listing, files)
  {
    if files == {} {
      listing := [];
    } else {
      var f :| f in files;
      var rest := SomeListing(files - {f});
      listing := rest + [f];
    }
  }

  /** A tidy node is quiet exactly when every row rests and there is no orphan. */
  lemma {:induction false} QuietMeansRest(n: NetplanNode, rows: seq<NetworkInterface>)
    requires Tidy(n.files)
    ensures NetQuiet(n, rows) <==>
            (forall r :: r in rows ==> Rests(n, r)) && NetplanOrphans(n.files, {}, ActiveMacs(rows)) == {}
  {
    hide NetplanWorker;
    hide Rests;
    hide Tidy;
    hide Lists;
    hide NetplanOrphans;
    var some := SomeListing(n.files.Keys);
    forall r, listing | r in rows && Lists(listing, n.files.Keys)
      ensures NetplanWorker(n, listing, Current(r, n.stored), NO_NETPLAN_FAULTS).1.Skipped? <==> Rests(n, r)
    {
      WorkerRests(n, listing, r);
    }
  }

  /** The cleanup leaves a resting row at rest: its file bears its own MAC address. */
  lemma RestSurvivesCleanup(n: NetplanNode, rows: seq<NetworkInterface>, row: NetworkInterface)
    requires Rests(n, row) && row in rows && row.mac != ""
    ensures Rests(n.(files := n.files - NetplanOrphans(n.files, {}, ActiveMacs(rows))), row)
  {
    hide ConfigFile;
    hide IsMultinicNetplanFile;
    hide NameFor;
    assert Lower(row.mac) in ActiveMacs(rows);
  }
}
