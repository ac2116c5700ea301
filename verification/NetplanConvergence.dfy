/**
 Cycles on the Netplan path: what every run keeps, and that one faultless cycle leaves nothing
 to do in a directory whose multinic files bear the names that Configure gives them.
 */
module NetplanConvergence {
  import opened Options
  import opened Text
  import opened Entities
  import opened IpLink
  import opened Naming
  import opened Rhel
  import opened Cleanup
  import opened Cycle
  import opened Serial
  import opened Interleaving
  import opened Recovery
  import opened Listing
  import opened Netplan
  import opened NetplanCleanup

  const NO_NETPLAN_FAULTS := NetplanPlan({}, true, Saved, true, true, true, true, true, true, true, true, true, true)

  // ---- file names -----------------------------------------------------------------

  /** Every YAML file whose name contains `multinic` has the name that Configure gives to some slot. */
  ghost predicate Tidy(files: map<string, Content>) {
    forall f :: f in files && Contains(f, "multinic") && HasSuffix(f, ".yaml") ==>
      exists k: Slot :: f == ConfigFile(Name(k))
  }

  lemma ConfigFileInjective(j: Slot, k: Slot)
    ensures ConfigFile(Name(j)) == ConfigFile(Name(k)) ==> j == k
  {
    CanonicalName(j);
    CanonicalName(k);
    assert ConfigFile(Name(j))[1] == DigitChar(j) && ConfigFile(Name(k))[1] == DigitChar(k);
  }

  /** The name of a slot's file contains no other slot's name. */
  lemma NamesApart(j: Slot, k: Slot)
    requires Contains(ConfigFile(Name(j)), Name(k))
    ensures j == k
  {
    var f := ConfigFile(Name(j));
    FileCharacters(f, j);
    var i :| 0 <= i <= |f| && HasPrefix(f[i..], Name(k));
    NameCharacters(f[i..], k);
    assert f[i..][0] == f[i] && f[i..][8] == f[i + 8];
    OnlyAtThree(f, i);
  }

  lemma NameCharacters(s: string, k: Slot)
    requires HasPrefix(s, Name(k))
    ensures |s| >= 9 && s[0] == 'm' && s[8] == DigitChar(k)
  {
    var p := s[..9];
    assert p == Name(k);
    assert s[0] == p[0] && s[8] == p[8];
  }

  lemma FileCharacters(f: string, j: Slot)
    requires f == ConfigFile(Name(j))
    ensures |f| == 17 && f[11] == DigitChar(j) && f[3] == 'm'
    ensures forall i :: 0 <= i < 9 && i != 3 ==> f[i] != 'm'
  {
    CanonicalName(j);
    var name := Name(j);
    assert f[0] == '9' && f[1] == DigitChar(j) && f[2] == '-';
    assert f[3] == name[0] && f[4] == name[1] && f[5] == name[2] && f[6] == name[3] && f[7] == name[4] &&
      f[8] == name[5];
    assert f[11] == name[8];
  }

  lemma OnlyAtThree(f: string, i: nat)
    requires |f| == 17 && i + 9 <= 17 && f[i] == 'm' && forall x :: 0 <= x < 9 && x != 3 ==> f[x] != 'm'
    ensures i == 3
  {
  }

  lemma PartOfName(f: string, k: Slot)
    requires Contains(f, Name(k))
    ensures Contains(f, "multinic")
  {
    var i :| 0 <= i <= |f| && HasPrefix(f[i..], Name(k));
    assert f[i..][..9] == Name(k) && Name(k)[..8] == "multinic";
    assert f[i..][..8] == f[i..][..9][..8];
    assert HasPrefix(f[i..], "multinic");
  }

  lemma {:induction false} FoundFile(listing: seq<string>, name: string)
    ensures match FindFile(listing, name)
            case None => true
            case Some(f) => f in listing && Contains(f, name) && HasSuffix(f, ".yaml")
  {
    if listing != [] { FoundFile(listing[1..], name); }
  }

  /** In a tidy directory the drift check looks at the slot's own file, whatever the order of the listing. */
  lemma ChecksOwnFile(files: map<string, Content>, listing: seq<string>, k: Slot)
    requires Tidy(files) && Lists(listing, files.Keys)
    ensures CheckedFile(listing, k) == ConfigFile(Name(k))
  {
    FoundFile(listing, Name(k));
    var found := FindFile(listing, Name(k));
    if found.Some? {
      PartOfName(found.value, k);
      var j: Slot :| found.value == ConfigFile(Name(j));
      NamesApart(j, k);
    }
  }

  /** So the worker does the same for every order of the listing. */
  lemma {:induction false} ListingIrrelevant(n: NetplanNode, listing: seq<string>, other: seq<string>,
                                             row: NetworkInterface, plan: NetplanPlan)
    requires Tidy(n.files) && Lists(listing, n.files.Keys) && Lists(other, n.files.Keys)
    ensures NetplanWorker(n, listing, row, plan) == NetplanWorker(n, other, row, plan)
  {
    hide ConfigFile;
    hide ProcessNetplan;
    hide IsDrifted;
    hide CheckedFile;
    hide Tidy;
    hide Lists;
    var name := NameFor(n.devices, row.mac, plan.blind);
    if name.Some? {
      ChecksOwnFile(n.files, listing, name.value);
      ChecksOwnFile(n.files, other, name.value);
    }
  }

  // ---- the frame of a worker ----------------------------------------------------------

  lemma NetplanFileFrame(n: NetplanNode, row: NetworkInterface, k: Slot, plan: NetplanPlan)
    ensures var f := ConfigFile(Name(k)); ProcessNetplan(n, row, k, plan).0.files - {f} == n.files - {f}
    ensures ProcessNetplan(n, row, k, plan).0.stored - {row.id} == n.stored - {row.id}
    ensures ProcessNetplan(n, row, k, plan).0.stored.Keys == n.stored.Keys
    ensures !ProcessNetplan(n, row, k, plan).1 ==> ProcessNetplan(n, row, k, plan).0.stored == n.stored
  {
    hide ConfigFile;
    hide Generated;
    hide ApplyRename;
    hide ValidateNetplan;
    var f := ConfigFile(Name(k));
    var c := ConfigureNetplan(n, row, k, plan).0;
    assert c.files - {f} == n.files - {f};
    assert c.files - {f} - {f} == c.files - {f};
  }

  lemma ApplyTakes(devices: seq<Device>, mac: string, k: Slot)
    ensures var b := ApplyRename(devices, mac, k); b == devices || TookSlot(devices, b, mac, k)
  {
  }

  /**
   Only the slot's file, the row's status and the first device of the MAC address may change, and that device
   only to take a free slot.
   */
  ghost predicate NetFrame(n: NetplanNode, n1: NetplanNode, row: NetworkInterface, k: Slot) {
    (n1.devices == n.devices || TookSlot(n.devices, n1.devices, row.mac, k)) &&
    n1.files - {ConfigFile(Name(k))} == n.files - {ConfigFile(Name(k))} &&
    n1.stored.Keys == n.stored.Keys && n1.stored - {row.id} == n.stored - {row.id}
  }

  lemma NetWorkerFrame(n: NetplanNode, listing: seq<string>, row: NetworkInterface, plan: NetplanPlan)
    ensures var (n1, o) := NetplanWorker(n, listing, row, plan);
            if o.Unnamed? || o.Skipped? then n1 == n
            else NameFor(n.devices, row.mac, plan.blind) == Some(o.slot) && NetFrame(n, n1, row, o.slot)
  {
    hide ConfigFile;
    hide ProcessNetplan;
    hide ApplyRename;
    hide TookSlot;
    hide NetplanNeedsProcessing;
    var (n1, o) := NetplanWorker(n, listing, row, plan);
    if !o.Unnamed? && !o.Skipped? {
      NetplanFileFrame(n, row, o.slot, plan);
      Netplan.ProcessDevices(n, row, o.slot, plan);
      ApplyTakes(n.devices, row.mac, o.slot);
      assert n1.stored - {row.id} == ProcessNetplan(n, row, o.slot, plan).0.stored - {row.id};
    }
  }

  /** A processed row's device has the slot. */
  lemma ProcessedIsBound(n: NetplanNode, listing: seq<string>, row: NetworkInterface, plan: NetplanPlan)
    requires UniqueNames(n.devices) && NetplanWorker(n, listing, row, plan).1.Processed?
    ensures Bound(NetplanWorker(n, listing, row, plan).0.devices, row.mac)
  {
    hide ConfigFile;
    hide Generated;
    hide NetplanNeedsProcessing;
    hide Bound;
    hide WriteDocument;
    var (n1, o) := NetplanWorker(n, listing, row, plan);
    NameGivesSlot(n.devices, row.mac, plan.blind);
    AppliedIsBound(n.devices, row.mac, o.slot);
  }

  /** A success leaves the row's document under its name and the row recorded as configured. */
  lemma ProcessedFile(n: NetplanNode, listing: seq<string>, row: NetworkInterface, plan: NetplanPlan, k: Slot)
    requires NetplanWorker(n, listing, row, plan).1 == Processed(k)
    ensures var n1 := NetplanWorker(n, listing, row, plan).0;
            n1.files == n.files[ConfigFile(Name(k)) := Generated(row, k)] && Column(n1.stored, row.id) == 1
  {
    hide ConfigFile;
    hide Generated;
    hide CheckedFile;
    hide IsDrifted;
    hide ApplyRename;
  }

  lemma AppliedIsBound(devices: seq<Device>, mac: string, k: Slot)
    requires UniqueNames(devices) && OwnOrFree(devices, mac, k)
    ensures var b := ApplyRename(devices, mac, k); InUse(b, Name(k)) ==> Bound(b, mac)
  {
    hide Bound;
    var b := ApplyRename(devices, mac, k);
    if HasSlot(devices, mac, k) {
      var i: nat :| Holds(devices, i, k, mac);
      assert devices[i].name == Name(k);
      HeldIsBound(devices, mac, k);
    } else if b != devices {
      TakenIsBound(devices, b, mac, k);
    }
  }

  // ---- what every run keeps ----------------------------------------------------------------

  ghost predicate NetGood(row: NetworkInterface) {
    Validate(row) == Valid && ':' !in row.address && NetplanFixedPoint(row)
  }

  ghost predicate NetSound(n: NetplanNode, table: seq<NetworkInterface>) {
    UniqueNames(n.devices) && DistinctRows(table) && Tidy(n.files) &&
    (forall r :: r in table ==> NetGood(r) && OneDevice(n.devices, r.mac) && r.id in n.stored) &&
    |UnboundFrom(n.devices, table, 0)| <= |FreeSlots(n.devices)| &&
    (forall r :: r in table && n.stored[r.id] == 1 ==> Bound(n.devices, r.mac))
  }

  lemma TidyFrame(before: map<string, Content>, after: map<string, Content>, k: Slot)
    requires Tidy(before) && after - {ConfigFile(Name(k))} == before - {ConfigFile(Name(k))}
    ensures Tidy(after)
  {
    hide ConfigFile;
    hide Contains;
    forall f | f in after && Contains(f, "multinic") && HasSuffix(f, ".yaml")
      ensures exists j: Slot :: f == ConfigFile(Name(j))
    {
      if f != ConfigFile(Name(k)) {
        assert f in after - {ConfigFile(Name(k))};
        assert f in before;
      }
    }
  }

  lemma NetRowKept(n: NetplanNode, listing: seq<string>, table: seq<NetworkInterface>, x: nat, row: NetworkInterface,
                   plan: NetplanPlan, r: NetworkInterface)
    requires NetSound(n, table) && IsRow(row, table, x) && r in table
    ensures var n1 := NetplanWorker(n, listing, row, plan).0;
            OneDevice(n1.devices, r.mac) && r.id in n1.stored && (n1.stored[r.id] == 1 ==> Bound(n1.devices, r.mac))
  {
    hide NetplanWorker;
    hide ConfigFile;
    hide NetGood;
    hide Bound;
    hide OneDevice;
    hide TookSlot;
    hide Tidy;
    hide FreeSlots;
    hide UnboundFrom;
    var (n1, o) := NetplanWorker(n, listing, row, plan);
    NetWorkerFrame(n, listing, row, plan);
    if n1.devices != n.devices {
      TakenIsBound(n.devices, n1.devices, row.mac, o.slot);
      OneDeviceFrame(n.devices, n1.devices, r.mac, row.mac, o.slot);
    }
    var y :| 0 <= y < |table| && table[y] == r;
    if y == x {
      NetConfigured(n, listing, row, plan);
    } else {
      assert r.id != row.id && !SameMac(r.mac, row.mac);
      SameColumn(n.stored, n1.stored, row.id, r.id);
      if n1.devices != n.devices { BoundFrame(n.devices, n1.devices, r.mac, row.mac, o.slot); }
    }
  }

  /** Only a processed row becomes configured. */
  lemma NetConfigured(n: NetplanNode, listing: seq<string>, row: NetworkInterface, plan: NetplanPlan)
    requires UniqueNames(n.devices) && row.id in n.stored
    ensures var (n1, o) := NetplanWorker(n, listing, row, plan);
            (n1.stored.Keys == n.stored.Keys) &&
            (n1.stored[row.id] == 1 ==> n.stored[row.id] == 1 || Bound(n1.devices, row.mac))
  {
    hide ProcessNetplan;
    hide NetplanNeedsProcessing;
    hide Bound;
    hide ConfigFile;
    var (n1, o) := NetplanWorker(n, listing, row, plan);
    if !o.Unnamed? { NetplanFileFrame(n, row, o.slot, plan); }
    if o.Processed? { ProcessedIsBound(n, listing, row, plan); }
  }

  lemma NetWorkerKeepsSound(n: NetplanNode, listing: seq<string>, table: seq<NetworkInterface>, x: nat,
                            row: NetworkInterface, plan: NetplanPlan)
    requires NetSound(n, table) && IsRow(row, table, x)
    ensures NetSound(NetplanWorker(n, listing, row, plan).0, table)
  {
    hide NetplanWorker;
    hide ConfigFile;
    hide NetGood;
    hide Bound;
    hide OneDevice;
    hide TookSlot;
    hide Tidy;
    hide FreeSlots;
    hide UnboundFrom;
    var (n1, o) := NetplanWorker(n, listing, row, plan);
    assert table[x] in table;
    NetWorkerFrame(n, listing, row, plan);
    if n1.devices != n.devices {
      TakenIsBound(n.devices, n1.devices, row.mac, o.slot);
      SlotsSuffice(n.devices, n1.devices, table, x, o.slot);
    }
    if n1 != n { TidyFrame(n.files, n1.files, o.slot); }
    forall r | r in table
      ensures OneDevice(n1.devices, r.mac) && r.id in n1.stored && (n1.stored[r.id] == 1 ==> Bound(n1.devices, r.mac))
    {
      NetRowKept(n, listing, table, x, row, plan, r);
    }
  }

  /** The node after the first `i` workers, each with its own listing of the directory. */
  ghost function NetAfter(n: NetplanNode, rows: seq<NetworkInterface>, listings: seq<seq<string>>,
                          plans: seq<NetplanPlan>, i: nat): NetplanNode
    requires i <= |rows| == |plans| == |listings|
  {
    if i == 0
      then n else NetplanWorker(NetAfter(n, rows, listings, plans, i - 1), listings[i - 1], rows[i - 1], plans[i - 1]).0
  }

  ghost predicate HasRow(table: seq<NetworkInterface>, row: NetworkInterface) {
    exists x: nat :: IsRow(row, table, x)
  }

  ghost predicate AreRows(rows: seq<NetworkInterface>, table: seq<NetworkInterface>) {
    forall t :: 0 <= t < |rows| ==> HasRow(table, rows[t])
  }

  lemma FetchedRows(table: seq<NetworkInterface>, order: seq<nat>, stored: map<int, int>)
    requires forall t :: 0 <= t < |order| ==> order[t] < |table|
    ensures AreRows(Fetch(Pick(table, order), stored), table)
  {
    var picked := Pick(table, order);
    var rows := Fetch(picked, stored);
    forall t | 0 <= t < |rows|
      ensures HasRow(table, rows[t])
    {
      assert rows[t] == Current(picked[t], stored) && picked[t] == table[order[t]];
      assert IsRow(rows[t], table, order[t]);
    }
  }

  lemma {:induction false} NetPassKeepsSound(n: NetplanNode, table: seq<NetworkInterface>, rows: seq<NetworkInterface>,
                                             listings: seq<seq<string>>, plans: seq<NetplanPlan>, i: nat)
    requires NetSound(n, table) && AreRows(rows, table) && i <= |rows| == |plans| == |listings|
    ensures NetSound(NetAfter(n, rows, listings, plans, i), table)
  {
    hide NetplanWorker;
    hide NetSound;
    hide IsRow;
    if i > 0 {
      NetPassKeepsSound(n, table, rows, listings, plans, i - 1);
      assert HasRow(table, rows[i - 1]);
      var x: nat :| IsRow(rows[i - 1], table, x);
      NetWorkerKeepsSound(NetAfter(n, rows, listings, plans, i - 1), listings[i - 1], table, x, rows[i - 1],
        plans[i - 1]);
    }
  }

  /**
   One cycle: an order of the rows, each worker's listing and how its commands turn out, and the files that
   the cleanup removed.
   */
  datatype NetRound = NetRound(order: seq<nat>, listings: seq<seq<string>>, plans: seq<NetplanPlan>,
    removed: set<string>)

  ghost predicate ValidNetHistory(history: seq<NetRound>, table: seq<NetworkInterface>) {
    forall i :: 0 <= i < |history| ==>
      |history[i].order| == |history[i].plans| == |history[i].listings| &&
      forall t :: 0 <= t < |history[i].order| ==> history[i].order[t] < |table|
  }

  ghost function AfterNetHistory(n: NetplanNode, table: seq<NetworkInterface>, history: seq<NetRound>): NetplanNode
    requires ValidNetHistory(history, table)
  {
    if history == [] then n
    else
      var round := history[|history| - 1];
      var m := AfterNetHistory(n, table, history[..|history| - 1]);
      var m1 := NetAfter(m, Fetch(Pick(table, round.order), m.stored), round.listings, round.plans, |round.order|);
      m1.(files := m1.files - round.removed)
  }

  lemma FewerNetFiles(n: NetplanNode, table: seq<NetworkInterface>, gone: set<string>)
    requires NetSound(n, table)
    ensures NetSound(n.(files := n.files - gone), table)
  {
    hide ConfigFile;
    hide Contains;
    hide NetGood;
    hide OneDevice;
    hide Bound;
    hide FreeSlots;
    hide UnboundFrom;
    assert forall f :: f in n.files - gone ==> f in n.files;
  }

  /** Soundness is an invariant of every run of serialised cycles, whatever fails and whatever the cleanups remove. */
  lemma {:induction false} NetHistoryKeepsSound(n: NetplanNode, table: seq<NetworkInterface>, history: seq<NetRound>)
    requires NetSound(n, table) && ValidNetHistory(history, table)
    ensures NetSound(AfterNetHistory(n, table, history), table)
  {
    hide NetSound;
    hide NetAfter;
    hide AreRows;
    if history != [] {
      var init, round := history[..|history| - 1], history[|history| - 1];
      NetHistoryKeepsSound(n, table, init);
      var m := AfterNetHistory(n, table, init);
      var rows := Fetch(Pick(table, round.order), m.stored);
      FetchedRows(table, round.order, m.stored);
      NetPassKeepsSound(m, table, rows, round.listings, round.plans, |rows|);
      FewerNetFiles(NetAfter(m, rows, round.listings, round.plans, |rows|), table, round.removed);
    }
  }

  // ---- one faultless cycle ------------------------------------------------------------------

  /** The row's device has its name, the name's own file suits the row, and the row is recorded as configured. */
  predicate NetSettled(n: NetplanNode, row: NetworkInterface) {
    Bound(n.devices, row.mac) && LowestCarrying(n.devices, row.mac, {}, 0).Some? &&
    var f := ConfigFile(Name(LowestCarrying(n.devices, row.mac, {}, 0).value));
    f in n.files && !IsDrifted(row, n.files[f]) && Column(n.stored, row.id) == 1
  }

  lemma StatusIsNotDrift(a: NetworkInterface, b: NetworkInterface)
    requires b == a.(status := b.status)
    ensures forall c :: IsDrifted(a, c) <==> IsDrifted(b, c)
  {
  }

  /** In a tidy directory the worker of a settled row skips, whatever the order of the listing. */
  lemma SettledSkips(n: NetplanNode, listing: seq<string>, row: NetworkInterface)
    requires NetSettled(n, row) && Tidy(n.files) && Lists(listing, n.files.Keys)
    ensures NetplanWorker(n, listing, Current(row, n.stored), NO_NETPLAN_FAULTS).1.Skipped?
  {
    hide ConfigFile;
    hide ProcessNetplan;
    hide IsDrifted;
    hide Tidy;
    hide CheckedFile;
    hide Bound;
    ChecksOwnFile(n.files, listing, LowestCarrying(n.devices, row.mac, {}, 0).value);
    StatusIsNotDrift(row, Current(row, n.stored));
  }

  lemma {:induction false} NetSettledSurvives(n: NetplanNode, row: NetworkInterface, listing: seq<string>,
                                              other: NetworkInterface, plan: NetplanPlan)
    requires UniqueNames(n.devices) && NetSettled(n, row) && !SameMac(row.mac, other.mac) && row.id != other.id
    ensures NetSettled(NetplanWorker(n, listing, other, plan).0, row)
  {
    hide NetplanWorker;
    hide ConfigFile;
    hide IsDrifted;
    hide Bound;
    hide TookSlot;
    var (n1, o) := NetplanWorker(n, listing, other, plan);
    NetWorkerFrame(n, listing, other, plan);
    if n1 != n {
      var k := LowestCarrying(n.devices, row.mac, {}, 0).value;
      if n1.devices != n.devices {
        TakenIsBound(n.devices, n1.devices, other.mac, o.slot);
        BoundFrame(n.devices, n1.devices, row.mac, other.mac, o.slot);
      }
      NetSlotsDiffer(n.devices, row.mac, other.mac, plan.blind, k);
      ConfigFileInjective(o.slot, k);
      SameContent(n.files, n1.files, ConfigFile(Name(o.slot)), ConfigFile(Name(k)));
      SameColumn(n.stored, n1.stored, other.id, row.id);
    }
  }

  lemma SameContent(a: map<string, Content>, b: map<string, Content>, removed: string, f: string)
    requires a - {removed} == b - {removed} && f != removed && f in a
    ensures f in b && a[f] == b[f]
  {
    assert f in a - {removed};
  }

  lemma NetSlotsDiffer(devices: seq<Device>, mac: string, other: string, blind: set<Slot>, k: Slot)
    requires UniqueNames(devices) && Carries(devices, mac, {}, k) && !SameMac(mac, other)
    ensures NameFor(devices, other, blind) != Some(k)
  {
  }

  /** One faultless worker on a row of a sound node settles it. */
  lemma NetWorkerSettles(n: NetplanNode, listing: seq<string>, table: seq<NetworkInterface>, x: nat,
                         row: NetworkInterface)
    requires NetSound(n, table) && IsRow(row, table, x) && row == Current(row, n.stored) && Lists(listing, n.files.Keys)
    ensures NetSettled(NetplanWorker(n, listing, row, NO_NETPLAN_FAULTS).0, row)
  {
    hide ConfigFile;
    hide Bound;
    hide IsDrifted;
    hide NetGood;
    hide OneDevice;
    hide ProcessNetplan;
    hide TookSlot;
    hide Generated;
    hide NameFor;
    hide Tidy;
    hide FreeSlots;
    hide UnboundFrom;
    hide CheckedFile;
    assert table[x] in table;
    var (n1, o) := NetplanWorker(n, listing, row, NO_NETPLAN_FAULTS);
    NetNameAvailable(n, table, x, row);
    var k := NameFor(n.devices, row.mac, {}).value;
    if o.Skipped? {
      assert row.status == Configured;
      ChecksOwnFile(n.files, listing, k);
      BoundIsCarried(n.devices, row.mac);
    } else {
      NetProcessWorks(n, row, k) by { RowIsGood(table[x], row); }
      ProcessedIsBound(n, listing, row, NO_NETPLAN_FAULTS);
      ProcessedFile(n, listing, row, NO_NETPLAN_FAULTS, k);
      ProcessedSlot(n, listing, row, k);
      NetFreshFile(table[x], row, k);
    }
  }

  lemma RowIsGood(a: NetworkInterface, b: NetworkInterface)
    requires NetGood(a) && b == a.(status := b.status)
    ensures Validate(b) == Valid
  {
  }

  /** After a success without faults the MAC address carries the very slot it was given. */
  lemma ProcessedSlot(n: NetplanNode, listing: seq<string>, row: NetworkInterface, k: Slot)
    requires UniqueNames(n.devices) && NetplanWorker(n, listing, row, NO_NETPLAN_FAULTS).1 == Processed(k)
    ensures LowestCarrying(NetplanWorker(n, listing, row, NO_NETPLAN_FAULTS).0.devices, row.mac, {}, 0) == Some(k)
  {
    hide NetplanWorker;
    hide TookSlot;
    hide Bound;
    hide ConfigFile;
    var n1 := NetplanWorker(n, listing, row, NO_NETPLAN_FAULTS).0;
    NetWorkerFrame(n, listing, row, NO_NETPLAN_FAULTS);
    ProcessedIsBound(n, listing, row, NO_NETPLAN_FAULTS);
    if n1.devices != n.devices {
      if LowestCarrying(n.devices, row.mac, {}, 0) == None {
        OnlyCarries(n.devices, n1.devices, row.mac, k);
      } else {
        assert InUse(n.devices, Name(k));
        NotTaken(n.devices, n1.devices, row.mac, k);
      }
    } else {
      BoundIsCarried(n.devices, row.mac);
    }
  }

  lemma BoundIsCarried(devices: seq<Device>, mac: string)
    requires Bound(devices, mac)
    ensures LowestCarrying(devices, mac, {}, 0).Some? &&
            NameFor(devices, mac, {}) == LowestCarrying(devices, mac, {}, 0)
  {
    var k :| Carries(devices, mac, {}, k);
  }

  lemma NotTaken(a: seq<Device>, b: seq<Device>, mac: string, k: Slot)
    requires InUse(a, Name(k))
    ensures !TookSlot(a, b, mac, k)
  {
  }

  lemma OnlyCarries(a: seq<Device>, b: seq<Device>, mac: string, k: Slot)
    requires UniqueNames(a) && TookSlot(a, b, mac, k) && LowestCarrying(a, mac, {}, 0) == None
    ensures LowestCarrying(b, mac, {}, 0) == Some(k)
  {
    TakenIsBound(a, b, mac, k);
    var i := FirstWithMac(a, mac).value;
    CarriesHolds(b, mac, {}, k);
    assert Holds(b, i, k, mac);
    forall j: Slot | Carries(b, mac, {}, j)
      ensures j == k
    {
      CarriesHolds(b, mac, {}, j);
      CarriesHolds(a, mac, {}, j);
      var x: nat :| Holds(b, x, j, mac);
      assert x != i ==> Holds(a, x, j, mac);
      NameInjective(j, k);
    }
  }

  lemma NetNameAvailable(n: NetplanNode, table: seq<NetworkInterface>, x: nat, row: NetworkInterface)
    requires NetSound(n, table) && IsRow(row, table, x)
    ensures NameFor(n.devices, row.mac, {}).Some?
  {
    hide NetGood;
    hide Tidy;
    hide OneDevice;
    if !Bound(n.devices, row.mac) {
      assert x in UnboundFrom(n.devices, table, 0);
      assert FreeSlots(n.devices) != {};
      var k :| k in FreeSlots(n.devices);
      assert !InUse(n.devices, Name(k));
    } else {
      BoundIsCarried(n.devices, row.mac);
    }
  }

  lemma NetProcessWorks(n: NetplanNode, row: NetworkInterface, k: Slot)
    requires UniqueNames(n.devices) && OneDevice(n.devices, row.mac) && Validate(row) == Valid && row.id in n.stored
    requires NameFor(n.devices, row.mac, {}) == Some(k)
    ensures var (n1, ok) := ProcessNetplan(n, row, k, NO_NETPLAN_FAULTS); ok && n1.stored == n.stored[row.id := 1]
  {
    hide ConfigFile;
    hide Generated;
    hide OneDevice;
    hide NameFor;
    hide Validate;
    AppliedIsUsed(n.devices, row.mac, k);
  }

  lemma AppliedIsUsed(devices: seq<Device>, mac: string, k: Slot)
    requires OneDevice(devices, mac) && UniqueNames(devices) && NameFor(devices, mac, {}) == Some(k)
    ensures InUse(ApplyRename(devices, mac, k), Name(k))
  {
    var i := FirstWithMac(devices, mac).value;
    if !InUse(devices, Name(k)) {
      assert ApplyRename(devices, mac, k)[i].name == Name(k);
    }
  }

  lemma NetFreshFile(a: NetworkInterface, row: NetworkInterface, k: Slot)
    requires NetGood(a) && row == a.(status := row.status)
    ensures !IsDrifted(row, Generated(row, k))
  {
    NetplanFixedPointExactly(a, k);
    StatusIsNotDrift(a, row);
    assert Generated(a, k) == Generated(row, k);
  }

  function AllWell(count: nat): (plans: seq<NetplanPlan>)
    ensures |plans| == count && forall i :: 0 <= i < count ==> plans[i] == NO_NETPLAN_FAULTS
  {
    seq(count, _ => NO_NETPLAN_FAULTS)
  }

  /** Every worker of a faultless pass lists the directory as it is at its turn. */
  ghost predicate Listed(n: NetplanNode, rows: seq<NetworkInterface>, listings: seq<seq<string>>) {
    |listings| == |rows| && forall i: nat :: i < |rows| ==> ListedAt(n, rows, listings, i)
  }

  ghost predicate ListedAt(n: NetplanNode, rows: seq<NetworkInterface>, listings: seq<seq<string>>, i: nat)
    requires |listings| == |rows| && i < |rows|
  {
    Lists(listings[i], NetAfter(n, rows, listings, AllWell(|rows|), i).files.Keys)
  }

  lemma {:induction false} NetPassSettles(n: NetplanNode, table: seq<NetworkInterface>, listings: seq<seq<string>>,
                                          i: nat)
    requires NetSound(n, table) && i <= |table| && Listed(n, Fetch(table, n.stored), listings)
    ensures var rows := Fetch(table, n.stored);
            var m := NetAfter(n, rows, listings, AllWell(|rows|), i);
            NetSound(m, table) && (forall j :: 0 <= j < i ==> NetSettled(m, rows[j])) &&
            (forall j :: i <= j < |rows| ==> rows[j] == Current(rows[j], m.stored))
  {
    hide NetplanWorker;
    hide NetSettled;
    hide NetSound;
    hide Lists;
    var rows := Fetch(table, n.stored);
    if i > 0 {
      NetPassSettles(n, table, listings, i - 1);
      assert ListedAt(n, rows, listings, i - 1);
      NetPassStep(NetAfter(n, rows, listings, AllWell(|rows|), i - 1), table, n.stored, listings[i - 1], i - 1);
    }
  }

  /** One turn of the faultless pass: the row whose turn it is settles, and what holds of the others stays. */
  lemma NetPassStep(m: NetplanNode, table: seq<NetworkInterface>, stored: map<int, int>, listing: seq<string>, i: nat)
    requires NetSound(m, table) && i < |table| && Lists(listing, m.files.Keys)
    requires var rows := Fetch(table, stored);
             (forall j :: 0 <= j < i ==> NetSettled(m, rows[j])) &&
             (forall j :: i <= j < |rows| ==> rows[j] == Current(rows[j], m.stored))
    ensures var rows := Fetch(table, stored);
            var m1 := NetplanWorker(m, listing, rows[i], NO_NETPLAN_FAULTS).0;
            NetSound(m1, table) && (forall j :: 0 <= j <= i ==> NetSettled(m1, rows[j])) &&
            (forall j :: i < j < |rows| ==> rows[j] == Current(rows[j], m1.stored))
  {
    hide NetplanWorker;
    hide NetSettled;
    hide NetGood;
    hide OneDevice;
    hide Bound;
    hide Tidy;
    hide FreeSlots;
    hide UnboundFrom;
    hide Lists;
    hide SameMac;
    var rows := Fetch(table, stored);
    var m1 := NetplanWorker(m, listing, rows[i], NO_NETPLAN_FAULTS).0;
    assert IsRow(rows[i], table, i);
    NetWorkerKeepsSound(m, listing, table, i, rows[i], NO_NETPLAN_FAULTS);
    NetWorkerSettles(m, listing, table, i, rows[i]);
    NetWorkerFrame(m, listing, rows[i], NO_NETPLAN_FAULTS);
    forall j | 0 <= j < |rows| && j != i
      ensures if j < i then NetSettled(m1, rows[j]) else rows[j] == Current(rows[j], m1.stored)
    {
      FetchedApart(table, stored, i, j);
      if j < i {
        NetSettledSurvives(m, rows[j], listing, rows[i], NO_NETPLAN_FAULTS);
      } else {
        SameColumn(m.stored, m1.stored, rows[i].id, rows[j].id);
      }
    }
  }

  lemma FetchedApart(table: seq<NetworkInterface>, stored: map<int, int>, i: nat, j: nat)
    requires DistinctRows(table) && i < |table| && j < |table| && i != j
    ensures var rows := Fetch(table, stored); rows[i].id != rows[j].id && !SameMac(rows[j].mac, rows[i].mac)
  {
  }

  /** Nothing to do: every row's worker skips, however the directory is listed, and no file is an orphan. */
  ghost predicate NetQuiet(n: NetplanNode, rows: seq<NetworkInterface>) {
    (forall r, listing :: r in rows && Lists(listing, n.files.Keys) ==>
       NetplanWorker(n, listing, Current(r, n.stored), NO_NETPLAN_FAULTS).1.Skipped?) &&
    NetplanOrphans(n.files, {}, ActiveMacs(rows)) == {}
  }

  /** The node after a faultless pass and a cleanup whose removals work, which lists the directory as `last`. */
  ghost function NetCycle(n: NetplanNode, rows: seq<NetworkInterface>, listings: seq<seq<string>>,
                          last: seq<string>): NetplanNode
    requires |rows| == |listings|
  {
    var m := NetAfter(n, rows, listings, AllWell(|rows|), |rows|);
    m.(files := m.files - Targets(Filter(last, NetplanOrphans(m.files, {}, ActiveMacs(rows)))))
  }

  /** The listings of one faultless cycle are those of the directory. */
  ghost predicate CycleListed(n: NetplanNode, rows: seq<NetworkInterface>, listings: seq<seq<string>>,
                              last: seq<string>) {
    Listed(n, rows, listings) && Lists(last, NetAfter(n, rows, listings, AllWell(|rows|), |rows|).files.Keys)
  }

  lemma TidyIsCanonical(files: map<string, Content>)
    requires Tidy(files)
    ensures CanonicalDirectory(files)
  {
    hide ConfigFile;
    hide Contains;
  }

  lemma SettledIsNoOrphan(n: NetplanNode, rows: seq<NetworkInterface>, row: NetworkInterface)
    requires NetSettled(n, row) && row in rows && row.mac != ""
    ensures NetSettled(n.(files := n.files - NetplanOrphans(n.files, {}, ActiveMacs(rows))), row)
  {
    hide ConfigFile;
    hide IsMultinicNetplanFile;
    hide Bound;
    assert Lower(row.mac) in ActiveMacs(rows);
  }

  /**
   Convergence on the Netplan path: after one faultless cycle from a sound node, in a tidy
   directory listed in any order, every row's worker skips and nothing is left to delete.
   */
  lemma {:induction false} NetplanCycleConverges(n: NetplanNode, table: seq<NetworkInterface>,
                                                 listings: seq<seq<string>>, last: seq<string>)
    requires NetSound(n, table) && CycleListed(n, Fetch(table, n.stored), listings, last)
    ensures var rows := Fetch(table, n.stored); NetQuiet(NetCycle(n, rows, listings, last), rows)
  {
    hide NetAfter;
    hide NetSettled;
    hide NetplanWorker;
    hide NetplanOrphan;
    hide IsMultinicNetplanFile;
    hide Lists;
    var rows := Fetch(table, n.stored);
    NetPassSettles(n, table, listings, |rows|);
    var m, m1 := NetAfter(n, rows, listings, AllWell(|rows|), |rows|), NetCycle(n, rows, listings, last);
    TidyIsCanonical(m.files);
    CanonicalCleanupIsExact(m.files, {}, ActiveMacs(rows), last);
    FewerNetFiles(m, table, NetplanOrphans(m.files, {}, ActiveMacs(rows)));
    forall r, listing | r in rows && Lists(listing, m1.files.Keys)
      ensures NetplanWorker(m1, listing, Current(r, m1.stored), NO_NETPLAN_FAULTS).1.Skipped?
    {
      var j :| 0 <= j < |rows| && rows[j] == r;
      assert table[j] in table && NetGood(table[j]);
      SettledIsNoOrphan(m, rows, r);
      SettledSkips(m1, listing, r);
    }
    NothingLeft(m.files, ActiveMacs(rows));
  }

  lemma NothingLeft(files: map<string, Content>, active: set<string>)
    ensures NetplanOrphans(files - NetplanOrphans(files, {}, active), {}, active) == {}
  {
    hide IsMultinicNetplanFile;
    hide MacOfContent;
  }

  ghost predicate FetchedFrom(n: NetplanNode, rows: seq<NetworkInterface>, row: NetworkInterface) {
    exists r :: r in rows && row == Current(r, n.stored)
  }

  lemma {:induction false} NetIdlePass(n: NetplanNode, rows: seq<NetworkInterface>, again: seq<NetworkInterface>,
                                       listings: seq<seq<string>>, i: nat)
    requires NetQuiet(n, rows) && i <= |again| && Listed(n, again, listings)
    requires forall t :: 0 <= t < |again| ==> FetchedFrom(n, rows, again[t])
    ensures NetAfter(n, again, listings, AllWell(|again|), i) == n
    ensures forall t :: 0 <= t < i ==> NetplanWorker(n, listings[t], again[t], NO_NETPLAN_FAULTS).1.Skipped?
  {
    hide NetplanWorker;
    hide Lists;
    hide NetplanOrphans;
    hide NetFrame;
    hide Current;
    hide NameFor;
    if i > 0 {
      NetIdlePass(n, rows, again, listings, i - 1);
      var t := i - 1;
      assert FetchedFrom(n, rows, again[t]);
      var r :| r in rows && again[t] == Current(r, n.stored);
      assert ListedAt(n, again, listings, t);
      NetWorkerFrame(n, listings[t], again[t], NO_NETPLAN_FAULTS);
    }
  }

  lemma NetSameMacs(n: NetplanNode, rows: seq<NetworkInterface>, table: seq<NetworkInterface>)
    requires forall r :: r in table <==> r in rows
    ensures ActiveMacs(Fetch(table, n.stored)) == ActiveMacs(rows)
  {
    var again := Fetch(table, n.stored);
    forall r | r in rows
      ensures Lower(r.mac) in ActiveMacs(again)
    {
      var j :| 0 <= j < |table| && table[j] == r;
      assert again[j] in again && again[j].mac == r.mac;
    }
    forall r | r in again
      ensures Lower(r.mac) in ActiveMacs(rows)
    {
      var j :| 0 <= j < |again| && again[j] == r;
      assert table[j] in table && table[j].mac == r.mac;
    }
  }

  /**
   From a quiet node a cycle over the same rows as fetched again, in any order and with any listings, skips
   every row and changes nothing.
   */
  lemma {:induction false} NetQuietCycle(n: NetplanNode, rows: seq<NetworkInterface>, table: seq<NetworkInterface>,
                                         listings: seq<seq<string>>, last: seq<string>)
    requires NetQuiet(n, rows) && forall r :: r in table <==> r in rows
    requires CycleListed(n, Fetch(table, n.stored), listings, last)
    ensures var again := Fetch(table, n.stored);
            NetCycle(n, again, listings, last) == n && NetplanOrphans(n.files, {}, ActiveMacs(again)) == {} &&
            forall t :: 0 <= t < |again| ==> NetplanWorker(n, listings[t], again[t], NO_NETPLAN_FAULTS).1.Skipped?
  {
    hide NetplanWorker;
    hide Lists;
    hide NetplanOrphan;
    var again := Fetch(table, n.stored);
    forall t | 0 <= t < |again|
      ensures FetchedFrom(n, rows, again[t])
    {
      assert table[t] in table && again[t] == Current(table[t], n.stored);
    }
    NetIdlePass(n, rows, again, listings, |again|);
    NetSameMacs(n, rows, table);
    FilterNothing(last);
    assert n.files - {} == n.files;
  }

  lemma {:induction false} FilterNothing(listing: seq<string>)
    ensures Filter(listing, {}) == []
  {
    if listing != [] { FilterNothing(listing[..|listing| - 1]); }
  }

  /** Recovery on the Netplan path: whatever failed before, one faultless cycle brings rest. */
  lemma {:induction false} NetplanRecoversFromFaults(n: NetplanNode, table: seq<NetworkInterface>,
                                                     history: seq<NetRound>,
                                                     listings: seq<seq<string>>, last: seq<string>)
    requires NetSound(n, table) && ValidNetHistory(history, table)
    requires var m := AfterNetHistory(n, table, history); CycleListed(m, Fetch(table, m.stored), listings, last)
    ensures var m := AfterNetHistory(n, table, history);
            var rows := Fetch(table, m.stored);
            NetQuiet(NetCycle(m, rows, listings, last), rows)
  {
    hide NetSound;
    hide NetQuiet;
    hide NetCycle;
    hide CycleListed;
    NetHistoryKeepsSound(n, table, history);
    NetplanCycleConverges(AfterNetHistory(n, table, history), table, listings, last);
  }
}
