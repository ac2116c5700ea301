/**
 Rows that the Netplan path does not settle: behind another file that bears their name, with
 their name taken by another row's device.
 */
module NetplanLosses {
  import opened Options
  import opened Text
  import opened Entities
  import opened IpLink
  import opened Naming
  import opened Rhel
  import opened Cycle
  import opened Serial
  import opened Recovery
  import opened Listing
  import opened Netplan
  import opened NetplanCleanup
  import opened NetplanConvergence

  // ---- which file the drift check finds ------------------------------------------

  /** The YAML file's name contains the interface name. */
  predicate Bears(f: string, k: Slot) {
    Contains(f, Name(k)) && HasSuffix(f, ".yaml")
  }

  /** The order of a directory listing. */
  predicate Before(a: string, b: string) {
    b != "" && (a == "" || a[0] < b[0] || (a[0] == b[0] && Before(a[1..], b[1..])))
  }

  ghost predicate Ascending(listing: seq<string>) {
    forall i, j :: 0 <= i < j < |listing| ==> Before(listing[i], listing[j])
  }

  lemma {:induction false} BeforeIsStrict(a: string, b: string)
    requires Before(a, b)
    ensures a != b && !Before(b, a)
  {
    if a != "" && a[0] == b[0] {
      BeforeIsStrict(a[1..], b[1..]);
    }
  }

  /** The file is the first, in the order of listings, of those that bear the name. */
  ghost predicate FirstBearing(files: map<string, Content>, k: Slot, f: string) {
    f in files && Bears(f, k) && forall g :: g in files && g != f && Bears(g, k) ==> Before(f, g)
  }

  lemma {:induction false} FoundFirst(listing: seq<string>, k: Slot)
    ensures match FindFile(listing, Name(k))
            case None => forall g :: g in listing ==> !Bears(g, k)
            case Some(f) => f in listing && Bears(f, k)
    ensures Ascending(listing) && FindFile(listing, Name(k)).Some? ==>
              forall g :: g in listing && g != FindFile(listing, Name(k)).value && Bears(g, k) ==>
                Before(FindFile(listing, Name(k)).value, g)
  {
    hide Bears;
    if listing != [] {
      FoundFirst(listing[1..], k);
      BearsMeans(listing[0], k);
      if Ascending(listing) {
        assert Ascending(listing[1..]) by {
          forall i, j | 0 <= i < j < |listing[1..]|
            ensures Before(listing[1..][i], listing[1..][j])
          {
            assert Before(listing[i + 1], listing[j + 1]);
          }
        }
        forall g | g in listing[1..]
          ensures Before(listing[0], g)
        {
          var j :| 0 <= j < |listing[1..]| && listing[1..][j] == g;
          assert listing[j + 1] == g;
        }
      }
    }
  }

  lemma BearsMeans(f: string, k: Slot)
    ensures Bears(f, k) <==> Contains(f, Name(k)) && HasSuffix(f, ".yaml")
  {
  }

  /** On a sorted listing of the directory the drift check finds exactly the first file that bears the name. */
  lemma {:induction false} FindsFirstBearing(files: map<string, Content>, listing: seq<string>, k: Slot, f: string)
    requires Lists(listing, files.Keys) && Ascending(listing)
    ensures FindFile(listing, Name(k)) == Some(f) <==> FirstBearing(files, k, f)
  {
    hide Bears;
    hide FindFile;
    hide Ascending;
    FoundFirst(listing, k);
    var found := FindFile(listing, Name(k));
    if FirstBearing(files, k, f) && found.Some? && found.value != f {
      BeforeIsStrict(f, found.value);
    }
  }

  lemma OwnFileBears(k: Slot)
    ensures Bears(ConfigFile(Name(k)), k)
  {
    CanonicalName(k);
    var f := ConfigFile(Name(k));
    assert f[3..3 + 9] == Name(k);
    FoundIn(f, 3, Name(k));
  }

  // ---- exactly when a processed row is skipped next time ------------------------------

  /**
   After a success, the next faultless worker that gets the same name skips if and only if the first
   file in the directory that bears the name is the row's own, or is one that suits the row.
   */
  lemma {:induction false} NextSkipsExactly(n: NetplanNode, listing: seq<string>, row: NetworkInterface,
                                            plan: NetplanPlan, after: seq<string>,
                                            k: Slot, f: string)
    requires NetGood(row) && NetplanWorker(n, listing, row, plan).1 == Processed(k)
    requires var n1 := NetplanWorker(n, listing, row, plan).0;
             Lists(after, n1.files.Keys) && Ascending(after) && FirstBearing(n1.files, k, f) &&
             NameFor(n1.devices, row.mac, {}) == Some(k)
    ensures var n1 := NetplanWorker(n, listing, row, plan).0;
            NetplanWorker(n1, after, Current(row, n1.stored), NO_NETPLAN_FAULTS).1.Skipped? <==>
            f == ConfigFile(Name(k)) || !IsDrifted(row, n1.files[f])
  {
    hide NetGood;
    hide Lists;
    hide Ascending;
    hide ConfigFile;
    hide ProcessNetplan;
    hide IsDrifted;
    hide Generated;
    hide FindFile;
    var n1 := NetplanWorker(n, listing, row, plan).0;
    ProcessedFile(n, listing, row, plan, k);
    FindsFirstBearing(n1.files, after, k, f);
    NetFreshFile(row, row, k);
    StatusIsNotDrift(row, Current(row, n1.stored));
  }

  /** There is always such a file after a success: the row's own bears the name. */
  lemma SomeFileBears(n: NetplanNode, listing: seq<string>, row: NetworkInterface, plan: NetplanPlan,
                      after: seq<string>, k: Slot)
    requires NetplanWorker(n, listing, row, plan).1 == Processed(k)
    requires Lists(after, NetplanWorker(n, listing, row, plan).0.files.Keys) && Ascending(after)
    ensures exists f :: FirstBearing(NetplanWorker(n, listing, row, plan).0.files, k, f)
  {
    hide NetplanWorker;
    hide ConfigFile;
    hide Bears;
    hide FindFile;
    var files := NetplanWorker(n, listing, row, plan).0.files;
    ProcessedFile(n, listing, row, plan, k);
    OwnFileBears(k);
    FoundFirst(after, k);
    FindsFirstBearing(files, after, k, FindFile(after, Name(k)).value);
  }

  // ---- a row in another file's shadow ---------------------------------------------------

  /** Another file, ahead of the row's own, bears the name and differs from the row. */
  ghost predicate Shadow(files: map<string, Content>, row: NetworkInterface, k: Slot, f: string) {
    FirstBearing(files, k, f) && Before(f, ConfigFile(Name(k))) && IsDrifted(row, files[f])
  }

  /** A shadowed row is processed again by every worker, and stays shadowed, whatever works and whatever fails. */
  lemma {:induction false} ShadowedRowNeverSettles(n: NetplanNode, listing: seq<string>, row: NetworkInterface,
                                                   plan: NetplanPlan, k: Slot, f: string)
    requires Shadow(n.files, row, k, f) && Lists(listing, n.files.Keys) && Ascending(listing)
    requires NameFor(n.devices, row.mac, plan.blind) == Some(k)
    ensures var (n1, o) := NetplanWorker(n, listing, row, plan);
            (o == Processed(k) || o == Outcome.Failed(k)) && Shadow(n1.files, row, k, f)
  {
    hide ConfigFile;
    hide Lists;
    hide Ascending;
    hide Bears;
    hide ProcessNetplan;
    hide IsDrifted;
    hide FindFile;
    var (n1, o) := NetplanWorker(n, listing, row, plan);
    FindsFirstBearing(n.files, listing, k, f);
    NetWorkerFrame(n, listing, row, plan);
    BeforeIsStrict(f, ConfigFile(Name(k)));
    SameContent(n.files, n1.files, ConfigFile(Name(k)), f);
    forall g | g in n1.files && g != f && Bears(g, k)
      ensures Before(f, g)
    {
      if g != ConfigFile(Name(k)) { SameContent(n1.files, n.files, ConfigFile(Name(k)), g); }
    }
  }

  /**
   When the directory cannot be listed the check turns to the row's own file, as on an empty listing: then even
   a shadowed row is skipped if that file suits it and the row is configured.
   */
  lemma {:induction false} UnlistedChecksOwnFile(n: NetplanNode, row: NetworkInterface, plan: NetplanPlan, k: Slot)
    requires NameFor(n.devices, row.mac, plan.blind) == Some(k)
    ensures NetplanWorker(n, [], row, plan).1.Skipped? <==>
            ConfigFile(Name(k)) in n.files && plan.readable && !IsDrifted(row, n.files[ConfigFile(Name(k))]) &&
            row.status != Pending
  {
    hide ConfigFile;
    hide ProcessNetplan;
    hide IsDrifted;
    hide NameFor;
  }

  function OldFile(k: Slot): string {
    "00-" + Name(k) + ".yaml"
  }

  /** Such a file: `00-multinic0.yaml` comes ahead of `90-multinic0.yaml`, and the cleanup leaves it alone. */
  lemma {:induction false} OldFileShadows(k: Slot)
    ensures Before(OldFile(k), ConfigFile(Name(k))) && Bears(OldFile(k), k) && !IsMultinicNetplanFile(OldFile(k))
  {
    CanonicalName(k);
    var f := OldFile(k);
    assert f[0] == '0' && ConfigFile(Name(k))[0] == '9';
    assert f[3..3 + 9] == Name(k);
    FoundIn(f, 3, Name(k));
    assert f[..1] == "0";
  }

  /** A directory with that file and the row's own: the row is shadowed. */
  lemma {:induction false} ShadowedDirectory(row: NetworkInterface, k: Slot, stale: Content)
    requires IsDrifted(row, stale)
    ensures Shadow(map[OldFile(k) := stale, ConfigFile(Name(k)) := Generated(row, k)], row, k, OldFile(k))
  {
    hide ConfigFile;
    hide IsDrifted;
    hide Bears;
    hide Before;
    OldFileShadows(k);
    BeforeIsStrict(OldFile(k), ConfigFile(Name(k)));
  }

  // ---- a row whose name is taken ----------------------------------------------------------

  /**
   A faultless worker on a valid row succeeds whatever has become of the name it was given, and the row
   is recorded as configured; its device has the name afterwards exactly if the name was its own or free.
   */
  lemma {:induction false} TakenNamePasses(n: NetplanNode, row: NetworkInterface, k: Slot)
    requires UniqueNames(n.devices) && OneDevice(n.devices, row.mac) && Validate(row) == Valid && row.id in n.stored
    ensures var (n1, ok) := ProcessNetplan(n, row, k, NO_NETPLAN_FAULTS);
            ok && n1.stored == n.stored[row.id := 1] && n1.files == n.files[ConfigFile(Name(k)) := Generated(row, k)] &&
            (HasSlot(n1.devices, row.mac, k) <==> OwnOrFree(n.devices, row.mac, k))
  {
    hide ConfigFile;
    hide Generated;
    hide Validate;
    hide OwnOrFree;
    hide HasSlot;
    hide ApplyRename;
    AppliedTable(n.devices, row.mac, k);
  }

  lemma AppliedTable(devices: seq<Device>, mac: string, k: Slot)
    requires UniqueNames(devices) && OneDevice(devices, mac)
    ensures var b := ApplyRename(devices, mac, k);
            InUse(b, Name(k)) && (HasSlot(b, mac, k) <==> OwnOrFree(devices, mac, k))
  {
    var i := FirstWithMac(devices, mac).value;
    var b := ApplyRename(devices, mac, k);
    if !InUse(devices, Name(k)) {
      assert Holds(b, i, k, mac);
    }
  }

  /**
   Two rows without names are given the same one; both succeed and are recorded, the first has the name but no
   longer its document, and the second has its document but not the name.
   */
  lemma {:induction false} OneNameForTwo(n: NetplanNode, a: NetworkInterface, b: NetworkInterface, k: Slot)
    requires UniqueNames(n.devices) && OneDevice(n.devices, a.mac) && OneDevice(n.devices, b.mac)
    requires Validate(a) == Valid && Validate(b) == Valid && !SameMac(a.mac, b.mac)
    requires a.id != b.id && a.id in n.stored && b.id in n.stored
    requires !Bound(n.devices, a.mac) && !Bound(n.devices, b.mac) && LowestFree(n.devices, 0) == Some(k)
    ensures NameFor(n.devices, a.mac, {}) == Some(k) && NameFor(n.devices, b.mac, {}) == Some(k)
    ensures var (m, first) := ProcessNetplan(n, a, k, NO_NETPLAN_FAULTS);
            var (m1, second) := ProcessNetplan(m, b, k, NO_NETPLAN_FAULTS);
            first && second && Column(m1.stored, a.id) == 1 && Column(m1.stored, b.id) == 1 &&
            HasSlot(m1.devices, a.mac, k) && !HasSlot(m1.devices, b.mac, k) &&
            m1.files == n.files[ConfigFile(Name(k)) := Generated(b, k)]
  {
    hide ProcessNetplan;
    hide ConfigFile;
    hide Generated;
    hide Validate;
    hide OneDevice;
    hide Bound;
    hide HasSlot;
    hide OwnOrFree;
    hide TookSlot;
    hide ApplyRename;
    UnnamedFor(n.devices, a.mac);
    UnnamedFor(n.devices, b.mac);
    TakenNamePasses(n, a, k);
    ProcessedTable(n, a, k);
    var m := ProcessNetplan(n, a, k, NO_NETPLAN_FAULTS).0;
    FirstTakes(n.devices, a.mac, b.mac, k);
    TakenNamePasses(m, b, k);
    ProcessedTable(m, b, k);
    NameStaysTaken(m.devices, a.mac, b.mac, k);
  }

  lemma ProcessedTable(n: NetplanNode, row: NetworkInterface, k: Slot)
    requires ProcessNetplan(n, row, k, NO_NETPLAN_FAULTS).1
    ensures ProcessNetplan(n, row, k, NO_NETPLAN_FAULTS).0.devices == ApplyRename(n.devices, row.mac, k)
  {
    hide ConfigFile;
    hide Generated;
    hide ApplyRename;
  }

  lemma FirstTakes(devices: seq<Device>, mac: string, other: string, k: Slot)
    requires UniqueNames(devices) && OneDevice(devices, mac) && OneDevice(devices, other) && !SameMac(mac, other)
    requires LowestFree(devices, 0) == Some(k)
    ensures var b := ApplyRename(devices, mac, k);
            UniqueNames(b) && OneDevice(b, other) && HasSlot(b, mac, k) && OwnOrFree(devices, mac, k)
  {
    hide OnlyRenames;
    hide Bound;
    var i := FirstWithMac(devices, mac).value;
    var b := ApplyRename(devices, mac, k);
    assert TookSlot(devices, b, mac, k);
    TakenIsBound(devices, b, mac, k);
    FirstStays(devices, b, other, mac, k);
    assert Holds(b, i, k, mac);
  }

  lemma FirstStays(a: seq<Device>, b: seq<Device>, other: string, mac: string, k: Slot)
    requires OnlyRenames(a, b, mac, k) && OneDevice(a, other)
    ensures OneDevice(b, other)
  {
    OneDeviceFrame(a, b, other, mac, k);
  }

  /** What the name's owner has, another MAC address neither has nor gets. */
  lemma NameStaysTaken(devices: seq<Device>, mac: string, other: string, k: Slot)
    requires UniqueNames(devices) && HasSlot(devices, mac, k) && !SameMac(mac, other)
    ensures ApplyRename(devices, other, k) == devices && !OwnOrFree(devices, other, k)
  {
    var i: nat :| Holds(devices, i, k, mac);
    assert InUse(devices, Name(k));
  }

  /**
   As on RHEL, of two rows whose devices have lost their names the configured one is skipped for its
   old file, and the other takes name and file.
   */
  lemma {:induction false} NetLostSlotIsStolen(n: NetplanNode, listing: seq<string>, a: NetworkInterface,
                                               b: NetworkInterface, k: Slot)
    requires UniqueNames(n.devices) && Tidy(n.files) && Lists(listing, n.files.Keys)
    requires NetGood(a) && NetGood(b) && !SameMac(a.mac, b.mac) && OneDevice(n.devices, b.mac)
    requires a.status == Configured && a == Current(a, n.stored) && b.id in n.stored
    requires !Bound(n.devices, a.mac) && !Bound(n.devices, b.mac) && LowestFree(n.devices, 0) == Some(k)
    requires ConfigFile(Name(k)) in n.files && n.files[ConfigFile(Name(k))] == Generated(a, k)
    ensures NetplanWorker(n, listing, a, NO_NETPLAN_FAULTS) == (n, Skipped(k))
    ensures var (n1, o) := NetplanWorker(n, listing, b, NO_NETPLAN_FAULTS);
            o == Processed(k) && n1.files == n.files[ConfigFile(Name(k)) := Generated(b, k)] &&
              !Bound(n1.devices, a.mac)
  {
    hide ConfigFile;
    hide Generated;
    hide NetGood;
    hide Tidy;
    hide Lists;
    hide Bound;
    hide OneDevice;
    hide ProcessNetplan;
    hide IsDrifted;
    hide CheckedFile;
    hide LowestFree;
    hide TookSlot;
    UnnamedFor(n.devices, a.mac);
    UnnamedFor(n.devices, b.mac);
    ChecksOwnFile(n.files, listing, k);
    NetFreshFile(a, a, k);
    OtherDocumentDrifts(a, b, k);
    RowIsGood(b, b);
    NetProcessWorks(n, b, k);
    ProcessedFile(n, listing, b, NO_NETPLAN_FAULTS, k);
    var n1 := NetplanWorker(n, listing, b, NO_NETPLAN_FAULTS).0;
    NetWorkerFrame(n, listing, b, NO_NETPLAN_FAULTS);
    if n1.devices != n.devices {
      TakenIsBound(n.devices, n1.devices, b.mac, k);
      BoundFrame(n.devices, n1.devices, a.mac, b.mac, k);
    }
  }

  lemma UnnamedFor(devices: seq<Device>, mac: string)
    requires !Bound(devices, mac)
    ensures NameFor(devices, mac, {}) == LowestFree(devices, 0)
  {
  }

  lemma OtherDocumentDrifts(a: NetworkInterface, b: NetworkInterface, k: Slot)
    requires !SameMac(a.mac, b.mac)
    ensures IsDrifted(b, Generated(a, k))
  {
  }
}
