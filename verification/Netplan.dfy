/**
 The Netplan path: the generated document, drift detection on it, what a worker does to the
 node, and rollback. Marshalling is taken to round-trip, so a file is its document.
 */
module Netplan {
  import opened Options
  import opened Text
  import opened Entities
  import opened IpLink
  import opened Naming
  import opened Ifcfg
  import opened Rhel
  import opened Cidr

  /** One entry of the document's ethernets, in the order in which Go visits them. */
  datatype Ethernet = Ethernet(key: string, mac: string, setName: string, addresses: seq<string>, mtu: int)

  datatype Content = Unparsable | Document(ethernets: seq<Ethernet>)

  datatype NetplanNode = NetplanNode(devices: seq<Device>, files: map<string, Content>, stored: map<int, int>)

  /** A write is done, cut off leaving whatever parses or does not, or never started. */
  datatype DocumentWrite = Saved | CutShort(left: Content) | NotSaved

  /** How the commands of one worker turn out; a rollback is a removal and an apply. */
  datatype NetplanPlan = NetplanPlan(
    blind: set<Slot>, readable: bool, write: DocumentWrite,
    tried: bool,             // `netplan try`
    removeTried: bool,       // the removal after a failed try
    apply: bool,             // `netplan apply`
    removeInner: bool, applyInner: bool,   // the adapter's own rollback after a failed apply
    up: bool,                // `ip link show <name> up` in Validate
    remove: bool, applyAfter: bool,        // the use case's rollback
    saveConfigured: bool, saveFailed: bool)

  // ---- file names --------------------------------------------------------------

  function ExtractInterfaceIndex(name: string): int {
    if HasPrefix(name, "multinic") then
      match Atoi(TrimPrefix(name, "multinic")) case None => 0 case Some(i) => i
    else 0
  }

  function ConfigFile(name: string): string {
    "9" + Itoa(ExtractInterfaceIndex(name)) + "-" + name + ".yaml"
  }

  // ---- the document --------------------------------------------------------------

  function Addresses(row: NetworkInterface): seq<string> {
    if HasIp(row) then [row.address + ['/'] + PrefixOf(row.cidr).value] else []
  }

  function Generated(row: NetworkInterface, k: Slot): Content {
    var mtu := if HasIp(row) && row.mtu > 0 then row.mtu as int else 0;
    Document([Ethernet(Name(k), row.mac, Name(k), Addresses(row), mtu)])
  }

  /** The generator as the adapter runs it, filling in the entry step by step. */
  method GenerateNetplanConfig(row: NetworkInterface, k: Slot) returns (doc: Content)
    ensures doc == Generated(row, k)
  {
    var ethernet := Ethernet(Name(k), row.mac, Name(k), [], 0);
    if row.address != "" && row.cidr != "" {
      var parts := Split(row.cidr, '/');
      if |parts| == 2 {
        ethernet := ethernet.(addresses := [row.address + ['/'] + parts[1]]);
        if row.mtu > 0 {
          ethernet := ethernet.(mtu := row.mtu as int);
        }
      }
    }
    doc := Document([ethernet]);
  }

  // ---- drift -----------------------------------------------------------------------

  datatype FileConfig = FileConfig(mac: string, address: string, cidr: string, mtu: int, hasAddresses: bool)

  /** The settings of one entry: its first address re-derived from CIDR notation, or raw if that fails. */
  function EntryConfig(e: Ethernet): FileConfig {
    if e.addresses == [] then FileConfig(e.mac, "", "", e.mtu, false)
    else match ParseCidr(e.addresses[0])
         case None => FileConfig(e.mac, e.addresses[0], "", e.mtu, true)
         case Some(p) => FileConfig(e.mac, PrintIp(p.0), PrintNetwork(p.0, p.1), e.mtu, true)
  }

  function DocumentConfig(ethernets: seq<Ethernet>): FileConfig {
    if ethernets == [] then FileConfig("", "", "", 0, false) else EntryConfig(ethernets[0])
  }

  /** The reader as the use case runs it: a loop over the entries that stops after the first. */
  method ExtractNetplanConfig(ethernets: seq<Ethernet>) returns (config: FileConfig)
    ensures config == DocumentConfig(ethernets)
  {
    config := FileConfig("", "", "", 0, false);
    for i := 0 to |ethernets|
      invariant i == 0 && config == FileConfig("", "", "", 0, false)
    {
      var e := ethernets[i];
      config := config.(mac := e.mac, hasAddresses := |e.addresses| > 0, mtu := e.mtu);
      if config.hasAddresses {
        var parsed := ParseCidr(e.addresses[0]);
        if parsed.Some? {
          config := config.(address := PrintIp(parsed.value.0), cidr := PrintNetwork(parsed.value.0, parsed.value.1));
        } else {
          config := config.(address := e.addresses[0], cidr := "");
        }
      }
      break;
    }
  }

  predicate ConfigDrift(row: NetworkInterface, file: FileConfig) {
    (!file.hasAddresses && row.address != "") ||
    row.address != file.address || row.cidr != file.cidr || row.mtu != file.mtu
  }

  predicate IsDrifted(row: NetworkInterface, content: Content) {
    content.Unparsable? ||
    var file := DocumentConfig(content.ethernets);
    file.mac != row.mac || ConfigDrift(row, file)
  }

  /** Rows whose own document satisfies the drift check, described without the parser. */
  ghost predicate NetplanFixedPoint(row: NetworkInterface) {
    (row.address == "" && row.cidr == "" && row.mtu == 0) ||
    (row.mtu >= 0 && exists ip: Ipv4, n: nat :: IsCidrOf(row, ip, n))
  }

  /** The address is the canonical text of `ip`, and the CIDR is the masked network with that prefix length. */
  predicate IsCidrOf(row: NetworkInterface, ip: Ipv4, n: nat) {
    n <= 32 && row.address == PrintIp(ip) && row.cidr == PrintNetwork(ip, n)
  }

  lemma CutAtFirst(address: string, prefix: string)
    ensures '/' !in address ==> Cut(address + ['/'] + prefix, '/') == Some((address, prefix))
    ensures '/' in address && '/' !in prefix ==>
              Cut(address + ['/'] + prefix, '/').Some? && '/' in Cut(address + ['/'] + prefix, '/').value.1
  {
    var s := address + ['/'] + prefix;
    if '/' in address {
      CutParts(s, '/');
      CutParts(address, '/');
      var p, q := Cut(s, '/').value, Cut(address, '/').value;
      assert address == q.0 + ['/'] + q.1;
      assert s == q.0 + ['/'] + (q.1 + ['/'] + prefix);
      CutKeyed(q.0, '/', q.1 + ['/'] + prefix);
    } else {
      CutKeyed(address, '/', prefix);
    }
  }

  /** A row that is the CIDR of an address: what its parts are. */
  lemma CidrRowParts(row: NetworkInterface, ip: Ipv4, n: nat)
    requires IsCidrOf(row, ip, n)
    ensures HasIp(row) && PrefixOf(row.cidr) == Some(Digits(n)) && '/' !in row.address
    ensures ParseCidr(Addresses(row)[0]) == Some((ip, n))
  {
    PrintedChars(ip);
    PrintedChars(Masked(ip, n));
    assert !IsDigit('/');
    PrefixOfPair(PrintIp(Masked(ip, n)), Digits(n));
    CutAtFirst(row.address, Digits(n));
    IpRoundTrip(ip);
    ValueDigits(n);
  }

  /** If the written address parses and gives back the row, the row is the CIDR of what was parsed. */
  lemma ParsedRow(row: NetworkInterface)
    requires HasIp(row) && ParseCidr(Addresses(row)[0]).Some?
    ensures var p := ParseCidr(Addresses(row)[0]).value; row.address == PrintIp(p.0)
  {
    CutAtFirst(row.address, PrefixOf(row.cidr).value);
    var p := Cut(Addresses(row)[0], '/').value;
    assert !IsDigit('/');
    assert '/' !in row.address;
    IpCanonical(row.address);
  }

  /**
   The document just generated for a row with an IPv4 address is judged not drifted exactly
   for these rows; every other row is rewritten in every cycle.
   */
  lemma {:induction false} NetplanFixedPointExactly(row: NetworkInterface, k: Slot)
    requires ':' !in row.address
    ensures !IsDrifted(row, Generated(row, k)) <==> NetplanFixedPoint(row)
  {
    var file := DocumentConfig(Generated(row, k).ethernets);
    if ip: Ipv4, n: nat :| IsCidrOf(row, ip, n) {
      CidrRowParts(row, ip, n);
      PrintedChars(ip);
    }
    if HasIp(row) {
      var parsed := ParseCidr(Addresses(row)[0]);
      if parsed.Some? {
        ParsedRow(row);
        var ip, n := parsed.value.0, parsed.value.1;
        assert file.cidr == row.cidr ==> IsCidrOf(row, ip, n);
      } else {
        assert |file.address| > |row.address|;
      }
    } else {
      assert file.address == "" && !file.hasAddresses && file.mtu == 0;
    }
  }

  lemma SameCidrText(a: Ipv4, b: Ipv4, m: nat, n: nat)
    requires PrintIp(a) + ['/'] + Digits(m) == PrintIp(b) + ['/'] + Digits(n)
    ensures a == b && m == n
  {
    PrintedChars(a);
    PrintedChars(b);
    CutKeyed(PrintIp(a), '/', Digits(m));
    CutKeyed(PrintIp(b), '/', Digits(n));
    IpRoundTrip(a);
    IpRoundTrip(b);
    ValueDigits(m);
    ValueDigits(n);
  }

  /** A row whose CIDR names its own address is stable exactly when that address is its own network. */
  lemma {:induction false} HostBitsDrift(row: NetworkInterface, k: Slot, ip: Ipv4, n: nat)
    requires n <= 32 && row.address == PrintIp(ip) && row.cidr == PrintIp(ip) + ['/'] + Digits(n)
    ensures !IsDrifted(row, Generated(row, k)) <==> row.mtu >= 0 && Masked(ip, n) == ip
  {
    hide IsDrifted;
    hide PrintIp;
    hide Masked;
    PrintedChars(ip);
    NetplanFixedPointExactly(row, k);
    if i: Ipv4, m: nat :| IsCidrOf(row, i, m) {
      IpRoundTrip(ip);
      IpRoundTrip(i);
      SameCidrText(Masked(i, m), ip, m, n);
    }
    if Masked(ip, n) == ip {
      assert IsCidrOf(row, ip, n);
    }
  }

  // ---- the node under a worker ----------------------------------------------------------

  /** The device of the MAC address gets the name, unless it is taken. */
  function ApplyRename(devices: seq<Device>, mac: string, k: Slot): seq<Device> {
    match FirstWithMac(devices, mac)
    case None => devices
    case Some(i) => if InUse(devices, Name(k)) then devices else devices[i := Device(Name(k), devices[i].mac)]
  }

  /**
   What a successful `netplan apply` of a document does: the device that its first entry matches gets the name
   that the entry sets, unless that name is taken.
   */
  function ApplyDocument(devices: seq<Device>, doc: Content): seq<Device> {
    if doc.Unparsable? || doc.ethernets == [] then devices
    else
      var e := doc.ethernets[0];
      match FirstWithMac(devices, e.mac)
      case None => devices
      case Some(i) => if InUse(devices, e.setName) then devices else devices[i := Device(e.setName, devices[i].mac)]
  }

  /** Of the row's own document, it names the row's device. */
  function Applied(devices: seq<Device>, row: NetworkInterface, k: Slot): (r: seq<Device>)
    ensures r == ApplyRename(devices, row.mac, k)
  {
    ApplyDocument(devices, Generated(row, k))
  }

  function WriteDocument(files: map<string, Content>, name: string, doc: Content, write: DocumentWrite)
    : (map<string, Content>, bool)
  {
    match write
    case NotSaved => (files, false)
    case CutShort(left) => (files[name := left], false)
    case Saved => (files[name := doc], true)
  }

  function RollbackNetplan(n: NetplanNode, name: string, remove: bool, apply: bool): (NetplanNode, bool) {
    if ConfigFile(name) in n.files && !remove then (n, false)
    else (n.(files := n.files - {ConfigFile(name)}), apply)
  }

  function ConfigureNetplan(n: NetplanNode, row: NetworkInterface, k: Slot, plan: NetplanPlan): (NetplanNode, bool) {
    var f := ConfigFile(Name(k));
    var (files, written) := WriteDocument(n.files, f, Generated(row, k), plan.write);
    var n1 := n.(files := files);
    if !written then (n1, false)
    else if !plan.tried then (if plan.removeTried then n1.(files := n1.files - {f}) else n1, false)
    else if !plan.apply then (RollbackNetplan(n1, Name(k), plan.removeInner, plan.applyInner).0, false)
    else (n1.(devices := Applied(n.devices, row, k)), true)
  }

  predicate ValidateNetplan(n: NetplanNode, k: Slot, plan: NetplanPlan) {
    InUse(n.devices, Name(k)) && plan.up
  }

  function InstallNetplan(n: NetplanNode, row: NetworkInterface, k: Slot, plan: NetplanPlan): (NetplanNode, bool) {
    var (n1, configured) := ConfigureNetplan(n, row, k, plan);
    if configured && ValidateNetplan(n1, k, plan) then (n1, true)
    else (RollbackNetplan(n1, Name(k), plan.remove, plan.applyAfter).0, false)
  }

  function SaveNetplan(n: NetplanNode, id: int, status: Status, works: bool): (NetplanNode, bool) {
    var (stored, ok) := StoreStatus(n.stored, id, status, works);
    (n.(stored := stored), ok)
  }

  function ProcessNetplan(n: NetplanNode, row: NetworkInterface, k: Slot, plan: NetplanPlan): (NetplanNode, bool) {
    if Validate(row) != Valid then (n, false)
    else
      var (n1, installed) := InstallNetplan(n, row, k, plan);
      if installed then SaveNetplan(n1, row.id, Configured, plan.saveConfigured) else (n1, false)
  }

  /** The first listed YAML file whose name contains the interface name; a listing that fails counts as empty. */
  function FindFile(listing: seq<string>, name: string): Option<string> {
    if listing == [] then None
    else if Contains(listing[0], name) && HasSuffix(listing[0], ".yaml") then Some(listing[0])
    else FindFile(listing[1..], name)
  }

  function CheckedFile(listing: seq<string>, k: Slot): string {
    match FindFile(listing, Name(k)) case None => ConfigFile(Name(k)) case Some(f) => f
  }

  predicate NetplanNeedsProcessing(n: NetplanNode, listing: seq<string>, row: NetworkInterface, k: Slot,
                                   readable: bool) {
    var f := CheckedFile(listing, k);
    f !in n.files || !readable || IsDrifted(row, n.files[f]) || row.status == Pending
  }

  function NetplanWorker(n: NetplanNode, listing: seq<string>, row: NetworkInterface,
                         plan: NetplanPlan): (NetplanNode, Outcome) {
    match NameFor(n.devices, row.mac, plan.blind)
    case None => (n, Unnamed)
    case Some(k) =>
      if !NetplanNeedsProcessing(n, listing, row, k, plan.readable) then (n, Skipped(k))
      else
        var (n1, ok) := ProcessNetplan(n, row, k, plan);
        if ok then (n1, Processed(k))
          else (SaveNetplan(n1, row.id, Status.Failed, plan.saveFailed).0, Outcome.Failed(k))
  }

  // ---- the adapter and the worker on a mutable host ----------------------------------------

  class NetplanHost {
    var devices: seq<Device>
    var files: map<string, Content>
    var stored: map<int, int>

    ghost function State(): NetplanNode
      reads this
    {
      NetplanNode(devices, files, stored)
    }

    constructor (devices: seq<Device>, files: map<string, Content>, stored: map<int, int>)
      ensures State() == NetplanNode(devices, files, stored)
    {
      this.devices, this.files, this.stored := devices, files, stored;
    }

    method WriteFile(name: string, doc: Content, write: DocumentWrite) returns (ok: bool)
      modifies this`files
      ensures (files, ok) == WriteDocument(old(files), name, doc, write)
    {
      ok := write.Saved?;
      if !write.NotSaved? {
        files := files[name := if ok then doc else write.left];
      }
    }

    method Apply(doc: Content)
      modifies this`devices
      ensures devices == ApplyDocument(old(devices), doc)
    {
      if doc.Document? && doc.ethernets != [] {
        var e := doc.ethernets[0];
        var found := FirstWithMac(devices, e.mac);
        if found.Some? && !InUse(devices, e.setName) {
          devices := devices[found.value := Device(e.setName, devices[found.value].mac)];
        }
      }
    }
  }

  method Rollback(host: NetplanHost, name: string, remove: bool, apply: bool) returns (ok: bool)
    modifies host`files
    ensures (host.State(), ok) == RollbackNetplan(old(host.State()), name, remove, apply)
  {
    var f := ConfigFile(name);
    if f in host.files {
      if !remove {
        return false;
      }
      host.files := host.files - {f};
    } else {
      assert host.files - {f} == host.files;
    }
    ok := apply;
  }

  method Configure(host: NetplanHost, row: NetworkInterface, k: Slot, plan: NetplanPlan) returns (ok: bool)
    modifies host
    ensures (host.State(), ok) == ConfigureNetplan(old(host.State()), row, k, plan)
  {
    var f := ConfigFile(Name(k));
    var doc := GenerateNetplanConfig(row, k);
    var written := host.WriteFile(f, doc, plan.write);
    if !written {
      return false;
    }
    if !plan.tried {
      if plan.removeTried {
        host.files := host.files - {f};
      }
      return false;
    }
    if !plan.apply {
      var _ := Rollback(host, Name(k), plan.removeInner, plan.applyInner);
      return false;
    }
    host.Apply(doc);
    ok := true;
  }

  method ProcessInterface(host: NetplanHost, row: NetworkInterface, k: Slot, plan: NetplanPlan) returns (ok: bool)
    modifies host
    ensures (host.State(), ok) == ProcessNetplan(old(host.State()), row, k, plan)
  {
    if Validate(row) != Valid {
      return false;
    }
    var configured := Configure(host, row, k, plan);
    if !configured || !(InUse(host.devices, Name(k)) && plan.up) {
      var _ := Rollback(host, Name(k), plan.remove, plan.applyAfter);
      return false;
    }
    var (stored, saved) := StoreStatus(host.stored, row.id, Configured, plan.saveConfigured);
    host.stored := stored;
    ok := saved;
  }

  method FindNetplanFileForInterface(listing: seq<string>, name: string) returns (file: Option<string>)
    ensures file == FindFile(listing, name)
  {
    for i := 0 to |listing|
      invariant FindFile(listing, name) == FindFile(listing[i..], name)
    {
      assert listing[i..][1..] == listing[i + 1..];
      if Contains(listing[i], name) && HasSuffix(listing[i], ".yaml") {
        return Some(listing[i]);
      }
    }
    return None;
  }

  /** Whether the row needs processing: no file, one that cannot be read or differs, or a pending status. */
  method CheckNetplanNeedProcessing(host: NetplanHost, listing: seq<string>, row: NetworkInterface, k: Slot,
                                    readable: bool) returns (needed: bool)
    ensures needed == NetplanNeedsProcessing(host.State(), listing, row, k, readable)
  {
    hide ConfigFile;
    hide EntryConfig;
    hide ConfigDrift;
    hide FindFile;
    var found := FindNetplanFileForInterface(listing, Name(k));
    var f := if found.Some? then found.value else ConfigFile(Name(k));
    var drifted := false;
    var exists' := f in host.files;
    if exists' {
      if !readable || host.files[f].Unparsable? {
        drifted := true;
      } else {
        var config := ExtractNetplanConfig(host.files[f].ethernets);
        drifted := config.mac != row.mac || ConfigDrift(row, config);
      }
    }
    needed := !exists' || drifted || row.status == Pending;
  }

  method ProcessInterfaceWithCheck(host: NetplanHost, listing: seq<string>, row: NetworkInterface, plan: NetplanPlan)
    returns (outcome: Outcome)
    modifies host
    ensures (host.State(), outcome) == NetplanWorker(old(host.State()), listing, row, plan)
  {
    hide ProcessNetplan;
    hide NetplanNeedsProcessing;
    hide NameFor;
    hide StoreStatus;
    var slot := GenerateNextNameForMAC(host.devices, row.mac, plan.blind);
    if slot.None? {
      return Unnamed;
    }
    var k := slot.value;
    var needed := CheckNetplanNeedProcessing(host, listing, row, k, plan.readable);
    if needed {
      var ok := ProcessInterface(host, row, k, plan);
      if ok {
        return Processed(k);
      }
      var (stored, _) := StoreStatus(host.stored, row.id, Status.Failed, plan.saveFailed);
      host.stored := stored;
      return Outcome.Failed(k);
    }
    return Skipped(k);
  }

  // ---- rollback and retry ------------------------------------------------------------------

  /**
   A failure in Configure or Validate, with the use case's removal working: the slot's file is
   gone and every other file is as before, whichever of the adapter's own removals worked.
   */
  lemma {:induction false} NetplanRollbackEffect(n: NetplanNode, row: NetworkInterface, k: Slot, plan: NetplanPlan)
    requires !InstallNetplan(n, row, k, plan).1 && plan.remove
    ensures var n1 := InstallNetplan(n, row, k, plan).0;
            var f := ConfigFile(Name(k));
            n1.files == n.files - {f} && (n1.files == n.files <==> f !in n.files)
  {
    hide ConfigFile;
    var f := ConfigFile(Name(k));
    var c := ConfigureNetplan(n, row, k, plan).0;
    assert c.files - {f} == n.files - {f};
    assert f !in n.files ==> n.files - {f} == n.files;
  }

  lemma {:induction false} NetplanRollbackTwice(n: NetplanNode, name: string, remove: bool, apply: bool)
    ensures var once := RollbackNetplan(n, name, remove, apply).0;
            RollbackNetplan(once, name, remove, apply).0 == once
  {
    hide ConfigFile;
    var f := ConfigFile(name);
    assert n.files - {f} - {f} == n.files - {f};
  }

  /** A recorded failure makes the row Pending, so that no later worker for it skips, whatever the node looks like. */
  lemma {:induction false} NetplanFailureIsRetried(n: NetplanNode, listing: seq<string>, row: NetworkInterface,
                                                   plan: NetplanPlan,
                                                   later: NetplanNode, laterListing: seq<string>, next: NetplanPlan)
    requires NetplanWorker(n, listing, row, plan).1.Failed? && plan.saveFailed && row.id in n.stored
    requires Column(later.stored, row.id) == Column(NetplanWorker(n, listing, row, plan).0.stored, row.id)
    ensures !NetplanWorker(later, laterListing, Current(row, later.stored), next).1.Skipped?
  {
    hide ProcessNetplan;
    hide IsDrifted;
    hide CheckedFile;
    ProcessColumns(n, row, NetplanWorker(n, listing, row, plan).1.slot, plan);
  }

  lemma ProcessColumns(n: NetplanNode, row: NetworkInterface, k: Slot, plan: NetplanPlan)
    ensures ProcessNetplan(n, row, k, plan).0.stored.Keys == n.stored.Keys
  {
    hide ConfigFile;
    hide Generated;
    hide ApplyRename;
    hide ValidateNetplan;
    hide WriteDocument;
  }

  /**
   Devices under a Netplan worker: no MAC address is lost, and only the row's first device may be renamed, to
   its slot.
   */
  lemma {:induction false} NetplanConservesDevices(n: NetplanNode, listing: seq<string>, row: NetworkInterface,
                                                   plan: NetplanPlan)
    requires UniqueNames(n.devices)
    ensures var (n1, o) := NetplanWorker(n, listing, row, plan);
            UniqueNames(n1.devices) &&
            if o.Unnamed? then n1 == n else OnlyRenames(n.devices, n1.devices, row.mac, o.slot)
  {
    hide IsDrifted;
    hide ConfigFile;
    hide Generated;
    hide FindFile;
    hide OnlyRenames;
    hide ApplyRename;
    hide ProcessNetplan;
    hide NetplanNeedsProcessing;
    var o := NetplanWorker(n, listing, row, plan).1;
    if !o.Unnamed? {
      ApplyConserves(n.devices, row.mac, o.slot);
      ProcessDevices(n, row, o.slot, plan);
    }
  }

  lemma ProcessDevices(n: NetplanNode, row: NetworkInterface, k: Slot, plan: NetplanPlan)
    ensures var d := ProcessNetplan(n, row, k, plan).0.devices;
            d == n.devices || d == ApplyRename(n.devices, row.mac, k)
  {
    hide ConfigFile;
    hide Generated;
    hide ApplyRename;
    hide ValidateNetplan;
    hide WriteDocument;
  }

  lemma ApplyConserves(devices: seq<Device>, mac: string, k: Slot)
    requires UniqueNames(devices)
    ensures OnlyRenames(devices, devices, mac, k)
    ensures UniqueNames(ApplyRename(devices, mac, k)) && OnlyRenames(devices, ApplyRename(devices, mac, k), mac, k)
  {
    var found := FirstWithMac(devices, mac);
    if found.Some? && !InUse(devices, Name(k)) {
      RenamePreservesTable(devices, found.value, k);
    }
  }
}
