/**
 What one worker does to the node on RHEL: name, check, rename the device, write the
 ifcfg file, validate, record the status, roll back. Every command can fail; a `Plan`
 fixes how the commands of one worker turn out.
 */
module Rhel {
  import opened Options
  import opened Text
  import opened Entities
  import opened IpLink
  import opened Naming
  import opened Ifcfg

  /** The device table, the files of the network-scripts directory, and the status column by row id. */
  datatype Node = Node(devices: seq<Device>, files: map<string, string>, stored: map<int, int>)

  /** A rename is done, refused, or done but reported as failed (a timeout). */
  datatype Rename = Renamed | Refused | RenamedLate

  /** A write is done; done but not seen afterwards; cut off after some characters; or never started. */
  datatype Write = Written | Unseen | CutOff(length: nat) | NotOpened

  datatype Plan = Plan(
    blind: set<Slot>,      // slots whose MAC query fails
    readable: bool,        // the config file can be read by the drift check
    list: bool,            // `ip link show`
    down: bool,            // `ip link set .. down`
    rename: Rename,        // `ip link set .. name ..`
    up: bool,              // `ip link set .. up`
    write: Write,
    restart: bool,         // `systemctl restart NetworkManager` in Configure
    show: bool,            // `ip link show <name>` in Validate
    seen: bool,            // the file check in Validate
    remove: bool,          // the removal in Rollback
    saveConfigured: bool,  // the update to Configured
    saveFailed: bool)      // the update to Failed

  const NO_FAULTS := Plan({}, true, true, true, Renamed, true, Written, true, true, true, true, true, true)

  function FileName(k: Slot): string {
    "ifcfg-" + Name(k)
  }

  lemma FileNameInjective(j: Slot, k: Slot)
    ensures FileName(j) == FileName(k) <==> j == k
  {
    assert FileName(j)[6..] == Name(j) && FileName(k)[6..] == Name(k);
    NameInjective(j, k);
  }

  // ---- the device table under commands ---------------------------------------

  function IndexOfName(devices: seq<Device>, name: string): (r: Option<nat>)
    ensures match r
            case Some(i) => i < |devices| && devices[i].name == name
            case None => !InUse(devices, name)
  {
    if devices == [] then None
    else if devices[0].name == name then Some(0)
    else match IndexOfName(devices[1..], name)
         case Some(i) => Some(i + 1)
         case None =>
           assert forall i :: 0 < i < |devices| ==> devices[i] == devices[1..][i - 1];
           None
  }

  /** Steps 1 and 2 of Configure: find the device of the MAC address, and give it the name. */
  function FindStep(devices: seq<Device>, mac: string, plan: Plan): Option<string> {
    if !plan.list then None
    else match FirstWithMac(devices, mac) case None => None case Some(i) => Some(devices[i].name)
  }

  function LinkStep(devices: seq<Device>, dev: string, k: Slot, plan: Plan): (seq<Device>, bool) {
    if dev == Name(k) then (devices, true)
    else match IndexOfName(devices, dev)
         case None => (devices, false)
         case Some(i) =>
           if !plan.down || plan.rename.Refused? || InUse(devices, Name(k)) then (devices, false)
           else (devices[i := Device(Name(k), devices[i].mac)], plan.rename.Renamed? && plan.up)
  }

  /** Steps 3 to 5 of Configure: write the file and restart NetworkManager. */
  function WriteStep(files: map<string, string>, row: NetworkInterface, k: Slot, plan: Plan): (map<string, string>,
                     bool) {
    var text := IfcfgText(row, k);
    match plan.write
    case Written => (files[FileName(k) := text], plan.restart)
    case Unseen => (files[FileName(k) := text], false)
    case CutOff(n) => (files[FileName(k) := if n < |text| then text[..n] else text], false)
    case NotOpened => (files, false)
  }

  function ConfigureSpec(n: Node, row: NetworkInterface, k: Slot, plan: Plan): (Node, bool) {
    match FindStep(n.devices, row.mac, plan)
    case None => (n, false)
    case Some(dev) =>
      var (devices, linked) := LinkStep(n.devices, dev, k, plan);
      if !linked then (n.(devices := devices), false)
      else
        var (files, written) := WriteStep(n.files, row, k, plan);
        (n.(devices := devices, files := files), written)
  }

  predicate ValidateSpec(n: Node, k: Slot, plan: Plan) {
    plan.show && InUse(n.devices, Name(k)) && plan.seen && FileName(k) in n.files
  }

  /** The removal may fail; the adapter reports success all the same. */
  function RollbackSpec(n: Node, name: string, removed: bool): Node {
    if removed then n.(files := n.files - {"ifcfg-" + name}) else n
  }

  function Save(n: Node, id: int, status: Status, works: bool): (Node, bool) {
    var (stored, ok) := StoreStatus(n.stored, id, status, works);
    (n.(stored := stored), ok)
  }

  /** Configure and Validate, each followed by a rollback when it fails. */
  function InstallSpec(n: Node, row: NetworkInterface, k: Slot, plan: Plan): (Node, bool) {
    var (n1, configured) := ConfigureSpec(n, row, k, plan);
    if configured && ValidateSpec(n1, k, plan) then (n1, true) else (RollbackSpec(n1, Name(k), plan.remove), false)
  }

  function ProcessSpec(n: Node, row: NetworkInterface, k: Slot, plan: Plan): (Node, bool) {
    if Validate(row) != Valid then (n, false)
    else
      var (n1, installed) := InstallSpec(n, row, k, plan);
      if installed then Save(n1, row.id, Configured, plan.saveConfigured) else (n1, false)
  }

  predicate NeedsProcessing(files: map<string, string>, row: NetworkInterface, k: Slot, readable: bool) {
    FileName(k) !in files || !readable || Drifted(row, files[FileName(k)]) || row.status == Pending
  }

  datatype Outcome = Processed(slot: Slot) | Skipped(slot: Slot) | Failed(slot: Slot) | Unnamed

  /** The worker once it has been given a slot. */
  function WorkerOnSlot(n: Node, row: NetworkInterface, k: Slot, plan: Plan): (Node, Outcome) {
    if !NeedsProcessing(n.files, row, k, plan.readable) then (n, Skipped(k))
    else
      var (n1, ok) := ProcessSpec(n, row, k, plan);
      if ok then (n1, Processed(k)) else (Save(n1, row.id, Status.Failed, plan.saveFailed).0, Outcome.Failed(k))
  }

  /** The whole worker. */
  function WorkerSpec(n: Node, row: NetworkInterface, plan: Plan): (Node, Outcome) {
    match NameFor(n.devices, row.mac, plan.blind)
    case None => (n, Unnamed)
    case Some(k) => WorkerOnSlot(n, row, k, plan)
  }

  // ---- the host, and the adapter on it -----------------------------------------

  /** The mutable world the adapter and the use case work on. */
  class Host {
    var devices: seq<Device>
    var files: map<string, string>
    var stored: map<int, int>

    /** The kernel keeps names distinct. */
    ghost predicate Valid()
      reads this
    {
      UniqueNames(devices) && forall d :: d in devices ==> Printable(d)
    }

    ghost function State(): Node
      reads this
    {
      Node(devices, files, stored)
    }

    constructor (devices: seq<Device>, files: map<string, string>, stored: map<int, int>)
      requires UniqueNames(devices) && forall d :: d in devices ==> Printable(d)
      ensures Valid() && State() == Node(devices, files, stored)
    {
      this.devices, this.files, this.stored := devices, files, stored;
    }

    /** `ip link set <from> name <name of k>`; the kernel refuses a name that is taken. */
    method SetLinkName(from: string, k: Slot, outcome: Rename) returns (ok: bool)
      requires Valid() && InUse(devices, from)
      modifies this`devices
      ensures Valid()
      ensures var i := IndexOfName(old(devices), from).value;
              if outcome.Refused? || InUse(old(devices), Name(k)) then devices == old(devices) && !ok
              else devices == old(devices)[i := Device(Name(k), old(devices)[i].mac)] && ok == outcome.Renamed?
    {
      if outcome.Refused? || InUse(devices, Name(k)) {
        return false;
      }
      var i := IndexOfName(devices, from).value;
      RenamePreservesTable(devices, i, k);
      devices := devices[i := Device(Name(k), devices[i].mac)];
      ok := outcome.Renamed?;
    }

    method WriteFile(name: string, text: string, outcome: Write) returns (ok: bool)
      modifies this`files
      ensures ok == (outcome.Written? || outcome.Unseen?)
      ensures files == match outcome
                       case NotOpened => old(files)
                       case CutOff(n) => old(files)[name := if n < |text| then text[..n] else text]
                       case _ => old(files)[name := text]
    {
      match outcome {
        case NotOpened =>
        case CutOff(n) => files := files[name := if n < |text| then text[..n] else text];
        case _ => files := files[name := text];
      }
      ok := outcome.Written? || outcome.Unseen?;
    }

    method Remove(name: string, works: bool) returns (ok: bool)
      modifies this`files
      ensures files == if works then old(files) - {name} else old(files)
      ensures ok == (works && name in old(files))
    {
      ok := works && name in files;
      if works {
        files := files - {name};
      }
    }

    /** A directory listing, in some order. */
    method ListFiles() returns (listing: seq<string>)
      ensures forall i, j :: 0 <= i < j < |listing| ==> listing[i] != listing[j]
      ensures forall f :: f in listing <==> f in files
    {
      listing := [];
      var rest := files.Keys;
      while rest != {}
        invariant rest <= files.Keys
        invariant forall i, j :: 0 <= i < j < |listing| ==> listing[i] != listing[j]
        invariant forall f :: f in listing <==> f in files && f !in rest
        decreases rest
      {
        var f :| f in rest;
        listing, rest := listing + [f], rest - {f};
      }
    }

    method UpdateInterfaceStatus(id: int, status: Status, works: bool) returns (ok: bool)
      modifies this`stored
      ensures (State(), ok) == Save(old(State()), id, status, works)
    {
      ok := works && id in stored;
      if ok {
        stored := stored[id := EncodeStatus(status)];
      }
    }
  }

  lemma RenamePreservesTable(devices: seq<Device>, i: nat, k: Slot)
    requires UniqueNames(devices) && i < |devices| && !InUse(devices, Name(k))
    ensures UniqueNames(devices[i := Device(Name(k), devices[i].mac)])
    ensures (forall d :: d in devices ==> Printable(d)) ==>
              forall d :: d in devices[i := Device(Name(k), devices[i].mac)] ==> Printable(d)
  {
    var after := devices[i := Device(Name(k), devices[i].mac)];
    NameInjective(k, k);
    if forall d :: d in devices ==> Printable(d) {
      forall d | d in after
        ensures Printable(d)
      {
        assert devices[i] in devices;
        var j :| 0 <= j < |after| && after[j] == d;
        assert j != i ==> d in devices;
      }
    }
  }

  /** On the printed table the scanner finds what `FindStep` says. */
  lemma FindOnHost(devices: seq<Device>, mac: string)
    requires forall d :: d in devices ==> Printable(d)
    ensures Scan(Split(ShowLinks(devices), '\n'), "", Lower(mac)) == FindStep(devices, mac, NO_FAULTS)
  {
    EntriesWellFormed(devices, 2);
    ScanFindsDevice([], Entries(devices, 2), mac);
  }

  /** Step 1 of Configure: scan the output of `ip link show`. */
  method FindDevice(host: Host, mac: string, plan: Plan) returns (device: Option<string>)
    requires host.Valid()
    ensures device == FindStep(host.devices, mac, plan)
    ensures device.Some? ==> InUse(host.devices, device.value)
  {
    if !plan.list {
      return None;
    }
    FindOnHost(host.devices, mac);
    device := FindDeviceByMAC(ShowLinks(host.devices), mac);
  }

  /** Step 2 of Configure: bring the device down, rename it, bring it up. */
  method RenameDevice(host: Host, device: string, k: Slot, plan: Plan) returns (ok: bool)
    requires host.Valid() && InUse(host.devices, device)
    modifies host`devices
    ensures host.Valid() && (host.devices, ok) == LinkStep(old(host.devices), device, k, plan)
  {
    if device == Name(k) {
      return true;
    }
    if !plan.down {
      return false;
    }
    ok := host.SetLinkName(device, k, plan.rename);
    ok := ok && plan.up;
  }

  /** Steps 3 to 5 of Configure. */
  method WriteConfig(host: Host, row: NetworkInterface, k: Slot, plan: Plan) returns (ok: bool)
    modifies host`files
    ensures (host.files, ok) == WriteStep(old(host.files), row, k, plan)
  {
    var content := GenerateIfcfgContent(row, k);
    var written := host.WriteFile(FileName(k), content, plan.write);
    if !written || plan.write.Unseen? {
      return false;
    }
    ok := plan.restart;
  }

  method Configure(host: Host, row: NetworkInterface, k: Slot, plan: Plan) returns (ok: bool)
    requires host.Valid()
    modifies host
    ensures host.Valid() && (host.State(), ok) == ConfigureSpec(old(host.State()), row, k, plan)
  {
    var device := FindDevice(host, row.mac, plan);
    if device.None? {
      return false;
    }
    ok := RenameDevice(host, device.value, k, plan);
    if ok {
      ok := WriteConfig(host, row, k, plan);
    }
  }

  method ValidateInterface(host: Host, k: Slot, plan: Plan) returns (ok: bool)
    ensures ok == ValidateSpec(host.State(), k, plan)
  {
    if !plan.show || !InUse(host.devices, Name(k)) {
      return false;
    }
    ok := plan.seen && FileName(k) in host.files;
  }

  /** The name comes from an interface name or, in the cleanup, from a file name. */
  method Rollback(host: Host, name: string, removed: bool) returns (ok: bool)
    modifies host`files
    ensures ok && host.State() == RollbackSpec(old(host.State()), name, removed)
  {
    var _ := host.Remove("ifcfg-" + name, removed);
    ok := true;
  }

  method ProcessInterface(host: Host, row: NetworkInterface, k: Slot, plan: Plan) returns (ok: bool)
    requires host.Valid()
    modifies host
    ensures host.Valid() && (host.State(), ok) == ProcessSpec(old(host.State()), row, k, plan)
  {
    if Validate(row) != Valid {
      return false;
    }
    var configured := Configure(host, row, k, plan);
    if !configured {
      var _ := Rollback(host, Name(k), plan.remove);
      return false;
    }
    var validated := ValidateInterface(host, k, plan);
    if !validated {
      var _ := Rollback(host, Name(k), plan.remove);
      return false;
    }
    ok := host.UpdateInterfaceStatus(row.id, Configured, plan.saveConfigured);
  }

  /** Whether the row needs processing: no file, one that cannot be read or differs, or a pending status. */
  method CheckRHELNeedProcessing(host: Host, row: NetworkInterface, k: Slot, readable: bool) returns (needed: bool)
    ensures needed == NeedsProcessing(host.files, row, k, readable)
  {
    var drifted := false;
    var exists' := FileName(k) in host.files;
    if exists' {
      if !readable {
        drifted := true;
      } else {
        var config := ParseIfcfgFile(host.files[FileName(k)]);
        drifted := config.mac != Lower(row.mac) || SettingsDrift(row, config);
      }
    }
    needed := !exists' || drifted || row.status == Pending;
  }

  method ProcessInterfaceWithCheck(host: Host, row: NetworkInterface, plan: Plan) returns (outcome: Outcome)
    requires host.Valid()
    modifies host
    ensures host.Valid() && (host.State(), outcome) == WorkerSpec(old(host.State()), row, plan)
  {
    var slot := GenerateNextNameForMAC(host.devices, row.mac, plan.blind);
    if slot.None? {
      return Unnamed;
    }
    var k := slot.value;
    var needed := CheckRHELNeedProcessing(host, row, k, plan.readable);
    if needed {
      var ok := ProcessInterface(host, row, k, plan);
      if ok {
        return Processed(k);
      }
      var _ := host.UpdateInterfaceStatus(row.id, Status.Failed, plan.saveFailed);
      return Outcome.Failed(k);
    }
    return Skipped(k);
  }

  // ---- what every worker keeps -----------------------------------------------

  /**
   From `a` to `b` no MAC address appears or disappears, and only the first device with
   the given MAC address may have a new name, that of slot `k`.
   */
  ghost predicate OnlyRenames(a: seq<Device>, b: seq<Device>, mac: string, k: Slot) {
    |a| == |b| &&
    (forall i :: 0 <= i < |a| ==> a[i].mac == b[i].mac) &&
    (forall i :: 0 <= i < |a| ==>
      b[i] == a[i] || (SameMac(a[i].mac, mac) && FirstWithMac(a, mac) == Some(i) && b[i].name == Name(k)))
  }

  lemma IndexOfUnique(devices: seq<Device>, i: nat)
    requires UniqueNames(devices) && i < |devices|
    ensures IndexOfName(devices, devices[i].name) == Some(i)
  {
  }

  lemma {:induction false} LinkConservesDevices(devices: seq<Device>, mac: string, k: Slot, plan: Plan)
    requires UniqueNames(devices) && FirstWithMac(devices, mac).Some?
    ensures var b := LinkStep(devices, devices[FirstWithMac(devices, mac).value].name, k, plan).0;
            OnlyRenames(devices, b, mac, k) && UniqueNames(b)
  {
    hide Name;
    var i := FirstWithMac(devices, mac).value;
    IndexOfUnique(devices, i);
    if !InUse(devices, Name(k)) {
      RenamePreservesTable(devices, i, k);
    }
  }

  /**
   Device conservation: however its commands turn out, Configure keeps the MAC addresses,
   renames at most the first device of the row's MAC address, and keeps names distinct.
   */
  lemma {:induction false} ConfigureConservesDevices(n: Node, row: NetworkInterface, k: Slot, plan: Plan)
    requires UniqueNames(n.devices)
    ensures var n1 := ConfigureSpec(n, row, k, plan).0;
            OnlyRenames(n.devices, n1.devices, row.mac, k) && UniqueNames(n1.devices) && n1.stored == n.stored
  {
    hide WriteStep;
    hide LinkStep;
    if FirstWithMac(n.devices, row.mac).Some? {
      LinkConservesDevices(n.devices, row.mac, k, plan);
    }
  }

  /** A worker that gets a slot gets one its MAC address already has, or one that is free. */
  lemma {:induction false} SlotIsOwnOrFree(n: Node, row: NetworkInterface, plan: Plan)
    requires UniqueNames(n.devices)
    ensures var o := WorkerSpec(n, row, plan).1;
            o != Unnamed ==> (exists i: nat :: Holds(n.devices, i, o.slot, row.mac)) || !InUse(n.devices, Name(o.slot))
  {
    var o := WorkerSpec(n, row, plan).1;
    if o != Unnamed {
      CarriesHolds(n.devices, row.mac, plan.blind, o.slot);
    }
  }

  lemma InstallFrame(n: Node, row: NetworkInterface, k: Slot, plan: Plan)
    ensures var n1 := InstallSpec(n, row, k, plan).0;
            n1.files - {FileName(k)} == n.files - {FileName(k)} && n1.stored == n.stored &&
            n1.devices == ConfigureSpec(n, row, k, plan).0.devices
  {
    var c := ConfigureSpec(n, row, k, plan).0;
    var f := FileName(k);
    assert c.files - {f} == n.files - {f};
    assert (c.files - {f}) - {f} == c.files - {f};
  }

  /**
   The frame of a worker on slot `k`: devices of other MAC addresses, files of other slots and
   other rows' statuses are untouched.
   */
  ghost predicate Frame(n: Node, n1: Node, row: NetworkInterface, k: Slot) {
    UniqueNames(n1.devices) && OnlyRenames(n.devices, n1.devices, row.mac, k) &&
    n1.files - {FileName(k)} == n.files - {FileName(k)} &&
    n1.stored.Keys == n.stored.Keys && n1.stored - {row.id} == n.stored - {row.id}
  }

  lemma SaveFrame(n: Node, n1: Node, row: NetworkInterface, k: Slot, status: Status, ok: bool)
    requires Frame(n, n1, row, k)
    ensures Frame(n, Save(n1, row.id, status, ok).0, row, k)
  {
    var n2 := Save(n1, row.id, status, ok).0;
    assert n2.stored - {row.id} == n1.stored - {row.id};
  }

  lemma ProcessFrame(n: Node, row: NetworkInterface, k: Slot, plan: Plan)
    requires UniqueNames(n.devices)
    ensures Frame(n, ProcessSpec(n, row, k, plan).0, row, k)
  {
    if Validate(row) == Valid {
      InstallFrame(n, row, k, plan);
      ConfigureConservesDevices(n, row, k, plan);
      var (n1, installed) := InstallSpec(n, row, k, plan);
      assert Frame(n, n1, row, k);
      SaveFrame(n, n1, row, k, Configured, plan.saveConfigured);
    }
  }

  lemma {:induction false} WorkerFrame(n: Node, row: NetworkInterface, plan: Plan)
    requires UniqueNames(n.devices)
    ensures var (n1, o) := WorkerSpec(n, row, plan);
            if o.Unnamed? || o.Skipped? then n1 == n else Frame(n, n1, row, o.slot)
  {
    var (n1, o) := WorkerSpec(n, row, plan);
    if !o.Unnamed? && !o.Skipped? {
      ProcessFrame(n, row, o.slot, plan);
      SaveFrame(n, ProcessSpec(n, row, o.slot, plan).0, row, o.slot, Status.Failed, plan.saveFailed);
    }
  }

  lemma WorkerName(m: Node, row: NetworkInterface, plan: Plan)
    ensures var o := WorkerSpec(m, row, plan).1; !o.Unnamed? ==> NameFor(m.devices, row.mac, plan.blind) == Some(o.slot)
  {
  }

  lemma PendingNeverSkips(n: Node, row: NetworkInterface, plan: Plan)
    requires row.status == Pending
    ensures !WorkerSpec(n, row, plan).1.Skipped?
  {
  }

  lemma SkipKeeps(n: Node, row: NetworkInterface, plan: Plan)
    ensures var (n1, o) := WorkerSpec(n, row, plan); o.Skipped? || o.Unnamed? ==> n1 == n
  {
  }

  // ---- rollback -----------------------------------------------------------------

  /**
   A failure in Configure or Validate, with the removal working: the slot's file is gone
   and every other file is as before, so the files are recovered exactly when there was
   no such file before.
   */
  lemma {:induction false} RollbackEffect(n: Node, row: NetworkInterface, k: Slot, plan: Plan)
    requires !InstallSpec(n, row, k, plan).1 && plan.remove
    ensures var n1 := InstallSpec(n, row, k, plan).0;
            n1.files == n.files - {FileName(k)} && (n1.files == n.files <==> FileName(k) !in n.files)
  {
    var f := FileName(k);
    var c := ConfigureSpec(n, row, k, plan).0;
    assert c.files - {f} == n.files - {f};
    assert f !in n.files ==> n.files - {f} == n.files;
  }

  lemma {:induction false} RollbackTwice(n: Node, name: string, removed: bool)
    ensures RollbackSpec(RollbackSpec(n, name, removed), name, removed) == RollbackSpec(n, name, removed)
  {
    var f, file := n.files, "ifcfg-" + name;
    assert f - {file} - {file} == f - {file};
  }

  /**
   A failed rename still costs the file that was under the name: a rollback removes it even
   though this attempt never wrote it.
   */
  lemma {:induction false} RollbackRemovesForeignFile(n: Node, row: NetworkInterface, k: Slot, plan: Plan)
    requires Validate(row) == Valid && FirstWithMac(n.devices, row.mac) == None && plan.remove
    requires FileName(k) in n.files
    ensures var (n1, ok) := ProcessSpec(n, row, k, plan); !ok && n1.files == n.files - {FileName(k)} != n.files
  {
    RollbackEffect(n, row, k, plan);
  }

  // ---- failures are retried ---------------------------------------------------------

  /** Processing a row keeps the set of rows, and when it fails it leaves the status as it was. */
  lemma ProcessColumns(n: Node, row: NetworkInterface, k: Slot, plan: Plan)
    ensures var (n1, ok) := ProcessSpec(n, row, k, plan);
            n1.stored.Keys == n.stored.Keys && (!ok ==> n1.stored == n.stored)
  {
  }

  /** A failed attempt whose status is recorded makes the row Pending, so any later worker for it does not skip. */
  lemma {:induction false} RecordedFailureIsRetried(n: Node, row: NetworkInterface, plan: Plan, later: Node, next: Plan)
    requires WorkerSpec(n, row, plan).1.Failed? && plan.saveFailed && row.id in n.stored
    requires row.id in later.stored && later.stored[row.id] == WorkerSpec(n, row, plan).0.stored[row.id]
    ensures Current(row, later.stored).status == Pending
    ensures !WorkerSpec(later, Current(row, later.stored), next).1.Skipped?
  {
    hide ProcessSpec;
    hide NeedsProcessing;
    hide NameFor;
    ProcessColumns(n, row, WorkerSpec(n, row, plan).1.slot, plan);
    PendingNeverSkips(later, Current(row, later.stored), next);
  }
}
