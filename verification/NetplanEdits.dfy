/**
 What the drift check sees in a document, what the generated document says, and what becomes of a row that is
 edited in the database after its document was written.
 */
module NetplanEdits {
  import opened Options
  import opened Text
  import opened Entities
  import opened IpLink
  import opened Naming
  import opened Ifcfg
  import opened Rhel
  import opened Cleanup
  import opened Cycle
  import opened Serial
  import opened Recovery
  import opened Listing
  import opened Cidr
  import opened Netplan
  import opened NetplanCleanup
  import opened NetplanConvergence
  import opened NetplanTurns
  import opened NetplanStealing

  // ---- the generated document -------------------------------------------------------

  /** One entry, under the interface's own name, matching the row's MAC address and setting that name. */
  lemma {:induction false} GeneratedEntry(row: NetworkInterface, k: Slot)
    ensures Generated(row, k).Document? && |Generated(row, k).ethernets| == 1
    ensures var e := Generated(row, k).ethernets[0];
            e.key == Name(k) && e.setName == Name(k) && e.mac == row.mac &&
            (if row.address != "" && PrefixOf(row.cidr).Some? then
               e.addresses == [row.address + "/" + PrefixOf(row.cidr).value] &&
               e.mtu == if row.mtu > 0 then row.mtu else 0
             else e.addresses == [] && e.mtu == 0)
  {
    hide PrefixOf;
  }

  // ---- when a document suits a row ----------------------------------------------------

  /** A document that does not parse never suits. */
  lemma {:induction false} UnparsableDrifts(row: NetworkInterface)
    ensures IsDrifted(row, Unparsable)
  {
  }

  /**
   A first entry with an address: it suits exactly the row with that address, its network, its MTU and its
   MAC address.
   */
  lemma {:induction false} AddressedEntry(row: NetworkInterface, e: Ethernet, more: seq<Ethernet>, ip: Ipv4, p: nat)
    requires p <= 32 && e.addresses != [] && e.addresses[0] == PrintIp(ip) + ['/'] + Digits(p)
    ensures !IsDrifted(row, Document([e] + more)) <==>
            row.mac == e.mac && row.address == PrintIp(ip) && row.cidr == PrintNetwork(ip, p) && row.mtu == e.mtu
  {
    hide PrintIp;
    hide PrintNetwork;
    PrintedChars(ip);
    CutKeyed(PrintIp(ip), '/', Digits(p));
    assert !IsDigit('/');
    IpRoundTrip(ip);
    ValueDigits(p);
    ParsedBack(ip, p);
    assert ([e] + more)[0] == e;
  }

  lemma {:induction false} ParsedBack(ip: Ipv4, p: nat)
    requires p <= 32
    ensures ParseCidr(PrintIp(ip) + ['/'] + Digits(p)) == Some((ip, p))
  {
    hide PrintIp;
    hide ParseIp;
    PrintedChars(ip);
    CutKeyed(PrintIp(ip), '/', Digits(p));
    IpRoundTrip(ip);
    ValueDigits(p);
  }

  /** A first entry without addresses suits exactly the row without address and CIDR. */
  lemma {:induction false} BareEntry(row: NetworkInterface, e: Ethernet, more: seq<Ethernet>)
    requires e.addresses == []
    ensures !IsDrifted(row, Document([e] + more)) <==>
            row.mac == e.mac && row.address == "" && row.cidr == "" && row.mtu == e.mtu
  {
    assert ([e] + more)[0] == e;
  }

  /** A first entry whose address is no CIDR notation suits exactly the row that holds that very text and no CIDR. */
  lemma {:induction false} OddEntry(row: NetworkInterface, e: Ethernet, more: seq<Ethernet>)
    requires e.addresses != [] && ParseCidr(e.addresses[0]) == None
    ensures !IsDrifted(row, Document([e] + more)) <==>
            row.mac == e.mac && row.address == e.addresses[0] && row.cidr == "" && row.mtu == e.mtu
  {
    hide ParseCidr;
    assert ([e] + more)[0] == e;
  }

  /** A document without entries suits only a row without anything. */
  lemma {:induction false} EmptyDocument(row: NetworkInterface)
    ensures !IsDrifted(row, Document([])) <==> row.mac == "" && row.address == "" && row.cidr == "" && row.mtu == 0
  {
  }

  // ---- when one row's document suits another row ------------------------------------------

  /** A row with a canonical address, its masked network, and no negative MTU. */
  ghost predicate NetAddressed(row: NetworkInterface) {
    row.mtu >= 0 && exists ip: Ipv4, p: nat :: IsCidrOf(row, ip, p)
  }

  predicate NetBare(row: NetworkInterface) {
    row.address == "" && row.cidr == "" && row.mtu == 0
  }

  /** Every edit of an address, a network, an MTU or a MAC address is seen, and nothing else is. */
  lemma {:induction false} NetEditsAreSeen(a: NetworkInterface, b: NetworkInterface, k: Slot)
    requires NetAddressed(a)
    ensures !IsDrifted(b, Generated(a, k)) <==>
            a.mac == b.mac && a.address == b.address && a.cidr == b.cidr && a.mtu == b.mtu
  {
    hide IsDrifted;
    hide PrintIp;
    hide PrintNetwork;
    hide PrefixOf;
    hide ParseCidr;
    var ip: Ipv4, p: nat :| IsCidrOf(a, ip, p);
    CidrRowParts(a, ip, p);
    GeneratedEntry(a, k);
    var e := Generated(a, k).ethernets[0];
    assert a.address + "/" + Digits(p) == PrintIp(ip) + ['/'] + Digits(p);
    AddressedEntry(b, e, [], ip, p);
    assert [e] + [] == Generated(a, k).ethernets;
  }

  /** The document of a row without an address suits exactly the rows without one. */
  lemma {:induction false} NetBareEditsAreSeen(a: NetworkInterface, b: NetworkInterface, k: Slot)
    requires NetBare(a)
    ensures !IsDrifted(b, Generated(a, k)) <==> a.mac == b.mac && NetBare(b)
  {
    hide IsDrifted;
    hide PrefixOf;
    GeneratedEntry(a, k);
    var e := Generated(a, k).ethernets[0];
    BareEntry(b, e, []);
    assert [e] + [] == Generated(a, k).ethernets;
  }

  // ---- the worker of an edited row -----------------------------------------------------------

  predicate NetEdited(a: NetworkInterface, b: NetworkInterface) {
    a.mac != b.mac || a.address != b.address || a.cidr != b.cidr || a.mtu != b.mtu
  }

  /** When exactly a worker skips, for any row, node, listing and plan. */
  lemma {:induction false} NetWorkerSkipsExactly(n: NetplanNode, listing: seq<string>, row: NetworkInterface,
                                                 plan: NetplanPlan,
                                                 k: Slot)
    ensures NetplanWorker(n, listing, row, plan).1 == Skipped(k) <==>
            NameFor(n.devices, row.mac, plan.blind) == Some(k) && CheckedFile(listing, k) in n.files && plan.readable &&
            !IsDrifted(row, n.files[CheckedFile(listing, k)]) && row.status != Pending
  {
    hide NameFor;
    hide ProcessNetplan;
    hide IsDrifted;
    hide CheckedFile;
  }

  /** A row that does not pass validation is never processed, and its worker touches neither devices nor files. */
  lemma {:induction false} NetInvalidRowTouchesNothing(n: NetplanNode, listing: seq<string>, row: NetworkInterface,
                                                       plan: NetplanPlan)
    requires !IsValidMac(row.mac) || row.nodeName == ""
    ensures var (n1, o) := NetplanWorker(n, listing, row, plan);
            n1.devices == n.devices && n1.files == n.files && !o.Processed? && (!plan.saveFailed ==> n1 == n)
  {
    hide NameFor;
    hide NetplanNeedsProcessing;
    hide InstallNetplan;
    hide IsValidMac;
  }

  /**
   An edited row: its document still is that of row `a`, the database has row `b`. The next faultless worker
   processes it, writes the document of the new row, and has nothing to do afterwards.
   */
  lemma {:induction false} NetEditedRowIsProcessed(n: NetplanNode, listing: seq<string>, a: NetworkInterface,
                                                   b: NetworkInterface, k: Slot)
    requires UniqueNames(n.devices) && OneDevice(n.devices, b.mac) && Tidy(n.files) && Lists(listing, n.files.Keys)
    requires NetGood(b) && b.id in n.stored && b == Current(b, n.stored)
    requires (NetAddressed(a) || NetBare(a)) && NetEdited(a, b)
    requires NameFor(n.devices, b.mac, {}) == Some(k)
    requires ConfigFile(Name(k)) in n.files && n.files[ConfigFile(Name(k))] == Generated(a, k)
    ensures var (n1, o) := NetplanWorker(n, listing, b, NO_NETPLAN_FAULTS);
            o == Processed(k) && n1.files == n.files[ConfigFile(Name(k)) := Generated(b, k)] && NetSettled(n1, b)
  {
    hide ConfigFile;
    hide Generated;
    hide NetAddressed;
    hide NetBare;
    hide NetEdited;
    hide NetGood;
    hide OneDevice;
    hide Tidy;
    hide Lists;
    hide NameFor;
    hide CheckedFile;
    hide IsDrifted;
    hide ProcessNetplan;
    NetEditedDrifts(a, b, k);
    ChecksOwnFile(n.files, listing, k);
    NetWorkerSkipsExactly(n, listing, b, NO_NETPLAN_FAULTS, k);
    RowIsGood(b, b);
    NetProcessWorks(n, b, k);
    ProcessedFile(n, listing, b, NO_NETPLAN_FAULTS, k);
    ProcessedIsBound(n, listing, b, NO_NETPLAN_FAULTS);
    ProcessedSlot(n, listing, b, k);
    NetFreshFile(b, b, k);
  }

  lemma {:induction false} NetEditedDrifts(a: NetworkInterface, b: NetworkInterface, k: Slot)
    requires (NetAddressed(a) || NetBare(a)) && NetEdited(a, b)
    ensures IsDrifted(b, Generated(a, k))
  {
    hide IsDrifted;
    hide Generated;
    hide NetAddressed;
    if NetAddressed(a) { NetEditsAreSeen(a, b, k); } else { NetBareEditsAreSeen(a, b, k); }
  }

  // ---- the edited row in its cycle -------------------------------------------------------------

  /** A name that a row's device has, and its file, are left alone by the workers of other rows, whatever fails. */
  lemma {:induction false} NetOthersLeaveFile(n: NetplanNode, listing: seq<string>, other: NetworkInterface,
                                              plan: NetplanPlan,
                                              mac: string, id: int, k: Slot)
    requires UniqueNames(n.devices) && Tidy(n.files) && OneDevice(n.devices, mac)
    requires LowestCarrying(n.devices, mac, {}, 0) == Some(k) && !SameMac(mac, other.mac) && id != other.id
    ensures var n1 := NetplanWorker(n, listing, other, plan).0;
            UniqueNames(n1.devices) && Tidy(n1.files) && OneDevice(n1.devices, mac) &&
            LowestCarrying(n1.devices, mac, {}, 0) == Some(k) &&
            Column(n1.stored, id) == Column(n.stored, id) && n1.stored.Keys == n.stored.Keys &&
            (ConfigFile(Name(k)) in n.files ==>
               ConfigFile(Name(k)) in n1.files && n1.files[ConfigFile(Name(k))] == n.files[ConfigFile(Name(k))])
  {
    hide NetplanWorker;
    hide ConfigFile;
    hide OneDevice;
    hide Tidy;
    hide TookSlot;
    hide Carries;
    var (n1, o) := NetplanWorker(n, listing, other, plan);
    NetWorkerFrame(n, listing, other, plan);
    if n1 != n {
      if n1.devices != n.devices {
        TakenIsBound(n.devices, n1.devices, other.mac, o.slot);
        BoundFrame(n.devices, n1.devices, mac, other.mac, o.slot);
        OneDeviceFrame(n.devices, n1.devices, mac, other.mac, o.slot);
      }
      NetSlotsDiffer(n.devices, mac, other.mac, plan.blind, k);
      ConfigFileInjective(o.slot, k);
      TidyFrame(n.files, n1.files, o.slot);
      if ConfigFile(Name(k)) in n.files {
        SameContent(n.files, n1.files, ConfigFile(Name(o.slot)), ConfigFile(Name(k)));
      }
      SameColumn(n.stored, n1.stored, other.id, id);
    }
  }

  lemma {:induction false} NetTurnsLeaveFile(n: NetplanNode, rows: seq<NetworkInterface>, listings: seq<seq<string>>,
                                             plans: seq<NetplanPlan>, i: nat, from: nat, t: nat, k: Slot)
    requires i < |rows| == |plans| == |listings| && from <= t <= |rows| && (t <= i || i < from) && DistinctRows(rows)
    requires var m := NetAfter(n, rows, listings, plans, from);
             UniqueNames(m.devices) && Tidy(m.files) && OneDevice(m.devices, rows[i].mac) &&
             LowestCarrying(m.devices, rows[i].mac, {}, 0) == Some(k) && ConfigFile(Name(k)) in m.files
    ensures var a, b := NetAfter(n, rows, listings, plans, from), NetAfter(n, rows, listings, plans, t);
            UniqueNames(b.devices) && Tidy(b.files) && OneDevice(b.devices, rows[i].mac) &&
            LowestCarrying(b.devices, rows[i].mac, {}, 0) == Some(k) &&
            Column(b.stored, rows[i].id) == Column(a.stored, rows[i].id) && b.stored.Keys == a.stored.Keys &&
            ConfigFile(Name(k)) in b.files && b.files[ConfigFile(Name(k))] == a.files[ConfigFile(Name(k))]
  {
    hide NetplanWorker;
    hide ConfigFile;
    hide OneDevice;
    hide Tidy;
    hide LowestCarrying;
    hide SameMac;
    if t > from {
      NetTurnsLeaveFile(n, rows, listings, plans, i, from, t - 1, k);
      OtherRow(rows, i, t - 1);
      NetOthersLeaveFile(NetAfter(n, rows, listings, plans, t - 1), listings[t - 1], rows[t - 1], plans[t - 1],
                         rows[i].mac, rows[i].id, k);
    }
  }

  /**
   An edit takes effect within one pass: whatever fails in the workers of other rows and whatever listings they see,
   after the pass the row's document is that of the edited row, and its worker has nothing to do.
   */
  lemma {:induction false} NetEditTakesEffect(n: NetplanNode, rows: seq<NetworkInterface>, listings: seq<seq<string>>,
                                              plans: seq<NetplanPlan>, i: nat, k: Slot, a: NetworkInterface)
    requires i < |rows| == |plans| == |listings| && DistinctRows(rows) && plans[i] == NO_NETPLAN_FAULTS
    requires UniqueNames(n.devices) && Tidy(n.files) && OneDevice(n.devices, rows[i].mac)
    requires LowestCarrying(n.devices, rows[i].mac, {}, 0) == Some(k)
    requires NetGood(rows[i]) && rows[i].id in n.stored && rows[i] == Current(rows[i], n.stored)
    requires (NetAddressed(a) || NetBare(a)) && NetEdited(a, rows[i])
    requires ConfigFile(Name(k)) in n.files && n.files[ConfigFile(Name(k))] == Generated(a, k)
    requires Lists(listings[i], NetAfter(n, rows, listings, plans, i).files.Keys)
    ensures var end := NetAfter(n, rows, listings, plans, |rows|);
            ConfigFile(Name(k)) in end.files && end.files[ConfigFile(Name(k))] == Generated(rows[i], k) &&
            NetSettled(end, rows[i])
  {
    hide NetplanWorker;
    hide ConfigFile;
    hide Generated;
    hide NetAddressed;
    hide NetBare;
    hide NetEdited;
    hide NetGood;
    hide OneDevice;
    hide Tidy;
    hide Lists;
    hide LowestCarrying;
    hide IsDrifted;
    hide Bound;
    hide DistinctRows;
    var m := NetAfter(n, rows, listings, plans, i);
    NetTurnsLeaveFile(n, rows, listings, plans, i, 0, i, k);
    CarriedIsNamed(m.devices, rows[i].mac, k);
    NetEditedRowIsProcessed(m, listings[i], a, rows[i], k);
    AfterOwnTurn(m, listings[i], rows[i], k);
    NetTurnsLeaveFile(n, rows, listings, plans, i, i + 1, |rows|, k);
    CarriedIsNamed(NetAfter(n, rows, listings, plans, |rows|).devices, rows[i].mac, k);
  }

  lemma {:induction false} CarriedIsNamed(devices: seq<Device>, mac: string, k: Slot)
    requires LowestCarrying(devices, mac, {}, 0) == Some(k)
    ensures NameFor(devices, mac, {}) == Some(k) && Bound(devices, mac)
  {
  }

  lemma {:induction false} AfterOwnTurn(m: NetplanNode, listing: seq<string>, row: NetworkInterface, k: Slot)
    requires UniqueNames(m.devices) && Tidy(m.files) && OneDevice(m.devices, row.mac)
    requires NetplanWorker(m, listing, row, NO_NETPLAN_FAULTS).1 == Processed(k)
    ensures var n1 := NetplanWorker(m, listing, row, NO_NETPLAN_FAULTS).0;
            UniqueNames(n1.devices) && Tidy(n1.files) && OneDevice(n1.devices, row.mac) &&
            LowestCarrying(n1.devices, row.mac, {}, 0) == Some(k)
  {
    hide NetplanWorker;
    hide ConfigFile;
    hide OneDevice;
    hide Tidy;
    hide TookSlot;
    hide LowestCarrying;
    var (n1, o) := NetplanWorker(m, listing, row, NO_NETPLAN_FAULTS);
    NetWorkerFrame(m, listing, row, NO_NETPLAN_FAULTS);
    ProcessedSlot(m, listing, row, k);
    TidyFrame(m.files, n1.files, k);
    if n1.devices != m.devices {
      TakenIsBound(m.devices, n1.devices, row.mac, k);
      OneDeviceFrame(m.devices, n1.devices, row.mac, row.mac, k);
    }
  }
}
