/**
 What the drift check sees: the literal lines of a generated file, the settings they are read back to, and
 what becomes of a row that is edited in the database after its file was written.
 */
module Edits {
  import opened Options
  import opened Text
  import opened Entities
  import opened IpLink
  import opened Naming
  import opened Ifcfg
  import opened Rhel
  import opened Cleanup
  import opened Cycle
  import opened Convergence
  import opened Serial

  // ---- the lines of the file -----------------------------------------------------------

  /** The five lines that no reader reads back. */
  lemma {:induction false} PreambleLines(k: Slot)
    ensures Lines(Preamble(k)) ==
            ["DEVICE=" + Name(k), "NAME=" + Name(k), "TYPE=Ethernet", "ONBOOT=yes", "BOOTPROTO=none"]
  {
    hide Name;
    var p := Preamble(k);
    assert Line(p[0]) == "DEVICE" + "=" + Name(k) == "DEVICE=" + Name(k);
    assert Line(p[1]) == "NAME" + "=" + Name(k) == "NAME=" + Name(k);
    assert Line(p[2]) == "TYPE" + "=" + "Ethernet" == "TYPE=Ethernet";
    assert Line(p[3]) == "ONBOOT" + "=" + "yes" == "ONBOOT=yes";
    assert Line(p[4]) == "BOOTPROTO" + "=" + "none" == "BOOTPROTO=none";
  }

  /** The address lines of a row. */
  lemma {:induction false} IpSettingLines(row: NetworkInterface)
    ensures Lines(IpSettings(row)) ==
            if row.address != "" && PrefixOf(row.cidr).Some? then
              ["IPADDR=" + row.address, "PREFIX=" + PrefixOf(row.cidr).value]
            else []
  {
    hide PrefixOf;
    var s := IpSettings(row);
    if row.address != "" && PrefixOf(row.cidr).Some? {
      assert Line(s[0]) == "IPADDR" + "=" + row.address == "IPADDR=" + row.address;
      assert Line(s[1]) == "PREFIX" + "=" + PrefixOf(row.cidr).value == "PREFIX=" + PrefixOf(row.cidr).value;
    }
  }

  lemma {:induction false} TailLines(row: NetworkInterface)
    ensures Lines(MtuSettings(row)) == if row.mtu > 0 then ["MTU=" + Digits(row.mtu)] else []
    ensures Lines([Setting(HWADDR, Lower(row.mac))]) == ["HWADDR=" + Lower(row.mac)]
  {
    if row.mtu > 0 {
      assert Line(MtuSettings(row)[0]) == "MTU" + "=" + Digits(row.mtu) == "MTU=" + Digits(row.mtu);
    }
    assert Line(Setting(HWADDR, Lower(row.mac))) == "HWADDR" + "=" + Lower(row.mac) == "HWADDR=" + Lower(row.mac);
  }

  /** The file of a row without line breaks, line by line. */
  lemma {:induction false} FileLines(row: NetworkInterface, k: Slot)
    requires NoNewline(row)
    ensures Split(IfcfgText(row, k), '\n') ==
            ["DEVICE=" + Name(k), "NAME=" + Name(k), "TYPE=Ethernet", "ONBOOT=yes", "BOOTPROTO=none"] +
            (if row.address != "" && PrefixOf(row.cidr).Some? then
               ["IPADDR=" + row.address, "PREFIX=" + PrefixOf(row.cidr).value]
             else []) +
            (if row.mtu > 0 then ["MTU=" + Digits(row.mtu)] else []) +
            ["HWADDR=" + Lower(row.mac)]
  {
    hide Line;
    hide Preamble;
    hide PrefixOf;
    hide IpSettings;
    hide MtuSettings;
    PreambleLines(k);
    IpSettingLines(row);
    TailLines(row);
    ValuesHaveNoBreak(row, k);
    PrintedLines(Settings(row, k));
    LinesAppend(Preamble(k), IpSettings(row));
    LinesAppend(Preamble(k) + IpSettings(row), MtuSettings(row));
    LinesAppend(Preamble(k) + IpSettings(row) + MtuSettings(row), [Setting(HWADDR, Lower(row.mac))]);
  }

  lemma {:induction false} ValuesHaveNoBreak(row: NetworkInterface, k: Slot)
    requires NoNewline(row)
    ensures Settings(row, k) != [] && forall s :: s in Settings(row, k) ==> '\n' !in s.value
  {
    PreambleValues(k);
    if row.mtu > 0 { ItoaClean(row.mtu); }
    forall s | s in Settings(row, k)
      ensures '\n' !in s.value
    {
      if HasIp(row) && s == Setting(PREFIX, PrefixOf(row.cidr).value) && '\n' in s.value {
        PrefixChars(row.cidr, '\n');
      }
      assert s in Preamble(k) || s in IpSettings(row) || s in MtuSettings(row) || s == Setting(HWADDR, Lower(row.mac));
    }
  }

  /** What each line means to the drift check's reader; the MTU line counts when its value is a number. */
  lemma {:induction false} LineMeaning(c: Config, v: string)
    ensures ReadLine(c, "HWADDR=" + v) == c.(mac := Lower(Trim(v)))
    ensures ReadLine(c, "IPADDR=" + v) == c.(ip := Trim(v))
    ensures ReadLine(c, "PREFIX=" + v) == c.(prefix := Trim(v))
    ensures ReadLine(c, "MTU=" + v) == match Atoi(Trim(v)) case None => c case Some(m) => c.(mtu := m)
  {
    hide ReadLine;
    KeyTexts(HWADDR);
    KeyTexts(IPADDR);
    KeyTexts(PREFIX);
    KeyTexts(MTU);
    ReadKeyed(c, "HWADDR", v);
    ReadKeyed(c, "IPADDR", v);
    ReadKeyed(c, "PREFIX", v);
    ReadKeyed(c, "MTU", v);
    assert "HWADDR" + "=" + v == "HWADDR=" + v && "IPADDR" + "=" + v == "IPADDR=" + v;
    assert "PREFIX" + "=" + v == "PREFIX=" + v && "MTU" + "=" + v == "MTU=" + v;
  }

  /** The cleanup's reader takes the value out of any quotes. */
  lemma {:induction false} QuotedHwaddr(open: string, mac: string, close: string)
    requires mac != "" && CleanEdges(mac, IsQuote) && (forall c :: c in mac ==> !IsSpace(c))
    requires (forall c :: c in open ==> c == '"' || c == '\'') && (forall c :: c in close ==> c == '"' || c == '\'')
    ensures FirstHwaddr(["HWADDR=" + (open + mac + close)]) == Some(mac)
  {
    var value := open + mac + close;
    var line := "HWADDR=" + value;
    forall i | 0 <= i < |value|
      ensures !IsSpace(value[i])
    {
      assert value[i] in open || value[i] in mac || value[i] in close;
    }
    assert line[|line| - 1] == value[|value| - 1] && line[0] == 'H';
    TrimClean(line);
    assert line[..7] == "HWADDR=" && line[7..] == value;
    LeftQuotes(open, mac + close);
    assert value == open + (mac + close) && (mac + close)[0] == mac[0];
    RightQuotes(mac, close);
  }

  lemma {:induction false} LeftQuotes(open: string, rest: string)
    requires (forall c :: c in open ==> IsQuote(c)) && rest != "" && !IsQuote(rest[0])
    ensures TrimLeft(open + rest, IsQuote) == rest
  {
    if open == "" {
      assert open + rest == rest;
    } else {
      assert (open + rest)[1..] == open[1..] + rest;
      LeftQuotes(open[1..], rest);
    }
  }

  lemma {:induction false} RightQuotes(mac: string, close: string)
    requires (forall c :: c in close ==> IsQuote(c)) && mac != "" && !IsQuote(mac[|mac| - 1])
    ensures TrimRight(mac + close, IsQuote) == mac
  {
    if close == "" {
      assert mac + close == mac;
    } else {
      assert (mac + close)[..|mac + close| - 1] == mac + close[..|close| - 1];
      RightQuotes(mac, close[..|close| - 1]);
    }
  }

  // ---- when one row's file suits another row --------------------------------------------

  /** Row `b` against the file written for row `a`, setting by setting. */
  lemma {:induction false} DriftExactly(a: NetworkInterface, b: NetworkInterface, k: Slot)
    requires NoNewline(a)
    ensures !Drifted(b, IfcfgText(a, k)) <==>
            Lower(Trim(Lower(a.mac))) == Lower(b.mac) &&
            b.address == (if a.address != "" && PrefixOf(a.cidr).Some? then Trim(a.address) else "") &&
            (a.address != "" && PrefixOf(a.cidr).Some? && PrefixOf(b.cidr).Some? &&
             Trim(PrefixOf(a.cidr).value) != "" && PrefixOf(b.cidr).value != "" ==>
               PrefixOf(b.cidr).value == Trim(PrefixOf(a.cidr).value)) &&
            b.mtu == if a.mtu > 0 then a.mtu else 0
  {
    hide IfcfgText;
    hide ReadConfig;
    hide PrefixOf;
    ReadBack(a, k);
  }

  /** A row as a well-kept database holds it: clean text, an address with a prefix, and no negative MTU. */
  predicate Addressed(row: NetworkInterface) {
    IsValidMac(row.mac) && NoNewline(row) && row.mtu >= 0 && row.address != "" && Trim(row.address) == row.address &&
    PrefixOf(row.cidr).Some? && PrefixOf(row.cidr).value != "" &&
    Trim(PrefixOf(row.cidr).value) == PrefixOf(row.cidr).value
  }

  predicate Addressless(row: NetworkInterface) {
    IsValidMac(row.mac) && NoNewline(row) && row.mtu >= 0 && row.address == ""
  }

  lemma {:induction false} MacIsClean(row: NetworkInterface)
    requires IsValidMac(row.mac)
    ensures Lower(Trim(Lower(row.mac))) == Lower(row.mac)
  {
    ValidMacText(row.mac);
    TrimClean(Lower(row.mac));
  }

  /** Every edit of an address, a prefix or an MTU is seen, and nothing else is. */
  lemma {:induction false} EditsAreSeen(a: NetworkInterface, b: NetworkInterface, k: Slot)
    requires Addressed(a) && Addressed(b)
    ensures !Drifted(b, IfcfgText(a, k)) <==>
            SameMac(a.mac, b.mac) && a.address == b.address && PrefixOf(a.cidr) == PrefixOf(b.cidr) && a.mtu == b.mtu
  {
    hide Drifted;
    hide IfcfgText;
    hide IsValidMac;
    hide PrefixOf;
    DriftExactly(a, b, k);
    MacIsClean(a);
  }

  /** An address that is set, taken away, or not there on either side. */
  lemma {:induction false} AddressEditsAreSeen(a: NetworkInterface, b: NetworkInterface, k: Slot)
    requires Addressed(a) || Addressless(a)
    requires Addressed(b) || Addressless(b)
    ensures Addressless(a) && Addressless(b) ==>
              (!Drifted(b, IfcfgText(a, k)) <==> SameMac(a.mac, b.mac) && a.mtu == b.mtu)
    ensures Addressless(a) != Addressless(b) ==> Drifted(b, IfcfgText(a, k))
  {
    hide Drifted;
    hide IfcfgText;
    hide IsValidMac;
    hide PrefixOf;
    DriftExactly(a, b, k);
    MacIsClean(a);
  }

  // ---- the worker of an edited row ---------------------------------------------------------

  /** When exactly a worker skips, for any row, node and plan. */
  lemma {:induction false} WorkerSkipsExactly(n: Node, row: NetworkInterface, plan: Plan, k: Slot)
    ensures WorkerSpec(n, row, plan).1 == Skipped(k) <==>
            NameFor(n.devices, row.mac, plan.blind) == Some(k) && FileName(k) in n.files && plan.readable &&
            !Drifted(row, n.files[FileName(k)]) && row.status != Pending
  {
    hide NameFor;
    hide ProcessSpec;
    hide Drifted;
    hide FileName;
  }

  /** A row that does not pass validation is never processed, and its worker touches neither devices nor files. */
  lemma {:induction false} InvalidRowTouchesNothing(n: Node, row: NetworkInterface, plan: Plan)
    requires !IsValidMac(row.mac) || row.nodeName == ""
    ensures var (n1, o) := WorkerSpec(n, row, plan);
            n1.devices == n.devices && n1.files == n.files && !o.Processed? && (!plan.saveFailed ==> n1 == n)
  {
    hide NameFor;
    hide NeedsProcessing;
    hide InstallSpec;
    hide IsValidMac;
  }

  /** A success leaves the row's own text under its name, its device with that name, and the row configured. */
  lemma {:induction false} ProcessedMeans(n: Node, row: NetworkInterface, plan: Plan, k: Slot)
    requires UniqueNames(n.devices) && WorkerSpec(n, row, plan).1 == Processed(k)
    ensures var n1 := WorkerSpec(n, row, plan).0;
            Agrees(n1, row, k) && Column(n1.stored, row.id) == 1
  {
    hide IfcfgText;
    hide NeedsProcessing;
    hide FileName;
    hide NameFor;
    hide LinkStep;
    WorkerName(n, row, plan);
    NameGivesSlot(n.devices, row.mac, plan.blind);
    FindGivesDevice(n.devices, row.mac, plan);
    var d := FindStep(n.devices, row.mac, plan);
    if d.Some? { LinkKeeps(n.devices, row.mac, d.value, k, plan); }
  }

  /** The settings that tell two rows of one device apart. */
  predicate Edited(a: NetworkInterface, b: NetworkInterface) {
    a.address != b.address || (a.address != "" && PrefixOf(a.cidr) != PrefixOf(b.cidr)) || a.mtu != b.mtu
  }

  lemma {:induction false} EditedDrifts(a: NetworkInterface, b: NetworkInterface, k: Slot)
    requires (Addressed(a) || Addressless(a)) && (Addressed(b) || Addressless(b)) && Edited(a, b)
    ensures Drifted(b, IfcfgText(a, k))
  {
    hide Drifted;
    hide IfcfgText;
    hide IsValidMac;
    hide PrefixOf;
    if Addressed(a) && Addressed(b) { EditsAreSeen(a, b, k); } else { AddressEditsAreSeen(a, b, k); }
  }

  lemma {:induction false} KeptIsGood(row: NetworkInterface)
    requires (Addressed(row) || Addressless(row)) && row.nodeName != ""
    ensures GoodRow(row)
  {
    ValidMacText(row.mac);
    TrimClean(Lower(row.mac));
  }

  /**
   An edited row: its file still is that of row `a`, the database has row `b`. The next faultless worker processes
   it, writes the file of the new row, and has nothing to do afterwards.
   */
  lemma {:induction false} EditedRowIsProcessed(n: Node, a: NetworkInterface, b: NetworkInterface, k: Slot)
    requires UniqueNames(n.devices) && OneDevice(n.devices, b.mac) && b.id in n.stored && b == Current(b, n.stored)
    requires (Addressed(a) || Addressless(a)) && (Addressed(b) || Addressless(b)) && b.nodeName != "" && Edited(a, b)
    requires NameFor(n.devices, b.mac, {}) == Some(k)
    requires FileName(k) in n.files && n.files[FileName(k)] == IfcfgText(a, k)
    ensures var (n1, o) := WorkerSpec(n, b, NO_FAULTS);
            o == Processed(k) && n1.files == n.files[FileName(k) := IfcfgText(b, k)] && Skips(n1, b)
  {
    hide Addressed;
    hide Addressless;
    hide WorkerSpec;
    hide IfcfgText;
    hide GoodRow;
    hide OneDevice;
    hide Drifted;
    hide Edited;
    hide NameFor;
    hide Skips;
    KeptIsGood(b);
    EditedDrifts(a, b, k);
    WorkerSettles(n, b);
    WorkerSkipsExactly(n, b, NO_FAULTS, k);
  }

  // ---- the edited row in its cycle -----------------------------------------------------------

  /** A name that a row's device has, and its file, are left alone by the workers of other rows, whatever fails. */
  lemma {:induction false} OthersLeaveFile(n: Node, other: NetworkInterface, plan: Plan, mac: string, id: int, k: Slot)
    requires UniqueNames(n.devices) && HasSlot(n.devices, mac, k) && !SameMac(mac, other.mac) && id != other.id
    ensures var n1 := WorkerSpec(n, other, plan).0;
            UniqueNames(n1.devices) && HasSlot(n1.devices, mac, k) &&
            Column(n1.stored, id) == Column(n.stored, id) && n1.stored.Keys == n.stored.Keys &&
            (FileName(k) in n1.files <==> FileName(k) in n.files) &&
            (FileName(k) in n.files ==> n1.files[FileName(k)] == n.files[FileName(k)]) &&
            (OneDevice(n.devices, mac) ==> OneDevice(n1.devices, mac))
  {
    hide WorkerSpec;
    hide OneDevice;
    hide FileName;
    var (n1, o) := WorkerSpec(n, other, plan);
    WorkerFrame(n, other, plan);
    SlotIsOwnOrFree(n, other, plan);
    if n1 != n {
      SlotsApart(n.devices, other.mac, o.slot, mac, k);
      SameEntry(n.files, n1.files, FileName(o.slot), FileName(k));
      SameColumn(n.stored, n1.stored, other.id, id);
      var x: nat :| Holds(n.devices, x, k, mac);
      assert Holds(n1.devices, x, k, mac);
      if OneDevice(n.devices, mac) { OneDeviceFrame(n.devices, n1.devices, mac, other.mac, o.slot); }
    }
  }

  /** Through the turns of other rows. */
  lemma {:induction false} TurnsLeaveFile(n: Node, rows: seq<NetworkInterface>, plans: seq<Plan>, i: nat, from: nat,
                                          t: nat,
                                          k: Slot)
    requires i < |rows| == |plans| && from <= t <= |rows| && (t <= i || i < from)
    requires UniqueNames(After(n, rows, plans, from).devices) && DistinctRows(rows)
    requires HasSlot(After(n, rows, plans, from).devices, rows[i].mac, k)
    ensures var a, b := After(n, rows, plans, from), After(n, rows, plans, t);
            UniqueNames(b.devices) && HasSlot(b.devices, rows[i].mac, k) &&
            Column(b.stored, rows[i].id) == Column(a.stored, rows[i].id) && b.stored.Keys == a.stored.Keys &&
            (FileName(k) in b.files <==> FileName(k) in a.files) &&
            (FileName(k) in a.files ==> b.files[FileName(k)] == a.files[FileName(k)]) &&
            (OneDevice(a.devices, rows[i].mac) ==> OneDevice(b.devices, rows[i].mac))
  {
    hide WorkerSpec;
    hide OneDevice;
    hide HasSlot;
    hide FileName;
    hide SameMac;
    if t > from {
      TurnsLeaveFile(n, rows, plans, i, from, t - 1, k);
      RowsDiffer(rows, i, t - 1);
      OthersLeaveFile(After(n, rows, plans, t - 1), rows[t - 1], plans[t - 1], rows[i].mac, rows[i].id, k);
    }
  }

  lemma {:induction false} RowsDiffer(rows: seq<NetworkInterface>, i: nat, j: nat)
    requires DistinctRows(rows) && i < |rows| && j < |rows| && i != j
    ensures !SameMac(rows[i].mac, rows[j].mac) && rows[i].id != rows[j].id
  {
  }

  lemma {:induction false} SlotIsTheName(devices: seq<Device>, mac: string, k: Slot)
    requires UniqueNames(devices) && OneDevice(devices, mac) && HasSlot(devices, mac, k)
    ensures NameFor(devices, mac, {}) == Some(k)
  {
    CarriesHolds(devices, mac, {}, k);
    var i: nat :| Holds(devices, i, k, mac);
    forall j: Slot | Carries(devices, mac, {}, j)
      ensures j == k
    {
      CarriesHolds(devices, mac, {}, j);
      var x: nat :| Holds(devices, x, j, mac);
      NameInjective(j, k);
    }
  }

  /**
   An edit takes effect within one cycle: whatever fails in the workers of other rows and in the cleanup, after the
   cycle the row's file is that of the edited row, its device has its name, and it is recorded as configured.
   */
  lemma {:induction false} EditTakesEffect(n: Node, rows: seq<NetworkInterface>, plans: seq<Plan>, i: nat, k: Slot,
                                           a: NetworkInterface, unreadable: set<string>, stuck: set<string>)
    requires UniqueNames(n.devices) && DistinctRows(rows) && i < |rows| == |plans| && plans[i] == NO_FAULTS
    requires OneDevice(n.devices, rows[i].mac) && HasSlot(n.devices, rows[i].mac, k)
    requires rows[i].id in n.stored && rows[i] == Current(rows[i], n.stored) && rows[i].nodeName != ""
    requires (Addressed(a) || Addressless(a)) && (Addressed(rows[i]) || Addressless(rows[i])) && Edited(a, rows[i])
    requires FileName(k) in n.files && n.files[FileName(k)] == IfcfgText(a, k)
    ensures var end := CycleSpec(n, rows, plans, unreadable, stuck);
            Agrees(end, rows[i], k) && Column(end.stored, rows[i].id) == 1
  {
    hide WorkerSpec;
    hide Addressed;
    hide Addressless;
    hide Edited;
    hide IfcfgText;
    hide OneDevice;
    hide HasSlot;
    hide FileName;
    hide DistinctRows;
    hide Orphan;
    var m := After(n, rows, plans, i);
    TurnsLeaveFile(n, rows, plans, i, 0, i, k);
    SlotIsTheName(m.devices, rows[i].mac, k);
    EditedRowIsProcessed(m, a, rows[i], k);
    ProcessedMeans(m, rows[i], NO_FAULTS, k);
    WorkerUnique(m, rows[i], NO_FAULTS);
    TurnsLeaveFile(n, rows, plans, i, i + 1, |rows|, k);
    var end := After(n, rows, plans, |rows|);
    OwnFileStays(end.files, rows, rows[i], k, unreadable, stuck);
  }

  lemma {:induction false} WorkerUnique(n: Node, row: NetworkInterface, plan: Plan)
    requires UniqueNames(n.devices)
    ensures UniqueNames(WorkerSpec(n, row, plan).0.devices)
  {
    hide WorkerSpec;
    WorkerFrame(n, row, plan);
  }

  lemma {:induction false} OwnFileStays(files: map<string, string>, rows: seq<NetworkInterface>, row: NetworkInterface,
                                        k: Slot, unreadable: set<string>, stuck: set<string>)
    requires row in rows && (Addressed(row) || Addressless(row))
    requires FileName(k) in files && files[FileName(k)] == IfcfgText(row, k)
    ensures var after := CleanedFiles(files, unreadable, ActiveMacs(rows), stuck);
            FileName(k) in after && after[FileName(k)] == IfcfgText(row, k)
  {
    hide IfcfgText;
    hide IsValidMac;
    hide PrefixOf;
    hide HwaddrOf;
    ReadersAgree(row, k);
    LowerTwice(row.mac);
    assert Lower(row.mac) in ActiveMacs(rows);
    CleanupKeeps(files, unreadable, ActiveMacs(rows), stuck, FileName(k));
  }
}
