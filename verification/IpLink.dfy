/**
 The kernel's device table, its rendering by `ip link show`, and the scanner
 that looks a device up by MAC address in that rendering.
 */
module IpLink {
  import opened Options
  import opened Text
  import opened Entities

  datatype Device = Device(name: string, mac: string)

  /** The first device of the table carrying the MAC address, ignoring case. */
  function FirstWithMac(devices: seq<Device>, mac: string): (r: Option<nat>)
    ensures match r
            case Some(i) => i < |devices| && SameMac(devices[i].mac, mac) &&
                            (forall j :: 0 <= j < i ==> !SameMac(devices[j].mac, mac))
            case None => forall j :: 0 <= j < |devices| ==> !SameMac(devices[j].mac, mac)
  {
    if devices == [] then None
    else if SameMac(devices[0].mac, mac) then Some(0)
    else match FirstWithMac(devices[1..], mac)
         case None => None
         case Some(i) => assert devices[1..][i] == devices[i + 1]; Some(i + 1)
  }

  // ---- the text of `ip link show` ----------------------------------------

  /**
   One device as `ip link show` prints it: a header line, then a `link/...`
   line. `before` and `after` are the other lines printed for it; a device
   that is not Ethernet has no `ether` line.
   */
  datatype LinkEntry = LinkEntry(index: nat, name: string, flags: string,
                                 before: seq<string>, ether: Option<string>, after: seq<string>)

  function Header(e: LinkEntry): string {
    Itoa(e.index) + ":" + " " + e.name + ":" + " " + e.flags
  }

  function EtherLine(mac: string): string {
    "    link/ether " + mac + " brd ff:ff:ff:ff:ff:ff"
  }

  function EntryLines(e: LinkEntry): seq<string> {
    [Header(e)] + e.before + (match e.ether case None => [] case Some(m) => [EtherLine(m)]) + e.after
  }

  function TableLines(entries: seq<LinkEntry>): seq<string> {
    if entries == [] then [] else EntryLines(entries[0]) + TableLines(entries[1..])
  }

  /** The Ethernet devices among the printed ones. */
  function Ethernets(entries: seq<LinkEntry>): seq<Device> {
    if entries == [] then []
    else (match entries[0].ether case None => [] case Some(m) => [Device(entries[0].name, m)]) + Ethernets(entries[1..])
  }

  /** A line that neither starts a device nor names an Ethernet address; blank lines included. */
  predicate IsNoise(line: string) {
    var t := Trim(line);
    '\n' !in line && (t == "" || (!(':' in t && IsDigit(t[0])) && !Contains(t, "link/ether")))
  }

  predicate Plain(word: string) {
    word != "" && forall c :: c in word ==> !IsSpace(c) && c != ':'
  }

  predicate WellFormed(e: LinkEntry) {
    Plain(e.name) && '\n' !in e.flags &&
    (forall l :: l in e.before ==> IsNoise(l)) && (forall l :: l in e.after ==> IsNoise(l)) &&
    (e.ether.Some? ==> e.ether.value != "" && forall c :: c in e.ether.value ==> !IsSpace(c))
  }

  // ---- the scanner --------------------------------------------------------

  predicate IsHeader(line: string)
    requires line != ""
  {
    ':' in line && IsDigit(line[0])
  }

  /** The word after the first `link/ether` that has one. */
  function EtherField(fields: seq<string>): Option<string> {
    if |fields| < 2 then None
    else if fields[0] == "link/ether" then Some(fields[1])
    else EtherField(fields[1..])
  }

  /** The scan from `lines` on, with `current` the device of the last header seen. */
  function Scan(lines: seq<string>, current: string, target: string): Option<string> {
    if lines == [] then None
    else
      var line := Trim(lines[0]);
      if line == "" then Scan(lines[1..], current, target)
      else if IsHeader(line) then
        var parts := Split(line, ':');
        Scan(lines[1..], if |parts| >= 2 then Trim(parts[1]) else current, target)
      else if Contains(line, "link/ether") && current != "" then
        match EtherField(Fields(line))
        case Some(m) => if Lower(m) == target then Some(current) else Scan(lines[1..], current, target)
        case None => Scan(lines[1..], current, target)
      else Scan(lines[1..], current, target)
  }

  /** The scanner as the adapter runs it, line by line over the command's output. */
  method FindDeviceByMAC(output: string, mac: string) returns (device: Option<string>)
    ensures device == Scan(Split(output, '\n'), "", Lower(mac))
  {
    var lines := Split(output, '\n');
    var target := Lower(mac);
    var current := "";
    var n := 0;
    while n < |lines|
      invariant 0 <= n <= |lines|
      invariant Scan(lines, "", target) == Scan(lines[n..], current, target)
    {
      var line := Trim(lines[n]);
      assert lines[n..][0] == lines[n] && lines[n..][1..] == lines[n + 1..];
      n := n + 1;
      if line == "" {
        continue;
      }
      if ':' in line && IsDigit(line[0]) {
        var parts := Split(line, ':');
        if |parts| >= 2 {
          current := Trim(parts[1]);
        }
      } else if Contains(line, "link/ether") && current != "" {
        var fields := Fields(line);
        var i := 0;
        while i + 1 < |fields| && fields[i] != "link/ether"
          invariant 0 <= i <= |fields|
          invariant EtherField(fields) == EtherField(fields[i..])
        {
          assert fields[i..][1..] == fields[i + 1..];
          i := i + 1;
        }
        if i + 1 < |fields| {
          assert EtherField(fields) == Some(fields[i + 1]);
          if Lower(fields[i + 1]) == target {
            return Some(current);
          }
        }
      }
    }
    return None;
  }

  // ---- the scanner against the table ---------------------------------------

  lemma {:induction false} NoiseIsSkipped(noise: seq<string>, rest: seq<string>, current: string, target: string)
    requires forall l :: l in noise ==> IsNoise(l)
    ensures Scan(noise + rest, current, target) == Scan(rest, current, target)
  {
    if noise == [] {
      assert noise + rest == rest;
    } else {
      assert IsNoise(noise[0]);
      assert (noise + rest)[1..] == noise[1..] + rest;
      NoiseIsSkipped(noise[1..], rest, current, target);
    }
  }

  lemma HeaderLine(e: LinkEntry)
    requires Plain(e.name)
    ensures var t := Trim(Header(e));
            t != "" && IsHeader(t) && |Split(t, ':')| >= 2 && Trim(Split(t, ':')[1]) == e.name
  {
    var d := Digits(e.index);
    var head := d + ":" + " " + e.name + ":";
    assert Header(e) == head + (" " + e.flags);
    assert d[0] in d && head[0] == d[0];
    assert IsDigit(d[0]);
    TrimKeyed(head, " " + e.flags);
    var tail := TrimRight(" " + e.flags, IsSpace);
    assert Trim(Header(e)) == d + ":" + ((" " + e.name) + ":" + tail);
    SplitAppend(d, ':', (" " + e.name) + ":" + tail);
    SplitAppend(" " + e.name, ':', tail);
    assert ':' !in d;
    SplitPlain(d, ':');
    SplitPlain(" " + e.name, ':');
    assert e.name[0] in e.name && e.name[|e.name| - 1] in e.name;
    assert TrimLeft(" " + e.name, IsSpace) == TrimLeft(e.name, IsSpace) by { assert (" " + e.name)[1..] == e.name; }
  }

  /** The `link/ether` line without its indentation. */
  function EtherBody(mac: string): string {
    "link/ether" + " " + (mac + " " + "brd ff:ff:ff:ff:ff:ff")
  }

  lemma EtherIndent(mac: string)
    ensures Trim(EtherLine(mac)) == EtherBody(mac)
    ensures EtherBody(mac)[0] == 'l'
  {
    var t := EtherBody(mac);
    assert EtherLine(mac) == "    " + t;
    FourSpaces(t);
    assert !IsSpace(t[0]) && t[|t| - 1] == 'f';
    TrimIdentity(t, IsSpace);
  }

  lemma FourSpaces(s: string)
    ensures TrimLeft("    " + s, IsSpace) == TrimLeft(s, IsSpace)
  {
    var a, b, c := " " + s, "  " + s, "   " + s;
    assert ("    " + s)[1..] == c && c[1..] == b && b[1..] == a && a[1..] == s;
    assert TrimLeft(a, IsSpace) == TrimLeft(s, IsSpace);
    assert TrimLeft(b, IsSpace) == TrimLeft(a, IsSpace);
    assert TrimLeft(c, IsSpace) == TrimLeft(b, IsSpace);
  }

  lemma EtherFields(mac: string)
    requires mac != "" && forall c :: c in mac ==> !IsSpace(c)
    ensures EtherField(Fields(EtherBody(mac))) == Some(mac)
  {
    var broadcast := "brd ff:ff:ff:ff:ff:ff";
    FieldsCons("link/ether", mac + " " + broadcast);
    FieldsCons(mac, broadcast);
    var f := Fields(EtherBody(mac));
    assert f == ["link/ether"] + ([mac] + Fields(broadcast));
    assert f[0] == "link/ether" && f[1] == mac;
  }

  lemma EtherLineRead(mac: string)
    requires mac != "" && forall c :: c in mac ==> !IsSpace(c)
    ensures var t := Trim(EtherLine(mac));
            t != "" && !IsHeader(t) && Contains(t, "link/ether") && EtherField(Fields(t)) == Some(mac)
  {
    EtherIndent(mac);
    EtherFields(mac);
    var t := EtherBody(mac);
    assert t[0..] == t && HasPrefix(t[0..], "link/ether");
  }

  /** Once the header of an entry has been read, the rest of the entry decides on that device alone. */
  lemma {:induction false} EntryScanned(e: LinkEntry, rest: seq<string>, current: string, target: string)
    requires WellFormed(e)
    ensures Scan(EntryLines(e) + rest, current, target) ==
            if e.ether.Some? && Lower(e.ether.value) == target then Some(e.name) else Scan(rest, e.name, target)
  {
    var ether := match e.ether case None => [] case Some(m) => [EtherLine(m)];
    var tail := e.after + rest;
    HeaderLine(e);
    var lines := EntryLines(e) + rest;
    assert lines[0] == Header(e) && lines[1..] == e.before + (ether + tail);
    NoiseIsSkipped(e.before, ether + tail, e.name, target);
    NoiseIsSkipped(e.after, rest, e.name, target);
    match e.ether {
      case None => assert ether + tail == tail;
      case Some(m) =>
        EtherLineRead(m);
        assert (ether + tail)[0] == EtherLine(m) && (ether + tail)[1..] == tail;
    }
  }

  lemma {:induction false} TableScanned(entries: seq<LinkEntry>, current: string, mac: string)
    requires forall e :: e in entries ==> WellFormed(e)
    ensures var devices := Ethernets(entries);
            Scan(TableLines(entries), current, Lower(mac)) ==
            match FirstWithMac(devices, mac) case None => None case Some(i) => Some(devices[i].name)
  {
    if entries != [] {
      var e, rest := entries[0], entries[1..];
      TableScanned(rest, e.name, mac);
      EntryScanned(e, TableLines(rest), current, Lower(mac));
      if e.ether.Some? {
        assert Ethernets(entries)[1..] == Ethernets(rest);
      } else {
        assert Ethernets(entries) == Ethernets(rest);
      }
    }
  }

  lemma {:induction false} TableHasNoNewline(entries: seq<LinkEntry>)
    requires forall e :: e in entries ==> WellFormed(e)
    ensures forall l :: l in TableLines(entries) ==> '\n' !in l
  {
    if entries != [] {
      TableHasNoNewline(entries[1..]);
      var e := entries[0];
      var d := Digits(e.index);
      assert e in entries && WellFormed(e);
      assert IsSpace('\n') && '\n' !in d && '\n' !in e.name;
      assert '\n' !in Header(e);
      if e.ether.Some? {
        assert '\n' !in EtherLine(e.ether.value);
      }
      assert forall l :: l in e.before || l in e.after ==> IsNoise(l);
      assert forall l :: l in EntryLines(e) ==> '\n' !in l;
    }
  }

  /** What `ip link show` prints for the entries, possibly after lines that belong to no device. */
  function Render(lead: seq<string>, entries: seq<LinkEntry>): string {
    Join(lead + TableLines(entries), '\n')
  }

  /**
   The scan is sound and complete: on the rendering of any table it returns the
   first Ethernet device with the MAC address, and nothing exactly when there is none.
   */
  lemma {:induction false} ScanFindsDevice(lead: seq<string>, entries: seq<LinkEntry>, mac: string)
    requires forall l :: l in lead ==> IsNoise(l)
    requires forall e :: e in entries ==> WellFormed(e)
    ensures var devices := Ethernets(entries);
            Scan(Split(Render(lead, entries), '\n'), "", Lower(mac)) ==
            match FirstWithMac(devices, mac) case None => None case Some(i) => Some(devices[i].name)
  {
    var lines := lead + TableLines(entries);
    TableHasNoNewline(entries);
    TableScanned(entries, "", mac);
    NoiseIsSkipped(lead, TableLines(entries), "", Lower(mac));
    if lines == [] {
      assert Scan([""], "", Lower(mac)) == None;
    } else {
      SplitJoin(lines, '\n');
    }
  }

  // ---- the table as the host prints it ---------------------------------------

  predicate Printable(d: Device) {
    Plain(d.name) && d.mac != "" && forall c :: c in d.mac ==> !IsSpace(c)
  }

  function Entries(devices: seq<Device>, first: nat): (r: seq<LinkEntry>)
    ensures Ethernets(r) == devices
  {
    if devices == [] then []
    else
      var d := devices[0];
      var e := LinkEntry(first, d.name, "<BROADCAST,MULTICAST,UP,LOWER_UP> mtu 1500", [], Some(d.mac), []);
      [e] + Entries(devices[1..], first + 1)
  }

  lemma {:induction false} EntriesWellFormed(devices: seq<Device>, first: nat)
    requires forall d :: d in devices ==> Printable(d)
    ensures forall e :: e in Entries(devices, first) ==> WellFormed(e)
  {
    if devices != [] {
      EntriesWellFormed(devices[1..], first + 1);
      assert Printable(devices[0]);
    }
  }

  /** The output of `ip link show` for a table of Ethernet devices. */
  function ShowLinks(devices: seq<Device>): string {
    Render([], Entries(devices, 2))
  }
}
