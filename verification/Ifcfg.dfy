/**
 The ifcfg text of an interface, the two readers of it (the drift check's and the
 cleanup's), and the drift decision.
 */
module Ifcfg {
  import opened Options
  import opened Text
  import opened Entities
  import opened Naming

  datatype Key = DEVICE | NAME | TYPE | ONBOOT | BOOTPROTO | IPADDR | PREFIX | MTU | HWADDR

  datatype Setting = Setting(key: Key, value: string)

  function KeyText(key: Key): string {
    match key
    case DEVICE => "DEVICE"
    case NAME => "NAME"
    case TYPE => "TYPE"
    case ONBOOT => "ONBOOT"
    case BOOTPROTO => "BOOTPROTO"
    case IPADDR => "IPADDR"
    case PREFIX => "PREFIX"
    case MTU => "MTU"
    case HWADDR => "HWADDR"
  }

  function Line(s: Setting): string {
    KeyText(s.key) + "=" + s.value
  }

  function Lines(settings: seq<Setting>): (r: seq<string>)
    ensures |r| == |settings|
    ensures forall i :: 0 <= i < |r| ==> r[i] == Line(settings[i])
  {
    seq(|settings|, i requires 0 <= i < |settings| => Line(settings[i]))
  }

  // ---- the printer --------------------------------------------------------

  /** The part after '/' of a CIDR with exactly one '/'. */
  function PrefixOf(cidr: string): (r: Option<string>)
    ensures r.Some? ==> (exists net :: cidr == net + ['/'] + r.value && '/' !in net && '/' !in r.value)
  {
    var parts := Split(cidr, '/');
    if |parts| == 2 then
      TwoParts(cidr, '/');
      assert cidr == parts[0] + ['/'] + parts[1];
      Some(parts[1])
    else None
  }

  lemma PrefixChars(cidr: string, x: char)
    requires PrefixOf(cidr).Some? && x in PrefixOf(cidr).value
    ensures x in cidr
  {
  }

  /** A net and a prefix without '/' make a CIDR with that prefix. */
  lemma PrefixOfPair(net: string, prefix: string)
    requires '/' !in net && '/' !in prefix
    ensures PrefixOf(net + ['/'] + prefix) == Some(prefix)
  {
    SplitAppend(net, '/', prefix);
    SplitPlain(net, '/');
    SplitPlain(prefix, '/');
  }

  /** The IPADDR and PREFIX settings are written for these rows only. */
  predicate HasIp(row: NetworkInterface) {
    row.address != "" && PrefixOf(row.cidr).Some?
  }

  function Preamble(k: Slot): seq<Setting> {
    [Setting(DEVICE, Name(k)), Setting(NAME, Name(k)), Setting(TYPE, "Ethernet"), Setting(ONBOOT, "yes"),
     Setting(BOOTPROTO, "none")]
  }

  function IpSettings(row: NetworkInterface): seq<Setting> {
    if HasIp(row) then [Setting(IPADDR, row.address), Setting(PREFIX, PrefixOf(row.cidr).value)] else []
  }

  function MtuSettings(row: NetworkInterface): seq<Setting> {
    if row.mtu > 0 then [Setting(MTU, Itoa(row.mtu))] else []
  }

  function Settings(row: NetworkInterface, k: Slot): seq<Setting> {
    Preamble(k) + IpSettings(row) + MtuSettings(row) + [Setting(HWADDR, Lower(row.mac))]
  }

  function IfcfgText(row: NetworkInterface, k: Slot): string {
    Join(Lines(Settings(row, k)), '\n')
  }

  /** `content` is the text of the settings. */
  ghost predicate Prints(content: string, settings: seq<Setting>) {
    settings != [] && content == Join(Lines(settings), '\n')
  }

  function Append(content: string, s: Setting): string {
    content + ['\n'] + Line(s)
  }

  lemma AppendPrints(content: string, settings: seq<Setting>, s: Setting)
    requires Prints(content, settings)
    ensures Prints(Append(content, s), settings + [s])
  {
    assert Lines(settings + [s]) == Lines(settings) + [Line(s)];
    JoinAppend(Lines(settings), [Line(s)], '\n');
  }

  function PreambleText(k: Slot): (r: string)
    ensures Prints(r, Preamble(k))
  {
    var p := Preamble(k);
    var t0 := Line(p[0]);
    assert p[..1] == [p[0]] && p[..2] == p[..1] + [p[1]] && p[..3] == p[..2] + [p[2]];
    assert p[..4] == p[..3] + [p[3]] && p == p[..4] + [p[4]];
    assert Prints(t0, p[..1]);
    AppendPrints(t0, p[..1], p[1]);
    var t1 := Append(t0, p[1]);
    AppendPrints(t1, p[..2], p[2]);
    var t2 := Append(t1, p[2]);
    AppendPrints(t2, p[..3], p[3]);
    var t3 := Append(t2, p[3]);
    AppendPrints(t3, p[..4], p[4]);
    Append(t3, p[4])
  }

  /** The printer as the adapter runs it: settings are appended to the text one after another. */
  method GenerateIfcfgContent(row: NetworkInterface, k: Slot) returns (content: string)
    ensures content == IfcfgText(row, k)
  {
    content := PreambleText(k);
    ghost var all := Preamble(k);
    if row.address != "" && row.cidr != "" {
      var parts := Split(row.cidr, '/');
      if |parts| == 2 {
        var address, prefix := Setting(IPADDR, row.address), Setting(PREFIX, parts[1]);
        AppendPrints(content, all, address);
        content, all := Append(content, address), all + [address];
        AppendPrints(content, all, prefix);
        content, all := Append(content, prefix), all + [prefix];
      }
    }
    assert all == Preamble(k) + IpSettings(row);
    if row.mtu > 0 {
      var mtu := Setting(MTU, Itoa(row.mtu));
      AppendPrints(content, all, mtu);
      content, all := Append(content, mtu), all + [mtu];
    }
    var mac := Setting(HWADDR, Lower(row.mac));
    AppendPrints(content, all, mac);
    content, all := Append(content, mac), all + [mac];
    assert all == Settings(row, k);
  }

  // ---- the drift check's reader -------------------------------------------

  datatype Config = Config(mac: string, ip: string, prefix: string, mtu: int)

  const EMPTY := Config("", "", "", 0)

  /** The keys the reader knows. */
  function KeyOf(text: string): Option<Key> {
    if text == "HWADDR" then Some(HWADDR)
    else if text == "IPADDR" then Some(IPADDR)
    else if text == "PREFIX" then Some(PREFIX)
    else if text == "MTU" then Some(MTU)
    else None
  }

  function Assign(c: Config, key: Option<Key>, value: string): Config {
    match key
    case Some(HWADDR) => c.(mac := Lower(value))
    case Some(IPADDR) => c.(ip := value)
    case Some(PREFIX) => c.(prefix := value)
    case Some(MTU) => (match Atoi(value) case None => c case Some(n) => c.(mtu := n))
    case _ => c
  }

  function ReadLine(c: Config, text: string): Config {
    var line := Trim(text);
    if line == "" || line[0] == '#' then c
    else match Cut(line, '=')
         case None => c
         case Some(p) => Assign(c, KeyOf(Trim(p.0)), Trim(p.1))
  }

  /** All lines read in order: the last assignment of a key wins. */
  function ReadLines(lines: seq<string>): Config {
    if lines == [] then EMPTY else ReadLine(ReadLines(lines[..|lines| - 1]), lines[|lines| - 1])
  }

  function ReadConfig(text: string): Config {
    ReadLines(Split(text, '\n'))
  }

  method ParseIfcfgFile(content: string) returns (config: Config)
    ensures config == ReadConfig(content)
  {
    var lines := Split(content, '\n');
    config := EMPTY;
    for i := 0 to |lines|
      invariant config == ReadLines(lines[..i])
    {
      assert lines[..i + 1][..i] == lines[..i];
      var line := Trim(lines[i]);
      if line == "" || line[0] == '#' {
        continue;
      }
      var parts := Cut(line, '=');
      if parts.None? {
        continue;
      }
      var value := Trim(parts.value.1);
      match KeyOf(Trim(parts.value.0)) {
        case Some(HWADDR) => config := config.(mac := Lower(value));
        case Some(IPADDR) => config := config.(ip := value);
        case Some(PREFIX) => config := config.(prefix := value);
        case Some(MTU) =>
          var mtu := Atoi(value);
          if mtu.Some? {
            config := config.(mtu := mtu.value);
          }
        case _ =>
      }
    }
    assert lines[..|lines|] == lines;
  }

  /** Whether the settings read from the file differ from the row. */
  predicate SettingsDrift(row: NetworkInterface, file: Config) {
    var wanted := match PrefixOf(row.cidr) case None => "" case Some(p) => p;
    row.address != file.ip || (wanted != "" && file.prefix != "" && wanted != file.prefix) || row.mtu != file.mtu
  }

  predicate Drifted(row: NetworkInterface, text: string) {
    var file := ReadConfig(text);
    file.mac != Lower(row.mac) || SettingsDrift(row, file)
  }

  // ---- generate, then read -------------------------------------------------

  predicate IsKey(text: string) {
    text != "" && '=' !in text && '\n' !in text && CleanEdges(text, IsSpace) && text[0] != '#'
  }

  lemma KeyTexts(key: Key)
    ensures IsKey(KeyText(key)) && (KeyText(key)[0] == 'H' <==> key == HWADDR)
    ensures KeyOf(KeyText(key)) == if key in {HWADDR, IPADDR, PREFIX, MTU} then Some(key) else None
  {
    var c := KeyText(key)[0];
    match key {
      case DEVICE => assert c == 'D';
      case NAME => assert c == 'N';
      case TYPE => assert c == 'T';
      case ONBOOT => assert c == 'O';
      case BOOTPROTO => assert c == 'B';
      case IPADDR => assert c == 'I';
      case PREFIX => assert c == 'P';
      case MTU => assert c == 'M';
      case HWADDR => assert c == 'H';
    }
  }

  lemma TrimLine(key: string, value: string)
    requires IsKey(key)
    ensures Trim(key + "=" + value) == key + "=" + TrimRight(value, IsSpace)
  {
    var head := key + "=";
    assert head[0] == key[0] && head[|head| - 1] == '=';
    TrimKeyed(head, value);
  }

  lemma ReadKeyed(c: Config, key: string, value: string)
    requires IsKey(key)
    ensures ReadLine(c, key + "=" + value) == Assign(c, KeyOf(key), Trim(value))
  {
    TrimLine(key, value);
    var rest := TrimRight(value, IsSpace);
    var line := key + ['='] + rest;
    assert line == key + "=" + rest && line[0] == key[0];
    CutKeyed(key, '=', rest);
    TrimClean(key);
    TrimAfterTrimRight(value);
  }

  function Apply(settings: seq<Setting>): Config {
    if settings == [] then EMPTY
    else
      var s := settings[|settings| - 1];
      Assign(Apply(settings[..|settings| - 1]), Some(s.key), Trim(s.value))
  }

  /** Reading printed settings assigns each setting's trimmed value in turn. */
  lemma {:induction false} ReadPrinted(settings: seq<Setting>)
    ensures ReadLines(Lines(settings)) == Apply(settings)
  {
    if settings != [] {
      var init, s := settings[..|settings| - 1], settings[|settings| - 1];
      ReadPrinted(init);
      assert Lines(settings)[..|settings| - 1] == Lines(init);
      KeyTexts(s.key);
      ReadKeyed(ReadLines(Lines(init)), KeyText(s.key), s.value);
    }
  }

  lemma ApplyOneMore(settings: seq<Setting>, s: Setting)
    ensures Apply(settings + [s]) == Assign(Apply(settings), Some(s.key), Trim(s.value))
  {
    assert (settings + [s])[..|settings|] == settings;
  }

  function Written(row: NetworkInterface): Config {
    Config(Lower(Trim(Lower(row.mac))),
           if HasIp(row) then Trim(row.address) else "",
           if HasIp(row) then Trim(PrefixOf(row.cidr).value) else "",
           if row.mtu > 0 then row.mtu as int else 0)
  }

  predicate IsPassive(key: Key) {
    key.DEVICE? || key.NAME? || key.TYPE? || key.ONBOOT? || key.BOOTPROTO?
  }

  lemma {:induction false} ApplyPassive(all: seq<Setting>, more: seq<Setting>)
    requires forall s :: s in more ==> IsPassive(s.key)
    ensures Apply(all + more) == Apply(all)
  {
    if more == [] {
      assert all + more == all;
    } else {
      var init, s := more[..|more| - 1], more[|more| - 1];
      ApplyPassive(all, init);
      ApplyOneMore(all + init, s);
      assert s in more;
      assert all + more == all + init + [s];
    }
  }

  lemma ApplyPreamble(all: seq<Setting>, k: Slot)
    ensures Apply(all + Preamble(k)) == Apply(all)
  {
    ApplyPassive(all, Preamble(k));
  }

  lemma ApplyIp(all: seq<Setting>, row: NetworkInterface)
    ensures Apply(all + IpSettings(row)) ==
            if HasIp(row)
              then Apply(all).(ip := Trim(row.address), prefix := Trim(PrefixOf(row.cidr).value)) else Apply(all)
  {
    var ip := IpSettings(row);
    if HasIp(row) {
      ApplyOneMore(all, ip[0]);
      ApplyOneMore(all + [ip[0]], ip[1]);
      assert all + [ip[0]] + [ip[1]] == all + ip;
    } else {
      assert all + ip == all;
    }
  }

  lemma ApplyMtu(all: seq<Setting>, row: NetworkInterface)
    ensures Apply(all + MtuSettings(row)) == if row.mtu > 0 then Apply(all).(mtu := row.mtu as int) else Apply(all)
  {
    if row.mtu > 0 {
      ApplyOneMore(all, MtuSettings(row)[0]);
      ItoaClean(row.mtu);
      AtoiItoa(row.mtu);
    } else {
      assert all + MtuSettings(row) == all;
    }
  }

  lemma ApplyAll(all: seq<Setting>, row: NetworkInterface, last: Setting)
    requires Apply(all).(mac := "") == EMPTY && last.key == HWADDR
    ensures var c := Apply(all + IpSettings(row) + MtuSettings(row) + [last]);
            c == Written(row).(mac := Lower(Trim(last.value)))
  {
    ApplyIp(all, row);
    ApplyMtu(all + IpSettings(row), row);
    ApplyOneMore(all + IpSettings(row) + MtuSettings(row), last);
  }

  lemma ApplyGenerated(row: NetworkInterface, k: Slot)
    ensures Apply(Settings(row, k)) == Written(row)
  {
    ApplyPreamble([], k);
    assert [] + Preamble(k) == Preamble(k);
    ApplyAll(Preamble(k), row, Setting(HWADDR, Lower(row.mac)));
  }

  lemma ItoaClean(n: int64)
    requires n > 0
    ensures Trim(Itoa(n)) == Itoa(n) && '\n' !in Itoa(n)
  {
    var d := Digits(n);
    assert d[0] in d && d[|d| - 1] in d;
    assert IsDigit(d[0]) && IsDigit(d[|d| - 1]) && !IsDigit('\n');
    TrimClean(d);
  }

  predicate NoNewline(row: NetworkInterface) {
    '\n' !in row.mac && '\n' !in row.address && '\n' !in row.cidr
  }

  /** Printed settings whose values hold no line break are split into the same lines again. */
  lemma PrintedLines(settings: seq<Setting>)
    requires settings != [] && forall s :: s in settings ==> '\n' !in s.value
    ensures Split(Join(Lines(settings), '\n'), '\n') == Lines(settings)
  {
    var lines := Lines(settings);
    forall l | l in lines
      ensures '\n' !in l
    {
      var i :| 0 <= i < |lines| && lines[i] == l;
      KeyTexts(settings[i].key);
      assert settings[i] in settings;
    }
    SplitJoin(lines, '\n');
  }

  lemma PreambleValues(k: Slot)
    ensures forall s :: s in Preamble(k) ==> '\n' !in s.value && s.key != HWADDR
  {
    NameHasNoBreak(k);
  }

  lemma {:induction false} NameHasNoBreak(k: Slot)
    ensures '\n' !in Name(k) && '\n' !in "Ethernet" && '\n' !in "yes" && '\n' !in "none"
  {
  }

  /** The round trip: the settings of a row come back, each trimmed; a value that was not written comes back empty. */
  lemma {:induction false} ReadBack(row: NetworkInterface, k: Slot)
    requires NoNewline(row)
    ensures ReadConfig(IfcfgText(row, k)) == Written(row)
  {
    PreambleValues(k);
    if row.mtu > 0 { ItoaClean(row.mtu); }
    forall s | s in Settings(row, k)
      ensures '\n' !in s.value
    {
      if HasIp(row) && s == Setting(PREFIX, PrefixOf(row.cidr).value) && '\n' in s.value {
        PrefixChars(row.cidr, '\n');
      }
      assert s in Preamble(k) || s in IpSettings(row) || s in MtuSettings(row) || s == Setting(HWADDR, Lower(row.mac));
    }
    PrintedLines(Settings(row, k));
    ReadPrinted(Settings(row, k));
    ApplyGenerated(row, k);
  }

  /** Rows whose own file satisfies the drift check. */
  predicate FixedPoint(row: NetworkInterface) {
    Trim(Lower(row.mac)) == Lower(row.mac) && row.mtu >= 0 &&
    (row.address == "" ||
     match PrefixOf(row.cidr)
     case None => false
     case Some(p) => Trim(row.address) == row.address && (Trim(p) == p || Trim(p) == ""))
  }

  /** The file just generated is judged not drifted exactly for these rows; every other row is rewritten for ever. */
  lemma {:induction false} FixedPointExactly(row: NetworkInterface, k: Slot)
    requires NoNewline(row)
    ensures !Drifted(row, IfcfgText(row, k)) <==> FixedPoint(row)
  {
    ReadBack(row, k);
    LowerOfTrim(row.mac);
  }

  /** Lower-casing a trimmed lower-case text changes nothing. */
  lemma LowerOfTrim(s: string)
    ensures Lower(Trim(Lower(s))) == Trim(Lower(s))
  {
    var m := Lower(s);
    LowerTwice(s);
    TrimLeftSub(m, IsSpace);
    TrimRightSub(TrimLeft(m, IsSpace), IsSpace);
    var t := Trim(m);
    forall i | 0 <= i < |t|
      ensures LowerChar(t[i]) == t[i]
    {
      assert t[i] in t;
      assert t[i] in m;
    }
    assert Lower(t) == t;
  }

  lemma {:induction false} TrimLeftSub(s: string, cut: char -> bool)
    ensures forall x :: x in TrimLeft(s, cut) ==> x in s
  {
    if s != "" && cut(s[0]) { TrimLeftSub(s[1..], cut); }
  }

  lemma {:induction false} TrimRightSub(s: string, cut: char -> bool)
    ensures forall x :: x in TrimRight(s, cut) ==> x in s
  {
    if s != "" && cut(s[|s| - 1]) { TrimRightSub(s[..|s| - 1], cut); }
  }

  /** A row with clean edges can still drift for ever: its prefix starts with a space. */
  lemma {:induction false} PrefixSpaceDrifts(row: NetworkInterface, k: Slot)
    requires NoNewline(row) && row.address == "10.0.0.5" && row.cidr == "10.0.0.0" + ['/'] + " 24"
    ensures CleanEdges(row.address, IsSpace) && CleanEdges(row.cidr, IsSpace) && Drifted(row, IfcfgText(row, k))
  {
    PrefixOfPair("10.0.0.0", " 24");
    assert Trim(" 24") == "24" by {
      assert " 24"[1..] == "24";
      TrimClean("24");
      assert TrimLeft(" 24", IsSpace) == TrimLeft("24", IsSpace);
    }
    assert |Trim(" 24")| == 2;
    FixedPointExactly(row, k);
  }

  // ---- the cleanup's reader --------------------------------------------------

  /** The first line that starts with HWADDR= decides; its value is freed of quotes. */
  function FirstHwaddr(lines: seq<string>): Option<string> {
    if lines == [] then None
    else
      var line := Trim(lines[0]);
      if HasPrefix(line, "HWADDR=") then Some(TrimQuotes(TrimPrefix(line, "HWADDR="))) else FirstHwaddr(lines[1..])
  }

  function HwaddrOf(text: string): Option<string> {
    FirstHwaddr(Split(text, '\n'))
  }

  method GetMACAddressFromIfcfgFile(content: string) returns (mac: Option<string>)
    ensures mac == HwaddrOf(content)
  {
    var lines := Split(content, '\n');
    for i := 0 to |lines|
      invariant FirstHwaddr(lines) == FirstHwaddr(lines[i..])
    {
      assert lines[i..][1..] == lines[i + 1..];
      var line := Trim(lines[i]);
      if HasPrefix(line, "HWADDR=") {
        return Some(TrimQuotes(TrimPrefix(line, "HWADDR=")));
      }
    }
    return None;
  }

  lemma {:induction false} FirstHwaddrAppend(a: seq<string>, b: seq<string>)
    ensures FirstHwaddr(a + b) == if FirstHwaddr(a).Some? then FirstHwaddr(a) else FirstHwaddr(b)
  {
    if a == [] {
      assert a + b == b;
    } else {
      assert (a + b)[1..] == a[1..] + b;
      FirstHwaddrAppend(a[1..], b);
    }
  }

  /** Printed settings other than HWADDR are passed over. */
  lemma {:induction false} OtherKeys(settings: seq<Setting>)
    requires forall s :: s in settings ==> s.key != HWADDR
    ensures FirstHwaddr(Lines(settings)) == None
  {
    if settings != [] {
      var s := settings[0];
      OtherKeys(settings[1..]);
      assert Lines(settings)[1..] == Lines(settings[1..]);
      KeyTexts(s.key);
      TrimLine(KeyText(s.key), s.value);
      assert Trim(Line(s))[0] == KeyText(s.key)[0] != 'H' == "HWADDR="[0];
    }
  }

  /** The lines that the address and the prefix of a row take up, line breaks included. */
  function IpText(row: NetworkInterface): seq<string> {
    if HasIp(row) then
      Split(Line(Setting(IPADDR, row.address)), '\n') + Split(Line(Setting(PREFIX, PrefixOf(row.cidr).value)), '\n')
    else []
  }

  /** The HWADDR value that a line break inside the address or the prefix smuggles in, if any. */
  function Smuggled(row: NetworkInterface): Option<string> {
    FirstHwaddr(IpText(row))
  }

  lemma LinesAppend(a: seq<Setting>, b: seq<Setting>)
    ensures Lines(a + b) == Lines(a) + Lines(b)
  {
  }

  /** The settings after the address lines. */
  function Trailer(row: NetworkInterface): seq<Setting> {
    MtuSettings(row) + [Setting(HWADDR, Lower(row.mac))]
  }

  lemma TrailerLines(row: NetworkInterface)
    requires IsValidMac(row.mac)
    ensures Split(Join(Lines(Trailer(row)), '\n'), '\n') == Lines(Trailer(row))
    ensures FirstHwaddr(Lines(Trailer(row))) == Some(Lower(row.mac))
  {
    var own := [Setting(HWADDR, Lower(row.mac))];
    ValidMacText(row.mac);
    if row.mtu > 0 { ItoaClean(row.mtu); }
    PrintedLines(Trailer(row));
    LinesAppend(MtuSettings(row), own);
    OtherKeys(MtuSettings(row));
    HwaddrSetting(Lower(row.mac));
    FirstHwaddrAppend(Lines(MtuSettings(row)), Lines(own));
  }

  lemma IpLines(row: NetworkInterface)
    requires HasIp(row)
    ensures IpText(row) == Split(Join(Lines(IpSettings(row)), '\n'), '\n')
  {
    var ip := IpSettings(row);
    assert Lines(ip) == [Line(ip[0])] + [Line(ip[1])];
    SplitJoined([Line(ip[0])], [Line(ip[1])], '\n');
  }

  /** For every row with a valid MAC address, the lines of its generated file. */
  lemma {:induction false} GeneratedText(row: NetworkInterface, k: Slot)
    requires IsValidMac(row.mac)
    ensures Split(IfcfgText(row, k), '\n') == Lines(Preamble(k)) + (IpText(row) + Lines(Trailer(row)))
  {
    var head, ip, tail := Preamble(k), IpSettings(row), Trailer(row);
    assert Settings(row, k) == head + (ip + tail);
    LinesAppend(head, ip + tail);
    LinesAppend(ip, tail);
    PreambleValues(k);
    PrintedLines(head);
    TrailerLines(row);
    if HasIp(row) {
      SplitJoined(Lines(head), Lines(ip) + Lines(tail), '\n');
      SplitJoined(Lines(ip), Lines(tail), '\n');
      IpLines(row);
    } else {
      assert Lines(ip) + Lines(tail) == Lines(tail) && IpText(row) == [];
      SplitJoined(Lines(head), Lines(tail), '\n');
    }
  }

  /** What the cleanup reads from the generated file of any row with a valid MAC address. */
  lemma {:induction false} CleanupReads(row: NetworkInterface, k: Slot)
    requires IsValidMac(row.mac)
    ensures HwaddrOf(IfcfgText(row, k)) == if Smuggled(row).Some? then Smuggled(row) else Some(Lower(row.mac))
  {
    GeneratedText(row, k);
    PreambleValues(k);
    OtherKeys(Preamble(k));
    TrailerLines(row);
    FirstHwaddrAppend(Lines(Preamble(k)), IpText(row) + Lines(Trailer(row)));
    FirstHwaddrAppend(IpText(row), Lines(Trailer(row)));
  }

  /** Without line breaks in the row, its address lines hold no HWADDR. */
  lemma NothingSmuggled(row: NetworkInterface)
    requires NoNewline(row)
    ensures Smuggled(row) == None
  {
    if HasIp(row) {
      var ip := IpSettings(row);
      if '\n' in ip[1].value { PrefixChars(row.cidr, '\n'); }
      KeyTexts(IPADDR);
      KeyTexts(PREFIX);
      SplitPlain(Line(ip[0]), '\n');
      SplitPlain(Line(ip[1]), '\n');
      assert IpText(row) == Lines(ip);
      OtherKeys(ip);
    }
  }

  /** Without line breaks in the row, both readers get the row's MAC address, lower-cased, from the generated file. */
  lemma {:induction false} ReadersAgree(row: NetworkInterface, k: Slot)
    requires IsValidMac(row.mac) && NoNewline(row)
    ensures HwaddrOf(IfcfgText(row, k)) == Some(Lower(row.mac))
    ensures ReadConfig(IfcfgText(row, k)).mac == Lower(row.mac)
  {
    CleanupReads(row, k);
    NothingSmuggled(row);
    ReadBack(row, k);
    ValidMacText(row.mac);
    TrimClean(Lower(row.mac));
  }

  lemma SmuggledLines(shown: string, other: string)
    requires '\n' !in shown && '\n' !in other && CleanEdges(other, IsSpace) && CleanEdges(other, IsQuote)
    ensures var address := shown + ['\n'] + Line(Setting(HWADDR, other));
            FirstHwaddr(Split(Line(Setting(IPADDR, address)), '\n')) == Some(other)
  {
    var address := shown + ['\n'] + Line(Setting(HWADDR, other));
    var first, second := Setting(IPADDR, shown), Setting(HWADDR, other);
    KeyTexts(IPADDR);
    KeyTexts(HWADDR);
    assert Line(Setting(IPADDR, address)) == Line(first) + ['\n'] + Line(second);
    SplitAppend(Line(first), '\n', Line(second));
    SplitPlain(Line(first), '\n');
    SplitPlain(Line(second), '\n');
    OtherKeys([first]);
    HwaddrSetting(other);
    FirstHwaddrAppend(Lines([first]), Lines([second]));
  }

  /** A line break in the address makes the cleanup read whatever MAC address follows it. */
  lemma {:induction false} SmuggledHwaddr(row: NetworkInterface, k: Slot, shown: string, other: string)
    requires IsValidMac(row.mac) && PrefixOf(row.cidr).Some?
    requires row.address == shown + ['\n'] + Line(Setting(HWADDR, other)) && '\n' !in shown
    requires '\n' !in other && CleanEdges(other, IsSpace) && CleanEdges(other, IsQuote)
    ensures HwaddrOf(IfcfgText(row, k)) == Some(other)
  {
    CleanupReads(row, k);
    SmuggledLines(shown, other);
    FirstHwaddrAppend(Split(Line(Setting(IPADDR, row.address)), '\n'),
                      Split(Line(Setting(PREFIX, PrefixOf(row.cidr).value)), '\n'));
  }

  lemma HwaddrSetting(value: string)
    requires CleanEdges(value, IsSpace) && CleanEdges(value, IsQuote)
    ensures FirstHwaddr(Lines([Setting(HWADDR, value)])) == Some(value)
  {
    KeyTexts(HWADDR);
    TrimLine("HWADDR", value);
    TrimIdentity(value, IsSpace);
    TrimIdentity(value, IsQuote);
    var line := "HWADDR=" + value;
    assert Line(Setting(HWADDR, value)) == line;
    assert line[..7] == "HWADDR=" && line[7..] == value;
  }
}
