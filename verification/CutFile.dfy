/** What is left of a generated file when its write is cut off, as the two readers see it. */
module CutFile {
  import opened Options
  import opened Text
  import opened Entities
  import opened Naming
  import opened Ifcfg
  import opened Cycle

  /** A line on which neither reader can find a MAC address. */
  predicate Dull(line: string) {
    line != "" ==> !IsSpace(line[0]) && line[0] != 'H'
  }

  lemma {:induction false} TrimRightKeepsHead(s: string, cut: char -> bool)
    requires s != "" && !cut(s[0])
    ensures TrimRight(s, cut) != "" && TrimRight(s, cut)[0] == s[0]
  {
    if cut(s[|s| - 1]) { TrimRightKeepsHead(s[..|s| - 1], cut); }
  }

  lemma DullLine(c: Config, line: string)
    requires Dull(line)
    ensures ReadLine(c, line).mac == c.mac && FirstHwaddr([line]) == None
  {
    if line == "" {
      assert Trim(line) == "";
    } else {
      TrimRightKeepsHead(line, IsSpace);
      var t := Trim(line);
      assert t[0] == line[0] != "HWADDR="[0];
      CutParts(t, '=');
      var p := Cut(t, '=');
      if p.Some? && p.value.0 != "" {
        TrimRightKeepsHead(p.value.0, IsSpace);
        assert Trim(p.value.0)[0] == t[0] != "HWADDR"[0];
      }
    }
  }

  lemma {:induction false} DullLines(lines: seq<string>)
    requires forall l :: l in lines ==> Dull(l)
    ensures ReadLines(lines).mac == "" && FirstHwaddr(lines) == None
  {
    if lines != [] {
      var init, l := lines[..|lines| - 1], lines[|lines| - 1];
      DullLines(init);
      DullLine(ReadLines(init), l);
      assert lines == init + [l];
      FirstHwaddrAppend(init, [l]);
    }
  }

  /** Cutting a text keeps its lines dull: all but the first, and the first as well. */
  lemma {:induction false} CutTailDull(s: string, n: nat)
    requires n <= |s| && forall i :: 1 <= i < |Split(s, '\n')| ==> Dull(Split(s, '\n')[i])
    ensures forall i :: 1 <= i < |Split(s[..n], '\n')| ==> Dull(Split(s[..n], '\n')[i])
  {
    if n > 0 {
      var t := s[1..];
      assert s[..n][1..] == t[..n - 1] && s[..n][0] == s[0];
      var whole, part := Split(t, '\n'), Split(t[..n - 1], '\n');
      if s[0] == '\n' {
        assert forall i :: 0 <= i < |whole| ==> whole[i] == Split(s, '\n')[i + 1];
        CutTailDull(t, n - 1);
        CutHeadDull(t, n - 1);
        assert Split(s[..n], '\n') == [""] + part;
      } else {
        assert forall i :: 1 <= i < |whole| ==> whole[i] == Split(s, '\n')[i];
        CutTailDull(t, n - 1);
        assert Split(s[..n], '\n') == [[s[0]] + part[0]] + part[1..];
      }
    }
  }

  lemma CutHeadDull(s: string, n: nat)
    requires n <= |s| && Dull(Split(s, '\n')[0])
    ensures Dull(Split(s[..n], '\n')[0])
  {
    if n > 0 {
      assert s[..n][0] == s[0];
    }
  }

  lemma CutDull(s: string, n: nat)
    requires n <= |s| && forall l :: l in Split(s, '\n') ==> Dull(l)
    ensures forall l :: l in Split(s[..n], '\n') ==> Dull(l)
  {
    CutTailDull(s, n);
    CutHeadDull(s, n);
  }

  lemma SettingLineDull(s: Setting)
    requires s.key != HWADDR
    ensures Dull(Line(s))
  {
    KeyTexts(s.key);
    assert Line(s)[0] == KeyText(s.key)[0];
  }

  lemma DullSettings(settings: seq<Setting>)
    requires settings != [] && forall s :: s in settings ==> s.key != HWADDR && '\n' !in s.value
    ensures var head := Join(Lines(settings), '\n');
            Split(head, '\n') == Lines(settings) && forall l :: l in Split(head, '\n') ==> Dull(l)
  {
    PrintedLines(settings);
    forall l | l in Lines(settings)
      ensures Dull(l)
    {
      var i :| 0 <= i < |settings| && Lines(settings)[i] == l;
      assert settings[i] in settings;
      SettingLineDull(settings[i]);
    }
  }

  /** What is left of the HWADDR line. */
  lemma HwaddrLineCut(c: Config, mac: string, n: nat)
    requires forall x :: x in mac ==> !IsSpace(x) && !IsQuote(x) && x != '\n'
    requires n <= |Line(Setting(HWADDR, mac))|
    ensures var l := Line(Setting(HWADDR, mac))[..n];
            '\n' !in l &&
            (FirstHwaddr([l]).Some? ==> ReadLine(c, l).mac == Lower(FirstHwaddr([l]).value))
  {
    var line := Line(Setting(HWADDR, mac));
    var l := line[..n];
    assert line == "HWADDR=" + mac;
    forall i | 0 <= i < n
      ensures !IsSpace(l[i]) && l[i] != '\n'
    {
      assert i < 7 ==> l[i] == "HWADDR="[i];
      assert i >= 7 ==> l[i] == mac[i - 7];
    }
    TrimClean(l);
    if n >= 7 {
      var rest := mac[..n - 7];
      assert l == "HWADDR=" + rest;
      assert CleanEdges(rest, IsSpace) && CleanEdges(rest, IsQuote);
      HwaddrSetting(rest);
      assert Lines([Setting(HWADDR, rest)]) == [l];
      KeyTexts(HWADDR);
      ReadKeyed(c, "HWADDR", rest);
      TrimClean(rest);
    }
  }

  lemma BeforeHwaddr(row: NetworkInterface, k: Slot)
    requires NoNewline(row)
    ensures var s := Settings(row, k)[..|Settings(row, k)| - 1];
            s != [] && Settings(row, k) == s + [Setting(HWADDR, Lower(row.mac))] &&
            forall x :: x in s ==> x.key != HWADDR && '\n' !in x.value
  {
    var s := Preamble(k) + IpSettings(row) + MtuSettings(row);
    assert Settings(row, k)[..|Settings(row, k)| - 1] == s;
    PreambleValues(k);
    if row.mtu > 0 { ItoaClean(row.mtu); }
    forall x | x in s
      ensures x.key != HWADDR && '\n' !in x.value
    {
      if HasIp(row) && x == Setting(PREFIX, PrefixOf(row.cidr).value) && '\n' in x.value {
        PrefixChars(row.cidr, '\n');
      }
      assert x in Preamble(k) || x in IpSettings(row) || x in MtuSettings(row);
    }
  }

  /** Wherever the write of a good row's file is cut off, the two readers do not disagree on the MAC address. */
  lemma {:induction false} CutIsCoherent(row: NetworkInterface, k: Slot, n: nat)
    requires IsValidMac(row.mac) && NoNewline(row) && n <= |IfcfgText(row, k)|
    ensures CoherentText(IfcfgText(row, k)[..n])
  {
    hide CoherentText;
    hide Line;
    hide Dull;
    hide IfcfgText;
    hide IsValidMac;
    var head := TextBeforeHwaddr(row, k);
    var last := Line(Setting(HWADDR, Lower(row.mac)));
    var text := IfcfgText(row, k);
    if n <= |head| {
      assert text[..n] == head[..n];
      CutDull(head, n);
      DullText(head[..n]);
    } else {
      CutInLastLine(row, head, Split(head, '\n'), n - |head| - 1);
      assert text[..n] == head + ['\n'] + last[..n - |head| - 1];
    }
  }

  /** A file that lacks even one character of the generated text is drifted. */
  lemma {:induction false} CutDrifts(row: NetworkInterface, k: Slot, n: nat)
    requires IsValidMac(row.mac) && NoNewline(row) && n < |IfcfgText(row, k)|
    ensures ReadConfig(IfcfgText(row, k)[..n]).mac != Lower(row.mac)
  {
    hide Line;
    hide Dull;
    hide IfcfgText;
    hide IsValidMac;
    var head := TextBeforeHwaddr(row, k);
    var last := Line(Setting(HWADDR, Lower(row.mac)));
    var text := IfcfgText(row, k);
    ValidMacText(row.mac);
    if n <= |head| {
      assert text[..n] == head[..n];
      CutDull(head, n);
      DullLines(Split(head[..n], '\n'));
    } else {
      var l := last[..n - |head| - 1];
      assert text[..n] == head + ['\n'] + l;
      DullLines(Split(head, '\n'));
      ShortHwaddrLine(ReadLines(Split(head, '\n')), Lower(row.mac), |l|);
      SplitAppend(head, '\n', l);
      SplitPlain(l, '\n');
      assert (Split(head, '\n') + [l])[..|Split(head, '\n')|] == Split(head, '\n');
    }
  }

  /** A HWADDR line that lacks characters yields another MAC address, or none. */
  lemma ShortHwaddrLine(c: Config, mac: string, n: nat)
    requires mac != "" && forall x :: x in mac ==> !IsSpace(x) && !IsQuote(x) && x != '\n'
    requires n < |Line(Setting(HWADDR, mac))| && c.mac == ""
    ensures var l := Line(Setting(HWADDR, mac))[..n]; '\n' !in l && |ReadLine(c, l).mac| < |mac|
  {
    hide ReadLine;
    HwaddrLineCut(c, mac, n);
    var line := Line(Setting(HWADDR, mac));
    var l := line[..n];
    assert line == "HWADDR=" + mac;
    if n >= 7 {
      ShortValue(c, mac[..n - 7]);
      assert l == "HWADDR=" + mac[..n - 7];
    } else {
      assert forall i :: 0 <= i < n ==> l[i] == "HWADDR="[i] && !IsSpace(l[i]) && l[i] != '=';
      assert '=' !in l;
      NoKey(c, l);
    }
  }

  lemma ShortValue(c: Config, rest: string)
    requires forall x :: x in rest ==> !IsSpace(x)
    ensures ReadLine(c, "HWADDR=" + rest).mac == Lower(rest)
  {
    hide ReadLine;
    KeyTexts(HWADDR);
    ReadKeyed(c, KeyText(HWADDR), rest);
    TrimClean(rest);
    assert KeyText(HWADDR) + "=" + rest == "HWADDR=" + rest;
  }

  /** A line without '=' changes nothing. */
  lemma NoKey(c: Config, line: string)
    requires '=' !in line && forall i :: 0 <= i < |line| ==> !IsSpace(line[i])
    ensures ReadLine(c, line) == c
  {
    TrimClean(line);
    CutParts(line, '=');
  }

  lemma TextBeforeHwaddr(row: NetworkInterface, k: Slot) returns (head: string)
    requires NoNewline(row)
    ensures IfcfgText(row, k) == head + ['\n'] + Line(Setting(HWADDR, Lower(row.mac)))
    ensures forall l :: l in Split(head, '\n') ==> Dull(l)
  {
    hide Line;
    hide Dull;
    BeforeHwaddr(row, k);
    var s := Settings(row, k)[..|Settings(row, k)| - 1];
    var last := Setting(HWADDR, Lower(row.mac));
    head := Join(Lines(s), '\n');
    LinesAppend(s, [last]);
    assert Lines([last]) == [Line(last)];
    JoinAppend(Lines(s), [Line(last)], '\n');
    DullSettings(s);
  }

  lemma DullText(text: string)
    requires forall l :: l in Split(text, '\n') ==> Dull(l)
    ensures CoherentText(text)
  {
    DullLines(Split(text, '\n'));
  }

  lemma CutInLastLine(row: NetworkInterface, head: string, lines: seq<string>, n: nat)
    requires IsValidMac(row.mac) && n <= |Line(Setting(HWADDR, Lower(row.mac)))|
    requires Split(head, '\n') == lines && forall l :: l in lines ==> Dull(l)
    ensures CoherentText(head + ['\n'] + Line(Setting(HWADDR, Lower(row.mac)))[..n])
  {
    hide ReadLine;
    var l := Line(Setting(HWADDR, Lower(row.mac)))[..n];
    ValidMacText(row.mac);
    HwaddrLineCut(ReadLines(lines), Lower(row.mac), n);
    SplitAppend(head, '\n', l);
    SplitPlain(l, '\n');
    DullLines(lines);
    FirstHwaddrAppend(lines, [l]);
    assert (lines + [l])[..|lines|] == lines;
  }
}
