/** A file on which the two readers disagree: the row is skipped for it, and the cleanup deletes it. */
module Disagreement {
  import opened Options
  import opened Text
  import opened Entities
  import opened Naming
  import opened Ifcfg
  import opened Rhel
  import opened Cleanup
  import opened Cycle

  /** The generated file below one more HWADDR line. */
  function WithAddress(row: NetworkInterface, k: Slot, other: string): string {
    Line(Setting(HWADDR, other)) + ['\n'] + IfcfgText(row, k)
  }

  lemma PrintedWithAddress(row: NetworkInterface, k: Slot, other: string)
    ensures WithAddress(row, k, other) == Join(Lines([Setting(HWADDR, other)] + Settings(row, k)), '\n')
  {
    hide Line;
    hide Settings;
    var s := Setting(HWADDR, other);
    LinesAppend([s], Settings(row, k));
    assert Lines([s]) == [Line(s)];
    SettingsExist(row, k);
    JoinAppend(Lines([s]), Lines(Settings(row, k)), '\n');
  }

  lemma SettingsExist(row: NetworkInterface, k: Slot)
    ensures Settings(row, k) != []
  {
  }

  /** The drift check takes the last address and is content; the cleanup takes the first. */
  lemma {:induction false} ReadersDisagree(row: NetworkInterface, k: Slot, other: string)
    requires GoodRow(row) && IsValidMac(other)
    ensures !Drifted(row, WithAddress(row, k, other)) && HwaddrOf(WithAddress(row, k, other)) == Some(other)
  {
    hide Line;
    hide Settings;
    hide IsValidMac;
    hide FirstHwaddr;
    var s := Setting(HWADDR, other);
    var all := [s] + Settings(row, k);
    PrintedWithAddress(row, k, other);
    PlainMac(other);
    NoBreaks(row, k);
    PrintedLines(all);
    ReadPrinted(all);
    ApplyWithAddress(row, k, other);
    FixedPointExactly(row, k);
    ReadBack(row, k);
    HwaddrSetting(other);
    LinesAppend([s], Settings(row, k));
    FirstHwaddrAppend(Lines([s]), Lines(Settings(row, k)));
  }

  lemma PlainMac(mac: string)
    requires IsValidMac(mac)
    ensures '\n' !in mac && CleanEdges(mac, IsSpace) && CleanEdges(mac, IsQuote)
  {
    forall i | 0 <= i < 17
      ensures !IsSpace(mac[i]) && !IsQuote(mac[i]) && mac[i] != '\n'
    {
      assert if i % 3 == 2 then mac[i] == ':' || mac[i] == '-' else IsHex(mac[i]);
    }
  }

  lemma NoBreaks(row: NetworkInterface, k: Slot)
    requires GoodRow(row)
    ensures forall s :: s in Settings(row, k) ==> '\n' !in s.value
  {
    PreambleValues(k);
    if row.mtu > 0 { ItoaClean(row.mtu); }
    forall s | s in Settings(row, k)
      ensures '\n' !in s.value
    {
      if HasIp(row) && s == Setting(PREFIX, PrefixOf(row.cidr).value) && '\n' in s.value {
        PrefixChars(row.cidr, '\n');
      }
      assert s in Preamble(k) || s in IpSettings(row) || s in MtuSettings(row) || s == Setting(HWADDR, Lower(row.mac));
    }
  }

  lemma ApplyWithAddress(row: NetworkInterface, k: Slot, other: string)
    ensures Apply([Setting(HWADDR, other)] + Settings(row, k)) == Ifcfg.Written(row)
  {
    var s := [Setting(HWADDR, other)];
    ApplyOneMore([], s[0]);
    assert [] + [s[0]] == s;
    ApplyPreamble(s, k);
    ApplyAll(s + Preamble(k), row, Setting(HWADDR, Lower(row.mac)));
    assert s + Settings(row, k) ==
      s + Preamble(k) + IpSettings(row) + MtuSettings(row) + [Setting(HWADDR, Lower(row.mac))];
  }

  /** In one cycle the row is skipped for such a file, and the file is deleted. */
  lemma {:induction false} SkippedRowLosesFile(n: Node, rows: seq<NetworkInterface>, row: NetworkInterface, k: Slot,
                                               other: string)
    requires GoodRow(row) && row in rows && NameFor(n.devices, row.mac, {}) == Some(k) && Column(n.stored, row.id) == 1
    requires IsValidMac(other) && Lower(other) !in ActiveMacs(rows)
    requires FileName(k) in n.files && n.files[FileName(k)] == WithAddress(row, k, other)
    ensures Skips(n, row) && Orphan(n.files, {}, ActiveMacs(rows), FileName(k))
    ensures !CoherentText(n.files[FileName(k)])
    ensures !Skips(n.(files := CleanedFiles(n.files, {}, ActiveMacs(rows), {})), row)
  {
    hide WithAddress;
    hide GoodRow;
    hide HwaddrOf;
    hide IsValidMac;
    hide Drifted;
    ReadersDisagree(row, k, other);
    ReadersDisagree(row.(status := Configured), k, other) by { GoodWhenConfigured(row); SameText(row, k, other); }
    SameText(row, k, other);
    FileNameIsMultinic(k);
    OtherAddress(row, rows, k, other);
  }

  lemma GoodWhenConfigured(row: NetworkInterface)
    requires GoodRow(row)
    ensures GoodRow(row.(status := Configured))
  {
  }

  lemma SameText(row: NetworkInterface, k: Slot, other: string)
    ensures WithAddress(row.(status := Configured), k, other) == WithAddress(row, k, other)
  {
    var b := row.(status := Configured);
    assert Settings(b, k) == Settings(row, k);
  }

  lemma OtherAddress(row: NetworkInterface, rows: seq<NetworkInterface>, k: Slot, other: string)
    requires GoodRow(row) && row in rows && IsValidMac(other) && Lower(other) !in ActiveMacs(rows)
    ensures !CoherentText(WithAddress(row, k, other))
  {
    ReadersDisagree(row, k, other);
    assert Lower(row.mac) in ActiveMacs(rows);
  }
}
