/** Removal of the netplan files whose MAC address belongs to no row of the node. */
module NetplanCleanup {
  import opened Options
  import opened Text
  import opened Entities
  import opened Naming
  import opened Cleanup
  import opened Listing
  import opened Netplan

  predicate IsMultinicNetplanFile(f: string) {
    Contains(f, "multinic") && HasSuffix(f, ".yaml") && HasPrefix(f, "9") && Contains(f, "-")
  }

  /** The first part of the name between dashes that starts with `multinic`. */
  function FirstMultinicPart(parts: seq<string>): string {
    if parts == [] then "" else if HasPrefix(parts[0], "multinic") then parts[0] else FirstMultinicPart(parts[1..])
  }

  function InterfaceOfNetplanFile(f: string): string {
    if !Contains(f, "multinic") then ""
    else FirstMultinicPart(Split(TrimSuffix(f, ".yaml"), '-'))
  }

  method ExtractInterfaceNameFromFile(f: string) returns (name: string)
    ensures name == InterfaceOfNetplanFile(f)
  {
    if !Contains(f, "multinic") {
      return "";
    }
    var stem := TrimSuffix(f, ".yaml");
    var parts := Split(stem, '-');
    for i := 0 to |parts|
      invariant FirstMultinicPart(parts) == FirstMultinicPart(parts[i..])
    {
      assert parts[i..][1..] == parts[i + 1..];
      if HasPrefix(parts[i], "multinic") {
        return parts[i];
      }
    }
    StemHasNoPrefix(stem);
    if HasPrefix(stem, "multinic") {
      return stem;
    }
    return "";
  }

  /** A name that starts with `multinic` has a first part that does. */
  lemma StemHasNoPrefix(stem: string)
    requires FirstMultinicPart(Split(stem, '-')) == ""
    ensures !HasPrefix(stem, "multinic")
  {
    if HasPrefix(stem, "multinic") {
      assert stem == "multinic" + stem[8..];
      SplitHead("multinic", stem[8..]);
    }
  }

  lemma {:induction false} SplitHead(p: string, rest: string)
    requires '-' !in p
    ensures HasPrefix(Split(p + rest, '-')[0], p)
  {
    if p == "" {
      assert p + rest == rest;
    } else {
      assert (p + rest)[1..] == p[1..] + rest;
      SplitHead(p[1..], rest);
      var r := Split(p[1..] + rest, '-');
      assert ([p[0]] + r[0])[..|p|] == [p[0]] + r[0][..|p| - 1];
      assert [p[0]] + p[1..] == p;
    }
  }

  /** The first MAC address in the document that is not empty. */
  function DocumentMac(ethernets: seq<Ethernet>): Option<string> {
    if ethernets == [] then None
    else if ethernets[0].mac != "" then Some(ethernets[0].mac)
    else DocumentMac(ethernets[1..])
  }

  function MacOfContent(c: Content): Option<string> {
    if c.Unparsable? then None else DocumentMac(c.ethernets)
  }

  method GetMACAddressFromNetplanFile(c: Content) returns (mac: Option<string>)
    ensures mac == MacOfContent(c)
  {
    if c.Unparsable? {
      return None;
    }
    for i := 0 to |c.ethernets|
      invariant DocumentMac(c.ethernets) == DocumentMac(c.ethernets[i..])
    {
      assert c.ethernets[i..][1..] == c.ethernets[i + 1..];
      if c.ethernets[i].mac != "" {
        return Some(c.ethernets[i].mac);
      }
    }
    return None;
  }

  predicate NetplanOrphan(files: map<string, Content>, unreadable: set<string>, active: set<string>, f: string) {
    IsMultinicNetplanFile(f) && f in files && f !in unreadable &&
    match MacOfContent(files[f]) case None => false case Some(mac) => Lower(mac) !in active
  }

  function NetplanOrphans(files: map<string, Content>, unreadable: set<string>, active: set<string>): set<string> {
    set f | f in files && NetplanOrphan(files, unreadable, active, f)
  }

  method FindOrphanedNetplanFiles(files: map<string, Content>, unreadable: set<string>, rows: seq<NetworkInterface>,
                                  listing: seq<string>)
    returns (orphans: seq<string>)
    ensures orphans == Filter(listing, NetplanOrphans(files, unreadable, ActiveMacs(rows)))
  {
    var active := ActiveMacs(rows);
    orphans := [];
    for i := 0 to |listing|
      invariant orphans == Filter(listing[..i], NetplanOrphans(files, unreadable, active))
    {
      assert listing[..i + 1][..i] == listing[..i];
      var f := listing[i];
      if !IsMultinicNetplanFile(f) {
        continue;
      }
      if f !in files || f in unreadable {
        continue;
      }
      var mac := GetMACAddressFromNetplanFile(files[f]);
      if mac.Some? && Lower(mac.value) !in active {
        orphans := orphans + [f];
      }
    }
    assert listing[..|listing|] == listing;
  }

  /** The file that the deletion of an orphan really removes: the adapter derives it from the interface name. */
  function Target(f: string): string {
    ConfigFile(InterfaceOfNetplanFile(f))
  }

  function Targets(fs: seq<string>): set<string> {
    set f | f in fs :: Target(f)
  }

  /** The rollback for the orphan reports no error: nothing is in its way, and the re-apply works. */
  predicate Succeeds(files: map<string, Content>, stuck: set<string>, unapplied: set<string>, f: string) {
    !(Target(f) in files && Target(f) in stuck) && f !in unapplied
  }

  /** The interface names of the orphans whose rollback reports no error, in listing order. */
  function DeletedNames(orphans: seq<string>, files: map<string, Content>, stuck: set<string>,
                        unapplied: set<string>): seq<string> {
    if orphans == [] then []
    else
      var f := orphans[|orphans| - 1];
      DeletedNames(orphans[..|orphans| - 1], files, stuck, unapplied) +
      if Succeeds(files, stuck, unapplied, f) then [InterfaceOfNetplanFile(f)] else []
  }

  /**
   The cleanup: one rollback per orphan. With removals of `stuck` failing and `netplan apply`
   failing for the orphans in `unapplied`, the files that go are the orphans' targets; an
   orphan counts as deleted when its rollback reported no error.
   */
  method ExecuteNetplanCleanup(host: NetplanHost, listing: Option<seq<string>>, rows: Option<seq<NetworkInterface>>,
                               unreadable: set<string>, stuck: set<string>,
                               unapplied: set<string>) returns (output: Option<DeleteOutput>)
    requires listing.Some? ==> Lists(listing.value, host.files.Keys)
    modifies host`files
    ensures output == None <==> listing == None || rows == None
    ensures output == None ==> host.files == old(host.files)
    ensures output.Some? ==>
              var orphans := NetplanOrphans(old(host.files), unreadable, ActiveMacs(rows.value));
              var list := Filter(listing.value, orphans);
              host.files == old(host.files) - (Targets(list) - stuck) &&
              output.value.deleted == DeletedNames(list, old(host.files), stuck, unapplied) &&
              output.value.totalDeleted == |output.value.deleted| &&
              output.value.totalDeleted + output.value.errors == |orphans| &&
              (stuck == {} && unapplied == {} ==> output.value.errors == 0)
  {
    if listing.None? || rows.None? {
      return None;
    }
    var orphans := FindOrphanedNetplanFiles(host.files, unreadable, rows.value, listing.value);
    FilterElements(listing.value, NetplanOrphans(host.files, unreadable, ActiveMacs(rows.value)));
    assert Elements(orphans) == NetplanOrphans(host.files, unreadable, ActiveMacs(rows.value));
    var deleted, errors := DeleteNetplanFiles(host, orphans, stuck, unapplied);
    return Some(DeleteOutput(deleted, |deleted|, errors));
  }

  method DeleteNetplanFiles(host: NetplanHost, orphans: seq<string>, stuck: set<string>, unapplied: set<string>)
    returns (deleted: seq<string>, errors: int)
    modifies host`files
    ensures host.files == old(host.files) - (Targets(orphans) - stuck)
    ensures deleted == DeletedNames(orphans, old(host.files), stuck, unapplied) && |deleted| + errors == |orphans|
    ensures stuck == {} && unapplied == {} ==> errors == 0
  {
    hide ConfigFile;
    hide InterfaceOfNetplanFile;
    deleted, errors := [], 0;
    for i := 0 to |orphans|
      invariant host.files == old(host.files) - (Targets(orphans[..i]) - stuck)
      invariant deleted == DeletedNames(orphans[..i], old(host.files), stuck, unapplied)
      invariant |deleted| + errors == i && (stuck == {} && unapplied == {} ==> errors == 0)
    {
      assert orphans[..i + 1][..i] == orphans[..i];
      assert Targets(orphans[..i + 1]) == Targets(orphans[..i]) + {Target(orphans[i])};
      var name := ExtractInterfaceNameFromFile(orphans[i]);
      var ok := Rollback(host, name, ConfigFile(name) !in stuck, orphans[i] !in unapplied);
      if ok {
        deleted := deleted + [name];
      } else {
        errors := errors + 1;
      }
    }
    assert orphans[..|orphans|] == orphans;
  }

  // ---- exactness ----------------------------------------------------------------------

  /** The name that Configure writes for slot `k`. */
  lemma CanonicalName(k: Slot)
    ensures ConfigFile(Name(k)) == "9" + [DigitChar(k)] + "-" + Name(k) + ".yaml"
  {
    var d := [DigitChar(k)];
    assert Name(k)[8..] == d && Digits(k) == d;
    AtoiItoa(k);
    assert Itoa(k) == d;
  }

  /** A numbered file name: what the extraction makes of it. */
  lemma NumberedName(head: string, name: string)
    requires '-' !in head && '-' !in name && !HasPrefix(head, "multinic") && HasPrefix(name, "multinic")
    ensures InterfaceOfNetplanFile(head + "-" + name + ".yaml") == name
    ensures HasPrefix(head, "9") ==> IsMultinicNetplanFile(head + "-" + name + ".yaml")
  {
    var stem := head + ['-'] + name;
    var f := stem + ".yaml";
    assert f == head + "-" + name + ".yaml";
    SplitAppend(head, '-', name);
    SplitPlain(head, '-');
    SplitPlain(name, '-');
    FoundIn(f, |head| + 1, "multinic");
    FoundIn(f, |head|, "-");
    assert f[|stem|..] == ".yaml" && f[..|stem|] == stem;
    assert TrimSuffix(f, ".yaml") == stem;
    var parts := Split(stem, '-');
    assert parts == [head, name] && parts[1..][0] == name;
    assert FirstMultinicPart(parts) == FirstMultinicPart(parts[1..]);
    assert HasPrefix(head, "9") ==> HasPrefix(f, "9");
  }

  lemma FoundIn(s: string, i: nat, p: string)
    requires i + |p| <= |s| && s[i..i + |p|] == p
    ensures Contains(s, p)
  {
    assert s[i..][..|p|] == s[i..i + |p|];
    assert HasPrefix(s[i..], p);
  }

  /**
   From a canonical file name the extraction gives back the interface name, so the deletion removes that very
   file.
   */
  lemma {:induction false} CanonicalTarget(k: Slot)
    ensures InterfaceOfNetplanFile(ConfigFile(Name(k))) == Name(k) && Target(ConfigFile(Name(k))) == ConfigFile(Name(k))
    ensures IsMultinicNetplanFile(ConfigFile(Name(k)))
  {
    CanonicalName(k);
    var head := "9" + [DigitChar(k)];
    assert head[..1] == "9" && !HasPrefix(head, "multinic");
    NumberedName(head, Name(k));
  }

  /** Every multinic file in the directory has the name that Configure would give it. */
  ghost predicate CanonicalDirectory(files: map<string, Content>) {
    forall f :: f in files && IsMultinicNetplanFile(f) ==> exists k: Slot :: f == ConfigFile(Name(k))
  }

  /** What an orphan's name yields: nothing, or a part that starts with `multinic` and holds no dash. */
  lemma {:induction false} FirstPart(parts: seq<string>)
    requires forall p :: p in parts ==> '-' !in p
    ensures var name := FirstMultinicPart(parts); name == "" || (HasPrefix(name, "multinic") && '-' !in name)
  {
    if parts != [] && !HasPrefix(parts[0], "multinic") {
      FirstPart(parts[1..]);
    }
  }

  lemma InterfaceName(f: string)
    ensures var name := InterfaceOfNetplanFile(f); name == "" || (HasPrefix(name, "multinic") && '-' !in name)
  {
    SplitParts(TrimSuffix(f, ".yaml"), '-');
    if Contains(f, "multinic") { FirstPart(Split(TrimSuffix(f, ".yaml"), '-')); }
  }

  /** The number in front of a config file's name has no sign. */
  lemma PlainIndex(name: string)
    requires HasPrefix(name, "multinic") && '-' !in name
    ensures '-' !in Itoa(ExtractInterfaceIndex(name))
  {
    var digits := TrimPrefix(name, "multinic");
    assert forall x :: x in digits ==> x in name;
    assert digits != "" ==> digits[0] in digits;
    assert ExtractInterfaceIndex(name) >= 0;
    var d := Digits(ExtractInterfaceIndex(name));
    assert !IsDigit('-');
    assert '-' !in d;
  }

  /** Without a name there is no multinic file to aim at. */
  lemma NamelessTarget()
    ensures !IsMultinicNetplanFile(ConfigFile(""))
  {
    ValueDigits(0);
    var f := ConfigFile("");
    assert !HasPrefix("", "multinic");
    assert f == "9" + Digits(0) + "-" + "" + ".yaml" && |Digits(0)| == 1 && |f| == 8;
    if i :| 0 <= i <= |f| && HasPrefix(f[i..], "multinic") {
      assert i == 0 && f[0] == '9' && f[0..][..8][0] == '9';
      assert "multinic"[0] == 'm';
    }
  }

  /** Aiming twice is aiming once, at every multinic file that is aimed at. */
  lemma TargetOfTarget(f: string)
    requires IsMultinicNetplanFile(Target(f))
    ensures Target(Target(f)) == Target(f)
  {
    var name := InterfaceOfNetplanFile(f);
    InterfaceName(f);
    if name == "" {
      NamelessTarget();
    } else {
      PlainIndex(name);
      var head := "9" + Itoa(ExtractInterfaceIndex(name));
      assert head[0] == '9' && "multinic"[0] == 'm';
      NumberedName(head, name);
    }
  }

  /**
   When every removal and apply works, the cleanup is exact, removing the orphans and nothing
   else, if and only if every orphan bears the name that Configure gives to its interface.
   */
  lemma {:induction false} NetplanCleanupExactly(files: map<string, Content>, unreadable: set<string>,
                                                 active: set<string>, listing: seq<string>)
    requires Lists(listing, files.Keys)
    ensures var orphans := NetplanOrphans(files, unreadable, active);
            files - Targets(Filter(listing, orphans)) == files - orphans <==> forall f :: f in orphans ==>
              Target(f) == f
  {
    hide Target;
    hide IsMultinicNetplanFile;
    hide MacOfContent;
    var orphans := NetplanOrphans(files, unreadable, active);
    var targets := Targets(Filter(listing, orphans));
    FilterElements(listing, orphans);
    if forall f :: f in orphans ==> Target(f) == f {
      assert targets == orphans;
    }
    if files - targets == files - orphans {
      assert (files - targets).Keys == files.Keys - targets && (files - orphans).Keys == files.Keys - orphans;
      forall f | f in orphans
        ensures Target(f) == f
      {
        assert f !in files.Keys - orphans;
        var g :| g in orphans && Target(g) == f;
        TargetOfTarget(g);
      }
    }
  }

  /** In a canonical directory the cleanup is exact. */
  lemma {:induction false} CanonicalCleanupIsExact(files: map<string, Content>, unreadable: set<string>,
                                                   active: set<string>, listing: seq<string>)
    requires Lists(listing, files.Keys) && CanonicalDirectory(files)
    ensures var orphans := NetplanOrphans(files, unreadable, active);
            files - Targets(Filter(listing, orphans)) == files - orphans
  {
    hide ConfigFile;
    hide IsMultinicNetplanFile;
    hide InterfaceOfNetplanFile;
    var orphans := NetplanOrphans(files, unreadable, active);
    FilterElements(listing, orphans);
    forall f | f in orphans
      ensures Target(f) == f
    {
      assert NetplanOrphan(files, unreadable, active, f);
      var k: Slot :| f == ConfigFile(Name(k));
      CanonicalTarget(k);
    }
    assert Targets(Filter(listing, orphans)) == orphans;
  }

  /** A file that Configure just wrote for an active row is never an orphan. */
  lemma {:induction false} GeneratedIsNoOrphan(files: map<string, Content>, unreadable: set<string>,
                                               rows: seq<NetworkInterface>,
                                               row: NetworkInterface, k: Slot)
    requires row in rows && row.mac != ""
    requires ConfigFile(Name(k)) in files && files[ConfigFile(Name(k))] == Generated(row, k)
    ensures !NetplanOrphan(files, unreadable, ActiveMacs(rows), ConfigFile(Name(k)))
  {
    assert Lower(row.mac) in ActiveMacs(rows);
  }

  /**
   A file numbered otherwise than Configure does is counted as deleted while the file of the
   canonical name is the one removed: for 95-multinic1.yaml that is 91-multinic1.yaml.
   */
  lemma {:induction false} RenumberedFileMisdirects(j: Slot, k: Slot)
    ensures var f := "9" + [DigitChar(j)] + "-" + Name(k) + ".yaml";
            IsMultinicNetplanFile(f) && InterfaceOfNetplanFile(f) == Name(k) && Target(f) == ConfigFile(Name(k)) &&
            (Target(f) == f <==> j == k)
  {
    var head, f := "9" + [DigitChar(j)], "9" + [DigitChar(j)] + "-" + Name(k) + ".yaml";
    CanonicalName(k);
    assert head[..1] == "9" && !HasPrefix(head, "multinic");
    NumberedName(head, Name(k));
    assert ConfigFile(Name(k))[1] == DigitChar(k) && f[1] == DigitChar(j);
  }
}
