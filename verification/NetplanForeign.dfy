/** Which files of the netplan directory a cycle may touch, in terms of their names. */
module NetplanForeign {
  import opened Options
  import opened Text
  import opened Entities
  import opened Naming
  import opened Rhel
  import opened Cleanup
  import opened Recovery
  import opened Listing
  import opened Netplan
  import opened NetplanCleanup
  import opened NetplanConvergence

  predicate PartAt(f: string, i: int, part: string) {
    0 <= i <= |f| - |part| && f[i..i + |part|] == part
  }

  predicate HasPart(f: string, part: string) {
    exists i :: 0 <= i <= |f| && PartAt(f, i, part)
  }

  lemma {:induction false} ContainsPart(f: string, part: string)
    ensures Contains(f, part) <==> HasPart(f, part)
  {
    if i :| 0 <= i <= |f| && HasPrefix(f[i..], part) {
      assert f[i..][..|part|] == f[i..i + |part|];
      assert PartAt(f, i, part);
    }
    if i :| 0 <= i <= |f| && PartAt(f, i, part) {
      FoundIn(f, i, part);
    }
  }

  // ---- what is an orphan -----------------------------------------------------------

  /** The first MAC address in a document that is not empty. */
  lemma {:induction false} DocumentMacExactly(ethernets: seq<Ethernet>, mac: string)
    ensures MacOfContent(Document(ethernets)) == Some(mac) <==>
            exists i :: 0 <= i < |ethernets| && ethernets[i].mac == mac && mac != "" &&
                        forall j :: 0 <= j < i ==> ethernets[j].mac == ""
    ensures MacOfContent(Unparsable) == None
  {
    if ethernets != [] {
      var rest := ethernets[1..];
      DocumentMacExactly(rest, mac);
      if ethernets[0].mac == "" {
        if i :| 0 <= i < |rest| && rest[i].mac == mac && mac != "" && forall j :: 0 <= j < i ==> rest[j].mac == "" {
          assert ethernets[i + 1].mac == mac;
          assert forall j :: 0 <= j < i + 1 ==> ethernets[j].mac == if j == 0 then "" else rest[j - 1].mac;
        }
        if i :| 0 <= i < |ethernets| && ethernets[i].mac == mac && mac != "" &&
                forall j :: 0 <= j < i ==> ethernets[j].mac == "" {
          assert rest[i - 1].mac == mac;
          assert forall j :: 0 <= j < i - 1 ==> rest[j] == ethernets[j + 1];
        }
      }
    }
  }

  /**
   The orphans, in terms of names: `9`, `multinic` and a dash in it, `.yaml` at the end, and a MAC address
   that is not active.
   */
  lemma {:induction false} OrphanExactly(files: map<string, Content>, unreadable: set<string>, active: set<string>,
                                         f: string)
    ensures f in NetplanOrphans(files, unreadable, active) <==>
            f in files && f !in unreadable && |f| >= 5 && f[0] == '9' && f[|f| - 5..] == ".yaml" &&
            HasPart(f, "multinic") && HasPart(f, "-") &&
            MacOfContent(files[f]).Some? && Lower(MacOfContent(files[f]).value) !in active
  {
    hide MacOfContent;
    hide HasPart;
    hide Contains;
    ContainsPart(f, "multinic");
    ContainsPart(f, "-");
    StartsWithNine(f);
  }

  lemma {:induction false} StartsWithNine(f: string)
    ensures HasPrefix(f, "9") <==> f != "" && f[0] == '9'
  {
    if f != "" { assert f[..1] == [f[0]]; }
  }

  // ---- what a cleanup may remove -------------------------------------------------------

  /** The files that deletions aim at: the one without an interface name, or one named like a multinic file. */
  predicate MayBeAimedAt(f: string) {
    f == "90-.yaml" ||
    (|f| >= 5 && f[0] == '9' && f[|f| - 5..] == ".yaml" && HasPart(f, "-multinic"))
  }

  lemma {:induction false} ConfigFileOf(name: string)
    requires HasPrefix(name, "multinic")
    ensures MayBeAimedAt(ConfigFile(name))
  {
    var head := "9" + Itoa(ExtractInterfaceIndex(name));
    var f := ConfigFile(name);
    assert f == head + "-" + name + ".yaml";
    assert f[|f| - 5..] == ".yaml" && f[0] == '9';
    assert name[..8] == "multinic";
    assert f[|head|..|head| + 9] == "-" + name[..8] == "-multinic";
    assert PartAt(f, |head|, "-multinic");
  }

  lemma {:induction false} NamelessFile()
    ensures ConfigFile("") == "90-.yaml"
  {
    assert !HasPrefix("", "multinic");
    assert Digits(0) == ['0'] == "0";
  }

  lemma {:induction false} TargetsAreAimedAt(f: string)
    ensures MayBeAimedAt(Target(f))
  {
    hide HasPart;
    var name := InterfaceOfNetplanFile(f);
    InterfaceName(f);
    if name == "" { NamelessFile(); } else { ConfigFileOf(name); }
  }

  /** A cleanup removes no file but such ones, whatever the orphans are called. */
  lemma {:induction false} CleanupKeepsOthers(files: map<string, Content>, fs: seq<string>, stuck: set<string>,
                                              f: string)
    requires f in files && !MayBeAimedAt(f)
    ensures f in files - (Targets(fs) - stuck) && (files - (Targets(fs) - stuck))[f] == files[f]
  {
    hide Target;
    hide MayBeAimedAt;
    if f in Targets(fs) {
      var g :| g in fs && Target(g) == f;
      TargetsAreAimedAt(g);
    }
  }

  /** A pass writes and removes no file but such ones, whatever fails and whatever the workers see of the directory. */
  lemma {:induction false} PassKeepsOthers(n: NetplanNode, rows: seq<NetworkInterface>, listings: seq<seq<string>>,
                                           plans: seq<NetplanPlan>, i: nat, f: string)
    requires i <= |rows| == |plans| == |listings| && !MayBeAimedAt(f)
    ensures var m := NetAfter(n, rows, listings, plans, i);
            (f in m.files <==> f in n.files) && (f in n.files ==> m.files[f] == n.files[f])
  {
    hide NetplanWorker;
    hide MayBeAimedAt;
    hide ConfigFile;
    hide TookSlot;
    if i > 0 {
      PassKeepsOthers(n, rows, listings, plans, i - 1, f);
      var m := NetAfter(n, rows, listings, plans, i - 1);
      var (m1, o) := NetplanWorker(m, listings[i - 1], rows[i - 1], plans[i - 1]);
      NetWorkerFrame(m, listings[i - 1], rows[i - 1], plans[i - 1]);
      if m1 != m {
        SlotIsAimedAt(o.slot);
        var g := ConfigFile(Name(o.slot));
        if f in m.files { SameContent(m.files, m1.files, g, f); }
        if f in m1.files { SameContent(m1.files, m.files, g, f); }
      }
    }
  }

  lemma {:induction false} SlotIsAimedAt(k: Slot)
    ensures MayBeAimedAt(ConfigFile(Name(k)))
  {
    hide MayBeAimedAt;
    assert Name(k)[..8] == "multinic";
    ConfigFileOf(Name(k));
  }

  /** So the config of the host's own interfaces survives every cycle. */
  lemma {:induction false} UplinkSurvives(n: NetplanNode, rows: seq<NetworkInterface>, listings: seq<seq<string>>,
                                          plans: seq<NetplanPlan>, fs: seq<string>, stuck: set<string>)
    requires |rows| == |plans| == |listings| && "50-cloud-init.yaml" in n.files
    ensures var m := NetAfter(n, rows, listings, plans, |rows|);
            var end := m.files - (Targets(fs) - stuck);
            "50-cloud-init.yaml" in end && end["50-cloud-init.yaml"] == n.files["50-cloud-init.yaml"]
  {
    hide NetAfter;
    hide Targets;
    var f := "50-cloud-init.yaml";
    assert f[0] == '5';
    PassKeepsOthers(n, rows, listings, plans, |rows|, f);
    CleanupKeepsOthers(NetAfter(n, rows, listings, plans, |rows|).files, fs, stuck, f);
  }

  // ---- an orphan without an interface name ------------------------------------------------

  /**
   An orphan none of whose parts between dashes starts with `multinic` is counted as deleted while the file removed
   is `90-.yaml`, which is no multinic file at all: that happens for exactly these orphans.
   */
  lemma {:induction false} NamelessOrphan(f: string)
    requires IsMultinicNetplanFile(f)
    ensures Target(f) == "90-.yaml" <==>
            forall p :: p in Split(TrimSuffix(f, ".yaml"), '-') ==> !HasPrefix(p, "multinic")
  {
    hide IsMultinicNetplanFile;
    var parts := Split(TrimSuffix(f, ".yaml"), '-');
    assert Contains(f, "multinic") by { MultinicFileContains(f); }
    InterfaceName(f);
    FirstPartExactly(parts);
    NamelessFile();
    if FirstMultinicPart(parts) != "" { NamedTarget(f); }
  }

  lemma {:induction false} MultinicFileContains(f: string)
    requires IsMultinicNetplanFile(f)
    ensures Contains(f, "multinic")
  {
  }

  lemma {:induction false} FirstPartExactly(parts: seq<string>)
    ensures FirstMultinicPart(parts) == "" <==> forall p :: p in parts ==> !HasPrefix(p, "multinic")
  {
    if parts != [] {
      FirstPartExactly(parts[1..]);
      assert parts == [parts[0]] + parts[1..];
      assert HasPrefix(parts[0], "multinic") ==> parts[0] != "";
    }
  }

  lemma {:induction false} NamedTarget(f: string)
    requires HasPrefix(InterfaceOfNetplanFile(f), "multinic")
    ensures |Target(f)| > 8
  {
  }

  lemma {:induction false} FirstPartIs(parts: seq<string>, i: nat)
    requires i < |parts| && HasPrefix(parts[i], "multinic")
    requires forall j: nat :: j < i ==> !HasPrefix(parts[j], "multinic")
    ensures FirstMultinicPart(parts) == parts[i]
  {
    if i > 0 {
      assert parts[1..][i - 1] == parts[i];
      assert forall j: nat :: j < i - 1 ==> parts[1..][j] == parts[j + 1];
      FirstPartIs(parts[1..], i - 1);
    }
  }

  /** Of several parts that start with `multinic` the first is the interface whose file is removed. */
  lemma {:induction false} FirstPartIsTarget(f: string, parts: seq<string>, i: nat)
    requires IsMultinicNetplanFile(f) && parts == Split(TrimSuffix(f, ".yaml"), '-')
    requires i < |parts| && HasPrefix(parts[i], "multinic")
    requires forall j: nat :: j < i ==> !HasPrefix(parts[j], "multinic")
    ensures InterfaceOfNetplanFile(f) == parts[i] && Target(f) == ConfigFile(parts[i])
  {
    hide ConfigFile;
    FirstPartIs(parts, i);
    MultinicFileContains(f);
  }

  /** Such files: `9-xmultinic.yaml`, and every other one whose name mentions `multinic` elsewhere. */
  lemma {:induction false} NamelessForm(part: string)
    requires '-' !in part && !HasPrefix(part, "multinic") && Contains(part, "multinic")
    ensures var f := "9" + ['-'] + part + ".yaml"; IsMultinicNetplanFile(f) && Target(f) == "90-.yaml"
  {
    hide Target;
    var stem := "9" + ['-'] + part;
    var f := stem + ".yaml";
    assert f[|f| - 5..] == ".yaml" && f[..|f| - 5] == stem && f[0] == '9';
    StartsWithNine(f);
    ContainsDeeper(part, "9" + ['-'], ".yaml", "multinic");
    assert f == "9" + ['-'] + part + ".yaml";
    FoundIn(f, 1, "-");
    SplitPlain("9", '-');
    SplitPlain(part, '-');
    SplitAppend("9", '-', part);
    assert TrimSuffix(f, ".yaml") == stem;
    assert !HasPrefix("9", "multinic");
    NamelessOrphan(f);
  }

  lemma {:induction false} ContainsDeeper(s: string, before: string, after: string, part: string)
    requires Contains(s, part)
    ensures Contains(before + s + after, part)
  {
    ContainsPart(s, part);
    var i :| 0 <= i <= |s| && PartAt(s, i, part);
    var whole := before + s + after;
    assert whole[|before| + i..|before| + i + |part|] == s[i..i + |part|];
    FoundIn(whole, |before| + i, part);
  }

  // ---- the number in front ----------------------------------------------------------------

  /** An interface numbered in plain decimal, of one digit or many, has that number in front of its file's name. */
  lemma {:induction false} NumberedForm(i: int64)
    requires i >= 0
    ensures ConfigFile("multinic" + Digits(i)) == "9" + Digits(i) + "-" + ("multinic" + Digits(i)) + ".yaml"
  {
    AtoiItoa(i);
    assert ("multinic" + Digits(i))[8..] == Digits(i);
  }

  /** One whose name goes on with no sign and not with digits only has a 0 in front. */
  lemma {:induction false} UnnumberedForm(rest: string, c: char)
    requires rest != "" ==> (rest[0] != '-' && rest[0] != '+' && c in rest && !IsDigit(c))
    ensures ConfigFile("multinic" + rest) == "90-" + ("multinic" + rest) + ".yaml"
  {
    assert ("multinic" + rest)[8..] == rest;
    assert Atoi(rest) == None;
    assert Digits(0) == "0";
    assert "9" + "0" + "-" == "90-";
  }
}
