/** Removal of the ifcfg files whose MAC address belongs to no row of the node. */
module Cleanup {
  import opened Options
  import opened Text
  import opened Entities
  import opened Naming
  import opened Ifcfg
  import opened Rhel
  import opened Listing

  datatype DeleteOutput = DeleteOutput(deleted: seq<string>, totalDeleted: nat, errors: int)

  predicate IsMultinicIfcfgFile(name: string) {
    HasPrefix(name, "ifcfg-multinic")
  }

  function InterfaceOfFile(name: string): string {
    if HasPrefix(name, "ifcfg-") then TrimPrefix(name, "ifcfg-") else ""
  }

  lemma InterfaceOfMultinic(name: string)
    requires IsMultinicIfcfgFile(name)
    ensures InterfaceOfFile(name) != "" && "ifcfg-" + InterfaceOfFile(name) == name
  {
    assert name[..14][..6] == "ifcfg-multinic"[..6] == "ifcfg-";
    assert name[..14][..6] == name[..6];
  }

  function ActiveMacs(rows: seq<NetworkInterface>): set<string> {
    set r | r in rows :: Lower(r.mac)
  }

  /** A readable ifcfg-multinic file naming a MAC address that is not active, ignoring case. */
  predicate Orphan(files: map<string, string>, unreadable: set<string>, active: set<string>, name: string) {
    IsMultinicIfcfgFile(name) && name in files && name !in unreadable &&
    match HwaddrOf(files[name]) case None => false case Some(mac) => Lower(mac) !in active
  }

  function Orphans(files: map<string, string>, unreadable: set<string>, active: set<string>): set<string> {
    set name | name in files && Orphan(files, unreadable, active, name)
  }

  function Interfaces(names: seq<string>): (r: seq<string>)
    ensures |r| == |names|
    ensures forall i :: 0 <= i < |r| ==> r[i] == InterfaceOfFile(names[i])
  {
    seq(|names|, i requires 0 <= i < |names| => InterfaceOfFile(names[i]))
  }

  method FindOrphanedIfcfgFiles(files: map<string, string>, unreadable: set<string>, rows: seq<NetworkInterface>,
                                listing: seq<string>)
    returns (orphans: seq<string>)
    ensures orphans == Filter(listing, Orphans(files, unreadable, ActiveMacs(rows)))
  {
    var active := {};
    for i := 0 to |rows|
      invariant active == ActiveMacs(rows[..i])
    {
      assert rows[..i + 1] == rows[..i] + [rows[i]];
      active := active + {Lower(rows[i].mac)};
    }
    assert rows[..|rows|] == rows;
    orphans := [];
    for i := 0 to |listing|
      invariant orphans == Filter(listing[..i], Orphans(files, unreadable, active))
    {
      assert listing[..i + 1][..i] == listing[..i];
      var name := listing[i];
      if !IsMultinicIfcfgFile(name) {
        continue;
      }
      if name !in files || name in unreadable {
        continue;
      }
      var mac := GetMACAddressFromIfcfgFile(files[name]);
      if mac.Some? && Lower(mac.value) !in active {
        orphans := orphans + [name];
      }
    }
    assert listing[..|listing|] == listing;
  }

  /** The files after a cleanup in which the removals of `stuck` fail. */
  ghost function CleanedFiles(files: map<string, string>, unreadable: set<string>, active: set<string>,
                              stuck: set<string>): map<string, string> {
    files - (Orphans(files, unreadable, active) - stuck)
  }

  /** Deletion of one file through the adapter's rollback, which takes the interface name. */
  method DeleteFile(host: Host, name: string, works: bool) returns (interface: string, ok: bool)
    requires IsMultinicIfcfgFile(name)
    modifies host`files
    ensures host.files == if works then old(host.files) - {name} else old(host.files)
    ensures ok && interface == InterfaceOfFile(name)
  {
    InterfaceOfMultinic(name);
    interface := InterfaceOfFile(name);
    ok := Rollback(host, interface, works);
  }

  method DeleteFiles(host: Host, orphans: seq<string>, stuck: set<string>) returns (deleted: seq<string>, errors: int)
    requires forall f :: f in orphans ==> IsMultinicIfcfgFile(f)
    modifies host`files
    ensures host.files == old(host.files) - (Elements(orphans) - stuck)
    ensures deleted == Interfaces(orphans) && errors == 0
  {
    deleted, errors := [], 0;
    for i := 0 to |orphans|
      invariant host.files == old(host.files) - (Elements(orphans[..i]) - stuck)
      invariant errors == 0 && |deleted| == i && forall j :: 0 <= j < i ==> deleted[j] == InterfaceOfFile(orphans[j])
    {
      assert Elements(orphans[..i + 1]) == Elements(orphans[..i]) + {orphans[i]};
      assert orphans[i] in orphans;
      var interface, ok := DeleteFile(host, orphans[i], orphans[i] !in stuck);
      if ok {
        deleted := deleted + [interface];
      } else {
        errors := errors + 1;
      }
    }
    assert orphans[..|orphans|] == orphans;
  }

  /**
   The cleanup. It removes precisely the orphans whose removal works, reports every orphan
   as deleted whether or not its removal worked, and never reports an error; when the
   directory or the rows cannot be read it does nothing.
   */
  method ExecuteIfcfgCleanup(host: Host, listing: Option<seq<string>>, rows: Option<seq<NetworkInterface>>,
                             unreadable: set<string>, stuck: set<string>) returns (output: Option<DeleteOutput>)
    requires listing.Some? ==> Lists(listing.value, host.files.Keys)
    modifies host`files
    ensures output == None <==> listing == None || rows == None
    ensures output == None ==> host.files == old(host.files)
    ensures output.Some? ==>
              var active := ActiveMacs(rows.value);
              host.files == CleanedFiles(old(host.files), unreadable, active, stuck) &&
              output.value.totalDeleted == |output.value.deleted| == |Orphans(old(host.files), unreadable, active)| &&
              output.value.errors == 0 &&
              output.value.deleted == Interfaces(Filter(listing.value, Orphans(old(host.files), unreadable, active)))
  {
    if listing.None? || rows.None? {
      return None;
    }
    var active := ActiveMacs(rows.value);
    var orphans := FindOrphanedIfcfgFiles(host.files, unreadable, rows.value, listing.value);
    FilterElements(listing.value, Orphans(host.files, unreadable, active));
    assert Elements(orphans) == Orphans(host.files, unreadable, active);
    var deleted, errors := DeleteFiles(host, orphans, stuck);
    return Some(DeleteOutput(deleted, |deleted|, errors));
  }

  // ---- what the cleanup means ---------------------------------------------------

  /** With working removals: a file stays exactly when it is not an orphan, with its content; nothing appears. */
  lemma {:induction false} CleanupIsExact(files: map<string, string>, unreadable: set<string>, active: set<string>)
    ensures var after := CleanedFiles(files, unreadable, active, {});
            (forall f :: f in after <==> f in files && !Orphan(files, unreadable, active, f)) &&
            (forall f :: f in after ==> after[f] == files[f])
  {
  }

  /** Files that are no ifcfg-multinic file, name no MAC address, or name an active one are never touched. */
  lemma CleanupKeeps(files: map<string, string>, unreadable: set<string>, active: set<string>, stuck: set<string>,
                     f: string)
    requires f in files
    requires !IsMultinicIfcfgFile(f) || HwaddrOf(files[f]) == None || Lower(HwaddrOf(files[f]).value) in active
    ensures f in CleanedFiles(files, unreadable, active, stuck)
  {
  }

  /** A second cleanup finds nothing, as long as the removals of the first worked. */
  lemma {:induction false} CleanupTwice(files: map<string, string>, unreadable: set<string>, active: set<string>,
                                        stuck: set<string>)
    ensures var after := CleanedFiles(files, unreadable, active, stuck);
            Orphans(after, unreadable, active) == Orphans(files, unreadable, active) * stuck
  {
  }

  /**
   Configure never feeds delete: the file just generated for an active row is an orphan
   exactly when a line break in the address or prefix smuggles in a MAC address that is
   not active.
   */
  lemma {:induction false} GeneratedIsOrphanExactly(files: map<string, string>, unreadable: set<string>,
                                                    rows: seq<NetworkInterface>,
                                                    row: NetworkInterface, k: Slot)
    requires row in rows && IsValidMac(row.mac)
    requires FileName(k) in files && files[FileName(k)] == IfcfgText(row, k) && FileName(k) !in unreadable
    ensures Orphan(files, unreadable, ActiveMacs(rows), FileName(k)) <==>
            Smuggled(row).Some? && Lower(Smuggled(row).value) !in ActiveMacs(rows)
    ensures NoNewline(row) ==> !Orphan(files, unreadable, ActiveMacs(rows), FileName(k))
  {
    CleanupReads(row, k);
    LowerTwice(row.mac);
    FileNameIsMultinic(k);
    if NoNewline(row) { NothingSmuggled(row); }
  }

  lemma FileNameIsMultinic(k: Slot)
    ensures IsMultinicIfcfgFile(FileName(k))
  {
    assert FileName(k)[..14] == "ifcfg-multinic";
  }
}
