/** Which failures are forgotten: the row is skipped next time although its last attempt failed. */
module Retry {
  import opened Options
  import opened Entities
  import opened IpLink
  import opened Naming
  import opened Ifcfg
  import opened Rhel
  import opened Cycle
  import opened CutFile

  /** Configure gets as far as the write: the devices can be listed, and the rename is not needed or works. */
  predicate WriteReached(n: Node, row: NetworkInterface, k: Slot, plan: Plan) {
    plan.list && (Carries(n.devices, row.mac, {}, k) || (plan.down && plan.rename.Renamed? && plan.up))
  }

  /** Configure and Validate both succeed. */
  predicate Installs(n: Node, row: NetworkInterface, k: Slot, plan: Plan) {
    WriteReached(n, row, k, plan) && plan.write.Written? && plan.restart && plan.show && plan.seen
  }

  /**
   The attempt leaves the device under a name other than the one it was made for: the device had that other
   name, the query for it failed, and the device was not renamed.
   */
  predicate StaysElsewhere(n: Node, row: NetworkInterface, k: Slot, plan: Plan) {
    Bound(n.devices, row.mac) && !Carries(n.devices, row.mac, {}, k) &&
    !(plan.list && plan.down && !plan.rename.Refused?)
  }

  /** The whole text is in the file, whatever the write reported. */
  predicate WholeWrite(write: Write, text: string) {
    match write
    case Written => true
    case Unseen => true
    case CutOff(length) => length >= |text|
    case NotOpened => false
  }

  /**
   The failed attempt under name `k` leaves a file that suits the row under the name it will be given next. Under
   `k` itself: all but the record of success worked, or nothing was removed and the file is the whole new one, or
   the old one that suited it before. Under another name: that name's file suited it before.
   */
  predicate LeavesRightFile(n: Node, row: NetworkInterface, k: Slot, plan: Plan) {
    if StaysElsewhere(n, row, k, plan) then
      NameFor(n.devices, row.mac, {}).Some? && RightFile(n.files, row, NameFor(n.devices, row.mac, {}).value)
    else
      Installs(n, row, k, plan) ||
      (!plan.remove &&
       if WriteReached(n, row, k, plan) && !plan.write.NotOpened? then WholeWrite(plan.write, IfcfgText(row, k))
       else RightFile(n.files, row, k))
  }

  predicate RightFile(files: map<string, string>, row: NetworkInterface, k: Slot) {
    FileName(k) in files && !Drifted(row, files[FileName(k)])
  }

  // ---- devices ----------------------------------------------------------------------

  /** The row's only device renamed to a free name: that is the name it is given from then on. */
  lemma {:induction false} RenamedIsNamed(devices: seq<Device>, mac: string, k: Slot)
    requires UniqueNames(devices) && OneDevice(devices, mac) && !InUse(devices, Name(k))
    ensures var i := FirstWithMac(devices, mac).value;
            var b := devices[i := Device(Name(k), devices[i].mac)];
            NameFor(b, mac, {}) == Some(k) && InUse(b, Name(k))
  {
    var i := FirstWithMac(devices, mac).value;
    var b := devices[i := Device(Name(k), devices[i].mac)];
    RenamePreservesTable(devices, i, k);
    CarriesHolds(b, mac, {}, k);
    assert Holds(b, i, k, mac) && b[i].name == Name(k);
    forall j: Slot | Carries(b, mac, {}, j)
      ensures j == k
    {
      CarriesHolds(b, mac, {}, j);
      var x: nat :| Holds(b, x, j, mac);
      assert x == i;
      NameInjective(j, k);
    }
  }

  /** The row's only device has the name: no query but for that name matters. */
  lemma {:induction false} OwnNameIsGiven(devices: seq<Device>, mac: string, k: Slot)
    requires UniqueNames(devices) && OneDevice(devices, mac) && Carries(devices, mac, {}, k)
    ensures NameFor(devices, mac, {}) == Some(k) && InUse(devices, Name(k))
    ensures devices[FirstWithMac(devices, mac).value].name == Name(k)
  {
    CarriesHolds(devices, mac, {}, k);
    var i: nat :| Holds(devices, i, k, mac);
    forall j: Slot | Carries(devices, mac, {}, j)
      ensures j == k
    {
      CarriesHolds(devices, mac, {}, j);
      var x: nat :| Holds(devices, x, j, mac);
      assert x == i;
      NameInjective(j, k);
    }
  }

  /** A name that is given, whatever queries fail, is the device's own or free. */
  lemma {:induction false} GivenIsOwnOrFree(devices: seq<Device>, mac: string, blind: set<Slot>, k: Slot)
    requires NameFor(devices, mac, blind) == Some(k)
    ensures Carries(devices, mac, {}, k) || !InUse(devices, Name(k))
    ensures !Bound(devices, mac) ==> NameFor(devices, mac, {}) == Some(k)
  {
  }

  /** Steps 1 and 2 of Configure on a row's only device, under the name it is given. */
  lemma {:induction false} LinkReaches(n: Node, row: NetworkInterface, k: Slot, plan: Plan)
    requires UniqueNames(n.devices) && OneDevice(n.devices, row.mac) &&
             NameFor(n.devices, row.mac, plan.blind) == Some(k)
    ensures var d := FindStep(n.devices, row.mac, plan);
            (d.Some? <==> plan.list) &&
            (d.None? && !StaysElsewhere(n, row, k, plan) ==> NameFor(n.devices, row.mac, {}) == Some(k)) &&
            (d.Some? ==>
               var (b, ok) := LinkStep(n.devices, d.value, k, plan);
               (ok <==> WriteReached(n, row, k, plan)) && (ok ==> InUse(b, Name(k))) &&
               NameFor(b, row.mac, {}) ==
                 if StaysElsewhere(n, row, k, plan) then NameFor(n.devices, row.mac, {}) else Some(k))
  {
    hide Bound;
    hide Carries;
    hide NameFor;
    var i := FirstWithMac(n.devices, row.mac).value;
    GivenIsOwnOrFree(n.devices, row.mac, plan.blind, k);
    IndexOfUnique(n.devices, i);
    if Carries(n.devices, row.mac, {}, k) {
      OwnNameIsGiven(n.devices, row.mac, k);
    } else {
      RenamedIsNamed(n.devices, row.mac, k);
      assert n.devices[i].name != Name(k);
    }
  }

  // ---- files ------------------------------------------------------------------------

  /** The write leaves the right file exactly when the whole text got there. */
  lemma WriteLeaves(files: map<string, string>, row: NetworkInterface, k: Slot, plan: Plan)
    requires GoodRow(row) && !plan.write.NotOpened?
    ensures RightFile(WriteStep(files, row, k, plan).0, row, k) <==> WholeWrite(plan.write, IfcfgText(row, k))
  {
    hide IfcfgText;
    FixedPointExactly(row, k);
    if plan.write.CutOff? && plan.write.length < |IfcfgText(row, k)| {
      CutDrifts(row, k, plan.write.length);
    }
  }

  lemma {:induction false} ConfigureLeaves(n: Node, row: NetworkInterface, k: Slot, plan: Plan)
    requires UniqueNames(n.devices) && GoodRow(row) && OneDevice(n.devices, row.mac)
    requires NameFor(n.devices, row.mac, plan.blind) == Some(k)
    ensures var (n1, ok) := ConfigureSpec(n, row, k, plan);
            NameFor(n1.devices, row.mac, {}) ==
              (if StaysElsewhere(n, row, k, plan) then NameFor(n.devices, row.mac, {}) else Some(k)) &&
            n1.stored == n.stored && n1.files - {FileName(k)} == n.files - {FileName(k)} &&
            (ok <==> WriteReached(n, row, k, plan) && plan.write.Written? && plan.restart) &&
            (ok ==> InUse(n1.devices, Name(k)) && RightFile(n1.files, row, k)) &&
            (RightFile(n1.files, row, k) <==>
             if WriteReached(n, row, k, plan) && !plan.write.NotOpened? then WholeWrite(plan.write, IfcfgText(row, k))
             else RightFile(n.files, row, k))
  {
    hide IfcfgText;
    hide GoodRow;
    hide OneDevice;
    hide NameFor;
    hide FindStep;
    hide LinkStep;
    hide RightFile;
    hide FileName;
    LinkReaches(n, row, k, plan);
    if !plan.write.NotOpened? { WriteLeaves(n.files, row, k, plan); }
  }

  lemma {:induction false} InstallLeaves(n: Node, row: NetworkInterface, k: Slot, plan: Plan)
    requires UniqueNames(n.devices) && GoodRow(row) && OneDevice(n.devices, row.mac)
    requires NameFor(n.devices, row.mac, plan.blind) == Some(k)
    ensures var (n1, ok) := InstallSpec(n, row, k, plan);
            var next := if StaysElsewhere(n, row, k, plan) then NameFor(n.devices, row.mac, {}) else Some(k);
            NameFor(n1.devices, row.mac, {}) == next && n1.stored == n.stored && (ok <==> Installs(n, row, k, plan)) &&
            (next.Some? ==> (RightFile(n1.files, row, next.value) <==> LeavesRightFile(n, row, k, plan)))
  {
    hide IfcfgText;
    hide GoodRow;
    hide OneDevice;
    hide NameFor;
    hide ConfigureSpec;
    hide WriteReached;
    hide Drifted;
    hide Bound;
    hide Carries;
    ConfigureLeaves(n, row, k, plan);
    if StaysElsewhere(n, row, k, plan) {
      var own := NameFor(n.devices, row.mac, {});
      if own.Some? { ElsewhereUntouched(n, row, k, plan, own.value); }
    }
  }

  /** Of an attempt under a name that the device does not get, the file of the device's own name knows nothing. */
  lemma {:induction false} ElsewhereUntouched(n: Node, row: NetworkInterface, k: Slot, plan: Plan, own: Slot)
    requires NameFor(n.devices, row.mac, {}) == Some(own) && StaysElsewhere(n, row, k, plan)
    ensures own != k && !Installs(n, row, k, plan)
    ensures RightFile(InstallSpec(n, row, k, plan).0.files, row, own) <==> RightFile(n.files, row, own)
  {
    hide Drifted;
    hide ConfigureSpec;
    hide ValidateSpec;
    var x :| Carries(n.devices, row.mac, {}, x);
    assert Carries(n.devices, row.mac, {}, own);
    FileNameInjective(own, k);
    InstallFrame(n, row, k, plan);
    SameEntry(n.files, InstallSpec(n, row, k, plan).0.files, FileName(k), FileName(own));
  }

  // ---- exactly ------------------------------------------------------------------------

  lemma SkipsMeans(n: Node, row: NetworkInterface, k: Slot)
    requires NameFor(n.devices, row.mac, {}) == Some(k)
    ensures Skips(n, row) <==> RightFile(n.files, row, k) && Column(n.stored, row.id) == 1
  {
    StatusIsNoDrift(row, Current(row, n.stored));
  }

  lemma StatusIsNoDrift(a: NetworkInterface, b: NetworkInterface)
    requires b == a.(status := b.status)
    ensures forall text :: Drifted(a, text) <==> Drifted(b, text)
  {
  }

  /**
   A failed attempt is forgotten, the next faultless worker skipping the row, if and only if its
   failure was not stored, the row was stored as configured before, and the attempt left a file
   that suits the row under the name the row is given next.
   */
  lemma {:induction false} ForgottenExactly(n: Node, row: NetworkInterface, k: Slot, plan: Plan)
    requires UniqueNames(n.devices) && GoodRow(row) && OneDevice(n.devices, row.mac)
    requires WorkerSpec(n, row, plan).1 == Outcome.Failed(k)
    ensures Skips(WorkerSpec(n, row, plan).0, row) <==>
            !plan.saveFailed && Column(n.stored, row.id) == 1 && LeavesRightFile(n, row, k, plan)
  {
    hide InstallSpec;
    hide NameFor;
    hide GoodRow;
    hide OneDevice;
    hide NeedsProcessing;
    hide LeavesRightFile;
    hide StaysElsewhere;
    hide RightFile;
    hide Skips;
    WorkerName(n, row, plan);
    GoodValid(row);
    InstallLeaves(n, row, k, plan);
    var n1 := WorkerSpec(n, row, plan).0;
    var next := NameFor(n1.devices, row.mac, {});
    if StaysElsewhere(n, row, k, plan) { ElsewhereIsNamed(n, row, k, plan); }
    SkipsMeans(n1, row, next.value);
  }

  lemma {:induction false} ElsewhereIsNamed(n: Node, row: NetworkInterface, k: Slot, plan: Plan)
    requires StaysElsewhere(n, row, k, plan)
    ensures NameFor(n.devices, row.mac, {}).Some?
  {
    var x :| Carries(n.devices, row.mac, {}, x);
  }

  lemma GoodValid(row: NetworkInterface)
    requires GoodRow(row)
    ensures Validate(row) == Valid
  {
  }

  /** One such failure: everything but the restart of NetworkManager, the removal and the record worked. */
  lemma {:induction false} UnrecordedFailureIsForgotten(n: Node, row: NetworkInterface, k: Slot, plan: Plan)
    requires UniqueNames(n.devices) && GoodRow(row) && OneDevice(n.devices, row.mac)
    requires NameFor(n.devices, row.mac, {}) == Some(k) && NeedsProcessing(n.files, row, k, true)
    requires Column(n.stored, row.id) == 1
    requires plan == NO_FAULTS.(restart := false, remove := false, saveFailed := false)
    ensures var (n1, o) := WorkerSpec(n, row, plan); o == Outcome.Failed(k) && Skips(n1, row)
  {
    hide IfcfgText;
    hide GoodRow;
    hide OneDevice;
    hide NameFor;
    hide ConfigureSpec;
    hide Drifted;
    hide Skips;
    hide NeedsProcessing;
    GoodValid(row);
    ConfigureLeaves(n, row, k, plan);
    ForgottenExactly(n, row, k, plan);
  }
}
