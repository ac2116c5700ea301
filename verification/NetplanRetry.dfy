/** What a failed Netplan attempt leaves behind, and which failures are forgotten. */
module NetplanRetry {
  import opened Options
  import opened Entities
  import opened IpLink
  import opened Naming
  import opened Rhel
  import opened Cycle
  import opened Recovery
  import opened Retry
  import opened Listing
  import opened Netplan
  import opened NetplanConvergence
  import opened NetplanTurns

  /** Write, try and apply all work. */
  predicate Applies(plan: NetplanPlan) {
    plan.write.Saved? && plan.tried && plan.apply
  }

  /** The slot's file after Configure, if there is one. */
  function AfterConfigure(files: map<string, Content>, row: NetworkInterface, k: Slot,
                          plan: NetplanPlan): Option<Content> {
    match plan.write
    case NotSaved => if ConfigFile(Name(k)) in files then Some(files[ConfigFile(Name(k))]) else None
    case CutShort(left) => Some(left)
    case Saved =>
      if (!plan.tried && plan.removeTried) || (plan.tried && !plan.apply && plan.removeInner) then None
      else Some(Generated(row, k))
  }

  /** The slot's file after a failed attempt, if there is one. */
  function LeftBehind(files: map<string, Content>, row: NetworkInterface, k: Slot, plan: NetplanPlan): Option<Content> {
    if plan.remove then None else AfterConfigure(files, row, k, plan)
  }

  predicate Holds(files: map<string, Content>, k: Slot, content: Option<Content>) {
    match content
    case None => ConfigFile(Name(k)) !in files
    case Some(c) => ConfigFile(Name(k)) in files && files[ConfigFile(Name(k))] == c
  }

  // ---- devices --------------------------------------------------------------------------

  /** The attempt leaves the device under a name other than the one it was made for. */
  predicate NetStaysElsewhere(n: NetplanNode, row: NetworkInterface, k: Slot, plan: NetplanPlan) {
    Bound(n.devices, row.mac) && !Carries(n.devices, row.mac, {}, k) && !Applies(plan)
  }

  /** After a working apply the name is there and is the row's; without one the table is as before. */
  lemma {:induction false} AppliedName(devices: seq<Device>, row: NetworkInterface, blind: set<Slot>, k: Slot)
    requires UniqueNames(devices) && OneDevice(devices, row.mac) && NameFor(devices, row.mac, blind) == Some(k)
    ensures var b := Applied(devices, row, k); InUse(b, Name(k)) && NameFor(b, row.mac, {}) == Some(k)
    ensures Carries(devices, row.mac, {}, k) || !Bound(devices, row.mac) ==> NameFor(devices, row.mac, {}) == Some(k)
  {
    hide Applied;
    hide Bound;
    hide Carries;
    hide NameFor;
    hide OneDevice;
    GivenIsOwnOrFree(devices, row.mac, blind, k);
    if Carries(devices, row.mac, {}, k) {
      OwnNameIsGiven(devices, row.mac, k);
      NotFree(devices, row, k);
    } else {
      RenamedIsNamed(devices, row.mac, k);
      FreeIsTaken(devices, row, k);
    }
  }

  lemma {:induction false} NotFree(devices: seq<Device>, row: NetworkInterface, k: Slot)
    requires InUse(devices, Name(k))
    ensures Applied(devices, row, k) == devices
  {
  }

  lemma {:induction false} FreeIsTaken(devices: seq<Device>, row: NetworkInterface, k: Slot)
    requires !InUse(devices, Name(k)) && OneDevice(devices, row.mac)
    ensures var i := FirstWithMac(devices, row.mac).value;
            Applied(devices, row, k) == devices[i := Device(Name(k), devices[i].mac)]
  {
  }

  // ---- exactly what an attempt does ----------------------------------------------------------

  lemma {:induction false} ConfigureExactly(n: NetplanNode, row: NetworkInterface, k: Slot, plan: NetplanPlan)
    ensures var (n1, ok) := ConfigureNetplan(n, row, k, plan);
            (ok <==> Applies(plan)) && n1.stored == n.stored &&
            n1.files - {ConfigFile(Name(k))} == n.files - {ConfigFile(Name(k))} &&
            Holds(n1.files, k, AfterConfigure(n.files, row, k, plan)) &&
            n1.devices == if Applies(plan) then Applied(n.devices, row, k) else n.devices
  {
    hide ConfigFile;
    hide Generated;
    hide Applied;
    var f := ConfigFile(Name(k));
    var c := ConfigureNetplan(n, row, k, plan).0;
    assert c.files - {f} == n.files - {f};
  }

  /**
   An attempt on a row with one device, under the name it was given: it succeeds exactly if write, try, apply and
   the check of the link all work; otherwise the slot's file is what `LeftBehind` says, and nothing else has changed
   but the device's name, and that exactly if the apply worked.
   */
  lemma {:induction false} InstallExactly(n: NetplanNode, row: NetworkInterface, k: Slot, plan: NetplanPlan)
    requires UniqueNames(n.devices) && OneDevice(n.devices, row.mac) &&
             NameFor(n.devices, row.mac, plan.blind) == Some(k)
    ensures var (n1, ok) := InstallNetplan(n, row, k, plan);
            (ok <==> Applies(plan) && plan.up) && n1.stored == n.stored &&
            n1.files - {ConfigFile(Name(k))} == n.files - {ConfigFile(Name(k))} &&
            Holds(n1.files, k, if ok then Some(Generated(row, k)) else LeftBehind(n.files, row, k, plan)) &&
            n1.devices == if Applies(plan) then Applied(n.devices, row, k) else n.devices
  {
    hide ConfigFile;
    hide Generated;
    hide OneDevice;
    hide NameFor;
    hide Applied;
    hide ConfigureNetplan;
    hide Applies;
    AppliedName(n.devices, row, plan.blind, k);
    ConfigureExactly(n, row, k, plan);
    if Applies(plan) { AppliesWrites(n.files, row, k, plan); }
    var f, c := ConfigFile(Name(k)), ConfigureNetplan(n, row, k, plan).0;
    assert c.files - {f} - {f} == c.files - {f};
  }

  lemma {:induction false} AppliesWrites(files: map<string, Content>, row: NetworkInterface, k: Slot, plan: NetplanPlan)
    requires Applies(plan)
    ensures AfterConfigure(files, row, k, plan) == Some(Generated(row, k))
  {
    hide ConfigFile;
    hide Generated;
  }

  /** The failed attempt leaves a document that suits the row under the name it will be given next. */
  predicate NetLeavesRightFile(n: NetplanNode, row: NetworkInterface, k: Slot, plan: NetplanPlan) {
    if NetStaysElsewhere(n, row, k, plan) then
      NameFor(n.devices, row.mac, {}).Some? && Suits(n.files, row, NameFor(n.devices, row.mac, {}).value)
    else if Applies(plan) && plan.up then true
    else match LeftBehind(n.files, row, k, plan) case None => false case Some(c) => !IsDrifted(row, c)
  }

  lemma {:induction false} HeldSuits(files: map<string, Content>, row: NetworkInterface, k: Slot,
                                     content: Option<Content>)
    requires Holds(files, k, content)
    ensures Suits(files, row, k) <==> content.Some? && !IsDrifted(row, content.value)
  {
    hide ConfigFile;
    hide IsDrifted;
  }

  lemma {:induction false} InstallLeavesRight(n: NetplanNode, row: NetworkInterface, k: Slot, plan: NetplanPlan)
    requires UniqueNames(n.devices) && OneDevice(n.devices, row.mac) && NetGood(row)
    requires NameFor(n.devices, row.mac, plan.blind) == Some(k)
    ensures var n1 := InstallNetplan(n, row, k, plan).0;
            var next := if NetStaysElsewhere(n, row, k, plan) then NameFor(n.devices, row.mac, {}) else Some(k);
            next.Some? && NameFor(n1.devices, row.mac, {}) == next && n1.stored == n.stored &&
            (Suits(n1.files, row, next.value) <==> NetLeavesRightFile(n, row, k, plan))
  {
    hide ConfigFile;
    hide Generated;
    hide OneDevice;
    hide NameFor;
    hide Applied;
    hide InstallNetplan;
    hide IsDrifted;
    hide NetGood;
    hide Suits;
    hide Holds;
    hide LeftBehind;
    hide Bound;
    hide Carries;
    InstallExactly(n, row, k, plan);
    AppliedName(n.devices, row, plan.blind, k);
    var (n1, ok) := InstallNetplan(n, row, k, plan);
    NetFreshFile(row, row, k);
    if NetStaysElsewhere(n, row, k, plan) {
      var own := ElsewhereName(n, row, k, plan);
      SuitsElsewhere(n.files, n1.files, row, k, own);
    } else if ok {
      HeldSuits(n1.files, row, k, Some(Generated(row, k)));
    } else {
      HeldSuits(n1.files, row, k, LeftBehind(n.files, row, k, plan));
    }
  }

  lemma {:induction false} ElsewhereName(n: NetplanNode, row: NetworkInterface, k: Slot,
                                         plan: NetplanPlan) returns (own: Slot)
    requires NetStaysElsewhere(n, row, k, plan)
    ensures NameFor(n.devices, row.mac, {}) == Some(own) && own != k
  {
    BoundIsCarried(n.devices, row.mac);
    own := NameFor(n.devices, row.mac, {}).value;
  }

  lemma {:induction false} SuitsElsewhere(a: map<string, Content>, b: map<string, Content>, row: NetworkInterface,
                                          k: Slot,
                                          own: Slot)
    requires own != k && a - {ConfigFile(Name(k))} == b - {ConfigFile(Name(k))}
    ensures Suits(a, row, own) <==> Suits(b, row, own)
  {
    hide ConfigFile;
    hide IsDrifted;
    ConfigFileInjective(own, k);
    var f := ConfigFile(Name(own));
    if f in a { SameContent(a, b, ConfigFile(Name(k)), f); }
    if f in b { SameContent(b, a, ConfigFile(Name(k)), f); }
  }

  // ---- exactly which failures are forgotten -----------------------------------------------------

  /**
   In a tidy directory a failed attempt is forgotten, the next faultless worker skipping the row, if and only if its
   failure was not stored, the row was stored as configured before, and the attempt left a document that suits the
   row under the name the row is given next.
   */
  lemma {:induction false} NetForgottenExactly(n: NetplanNode, listing: seq<string>, row: NetworkInterface, k: Slot,
                                               plan: NetplanPlan, after: seq<string>)
    requires UniqueNames(n.devices) && OneDevice(n.devices, row.mac) && NetGood(row) && Tidy(n.files)
    requires NetplanWorker(n, listing, row, plan).1 == Outcome.Failed(k)
    requires Lists(after, NetplanWorker(n, listing, row, plan).0.files.Keys)
    ensures var n1 := NetplanWorker(n, listing, row, plan).0;
            NetplanWorker(n1, after, Current(row, n1.stored), NO_NETPLAN_FAULTS).1.Skipped? <==>
            !plan.saveFailed && Column(n.stored, row.id) == 1 && NetLeavesRightFile(n, row, k, plan)
  {
    hide InstallNetplan;
    hide NameFor;
    hide NetGood;
    hide OneDevice;
    hide Tidy;
    hide Lists;
    hide NetplanNeedsProcessing;
    hide NetLeavesRightFile;
    hide NetStaysElsewhere;
    hide Suits;
    hide ConfigFile;
    hide NetplanWorker;
    WorkerGivesName(n, listing, row, plan);
    RowIsGood(row, row);
    NetWorkerFrame(n, listing, row, plan);
    var n1 := NetplanWorker(n, listing, row, plan).0;
    TidyFrame(n.files, n1.files, k);
    InstallLeavesRight(n, row, k, plan);
    FailedNode(n, listing, row, k, plan);
    WorkerRests(n1, after, row);
    RestsMeans(n1, row);
  }

  lemma {:induction false} RestsMeans(n: NetplanNode, row: NetworkInterface)
    ensures NameFor(n.devices, row.mac, {}).Some? ==>
              (Rests(n, row) <==>
               Suits(n.files, row, NameFor(n.devices, row.mac, {}).value) && Column(n.stored, row.id) == 1)
  {
    hide NameFor;
    hide Suits;
  }

  /** The node after a failed worker: what the attempt left, and the row recorded as failed if that works. */
  lemma {:induction false} FailedNode(n: NetplanNode, listing: seq<string>, row: NetworkInterface, k: Slot,
                                      plan: NetplanPlan)
    requires NetplanWorker(n, listing, row, plan).1 == Outcome.Failed(k) && Validate(row) == Valid
    requires InstallNetplan(n, row, k, plan).0.stored == n.stored
    ensures var n1, left := NetplanWorker(n, listing, row, plan).0, InstallNetplan(n, row, k, plan).0;
            n1.devices == left.devices && n1.files == left.files &&
            (Column(n1.stored, row.id) == 1 <==> !plan.saveFailed && Column(n.stored, row.id) == 1)
  {
    hide InstallNetplan;
    hide NameFor;
    hide NetplanNeedsProcessing;
  }

  lemma {:induction false} WorkerGivesName(n: NetplanNode, listing: seq<string>, row: NetworkInterface,
                                           plan: NetplanPlan)
    ensures var o := NetplanWorker(n, listing, row, plan).1;
            !o.Unnamed? ==> NameFor(n.devices, row.mac, plan.blind) == Some(o.slot)
  {
    hide ProcessNetplan;
    hide NetplanNeedsProcessing;
    hide NameFor;
  }
}
