/**
 Netplan workers at once: their small steps in arbitrary interleaving, whatever fails. What the
 exact convergence theorem needs of a node survives all of it.
 */
module NetplanPool {
  import opened Entities
  import opened Naming
  import opened Rhel
  import opened Cycle
  import opened Recovery
  import opened Netplan
  import opened NetplanConvergence
  import opened NetplanTurns
  import opened NetplanResting

  /** Where a worker stands; each comment says what it does next. */
  datatype Stage =
    | Starting                    // look for a name
    | Given(slot: Slot)           // check whether processing is needed and the row valid
    | Writing(slot: Slot)         // write the document
    | Trying(slot: Slot)          // `netplan try`, and the removal after a failure
    | Applying(slot: Slot)        // `netplan apply`
    | Undoing(slot: Slot)         // the adapter's own rollback
    | Checking(slot: Slot)        // validate
    | Recording(slot: Slot)       // record Configured
    | Reverting(slot: Slot)       // the use case's rollback
    | Confessing(slot: Slot)      // record Failed
    | Ended(outcome: Outcome)

  /** One step of a worker that has not ended; `listing` is what it sees of the directory. */
  function Move(n: NetplanNode, listing: seq<string>, row: NetworkInterface, stage: Stage,
                plan: NetplanPlan): (NetplanNode, Stage)
    requires !stage.Ended?
  {
    match stage
    case Starting =>
      (match NameFor(n.devices, row.mac, plan.blind) case None => (n, Ended(Unnamed)) case Some(k) => (n, Given(k)))
    case Given(k) =>
      if !NetplanNeedsProcessing(n, listing, row, k, plan.readable) then (n, Ended(Skipped(k)))
      else (n, if Validate(row) == Valid then Writing(k) else Confessing(k))
    case Writing(k) =>
      var (files, ok) := WriteDocument(n.files, ConfigFile(Name(k)), Generated(row, k), plan.write);
      (n.(files := files), if ok then Trying(k) else Reverting(k))
    case Trying(k) =>
      if plan.tried then (n, Applying(k))
      else (if plan.removeTried then n.(files := n.files - {ConfigFile(Name(k))}) else n, Reverting(k))
    case Applying(k) =>
      if plan.apply then (n.(devices := Applied(n.devices, row, k)), Checking(k)) else (n, Undoing(k))
    case Undoing(k) => (RollbackNetplan(n, Name(k), plan.removeInner, plan.applyInner).0, Reverting(k))
    case Checking(k) => (n, if ValidateNetplan(n, k, plan) then Recording(k) else Reverting(k))
    case Recording(k) =>
      var (n1, ok) := SaveNetplan(n, row.id, Configured, plan.saveConfigured);
      (n1, if ok then Ended(Processed(k)) else Confessing(k))
    case Reverting(k) => (RollbackNetplan(n, Name(k), plan.remove, plan.applyAfter).0, Confessing(k))
    case Confessing(k) => (SaveNetplan(n, row.id, Status.Failed, plan.saveFailed).0, Ended(Outcome.Failed(k)))
  }

  function Left(stage: Stage): nat {
    match stage
    case Starting => 10
    case Given(_) => 9
    case Writing(_) => 8
    case Trying(_) => 7
    case Applying(_) => 6
    case Undoing(_) => 5
    case Checking(_) => 4
    case Recording(_) => 3
    case Reverting(_) => 2
    case Confessing(_) => 1
    case Ended(_) => 0
  }

  lemma MoveAdvances(n: NetplanNode, listing: seq<string>, row: NetworkInterface, stage: Stage, plan: NetplanPlan)
    requires !stage.Ended?
    ensures Left(Move(n, listing, row, stage, plan).1) < Left(stage)
  {
    hide ConfigFile;
    hide Generated;
    hide WriteDocument;
    hide NetplanNeedsProcessing;
  }

  // ---- the small steps add up to the worker --------------------------------------------------

  /** The worker run to its end without interference. */
  function Finish(n: NetplanNode, listing: seq<string>, row: NetworkInterface, stage: Stage,
                  plan: NetplanPlan): (NetplanNode, Outcome)
    decreases Left(stage)
  {
    if stage.Ended? then (n, stage.outcome)
    else
      MoveAdvances(n, listing, row, stage, plan);
      var (n1, next) := Move(n, listing, row, stage, plan);
      Finish(n1, listing, row, next, plan)
  }

  lemma FinishMove(n: NetplanNode, listing: seq<string>, row: NetworkInterface, stage: Stage, plan: NetplanPlan)
    requires !stage.Ended?
    ensures var (n1, next) := Move(n, listing, row, stage, plan);
            Finish(n, listing, row, stage, plan) == Finish(n1, listing, row, next, plan)
  {
    hide Move;
  }

  lemma FinishEnded(n: NetplanNode, listing: seq<string>, row: NetworkInterface, o: Outcome, plan: NetplanPlan)
    ensures Finish(n, listing, row, Ended(o), plan) == (n, o)
  {
    hide Move;
  }

  lemma FinishFailure(n: NetplanNode, listing: seq<string>, row: NetworkInterface, k: Slot, plan: NetplanPlan)
    ensures Finish(n, listing, row, Confessing(k), plan) ==
            (SaveNetplan(n, row.id, Status.Failed, plan.saveFailed).0, Outcome.Failed(k))
    ensures Finish(n, listing, row, Reverting(k), plan) ==
            Finish(RollbackNetplan(n, Name(k), plan.remove, plan.applyAfter).0, listing, row, Confessing(k), plan)
  {
    hide Finish;
    hide ConfigFile;
    FinishMove(n, listing, row, Confessing(k), plan);
    FinishEnded(SaveNetplan(n, row.id, Status.Failed, plan.saveFailed).0, listing, row, Outcome.Failed(k), plan);
    FinishMove(n, listing, row, Reverting(k), plan);
  }

  lemma FinishConfigure(n: NetplanNode, listing: seq<string>, row: NetworkInterface, k: Slot, plan: NetplanPlan)
    ensures var (n1, ok) := ConfigureNetplan(n, row, k, plan);
            Finish(n, listing, row, Writing(k), plan) ==
              Finish(n1, listing, row, if ok then Checking(k) else Reverting(k), plan)
  {
    hide Finish;
    hide ConfigFile;
    hide Generated;
    hide WriteDocument;
    hide ApplyRename;
    hide RollbackNetplan;
    var (files, written) := WriteDocument(n.files, ConfigFile(Name(k)), Generated(row, k), plan.write);
    var n1 := n.(files := files);
    FinishMove(n, listing, row, Writing(k), plan);
    if written {
      FinishMove(n1, listing, row, Trying(k), plan);
      FinishMove(n1, listing, row, Applying(k), plan);
      FinishMove(n1, listing, row, Undoing(k), plan);
    }
  }

  lemma FinishInstall(n: NetplanNode, listing: seq<string>, row: NetworkInterface, k: Slot, plan: NetplanPlan)
    ensures var (n1, ok) := InstallNetplan(n, row, k, plan);
            Finish(n, listing, row, Writing(k), plan) ==
              Finish(n1, listing, row, if ok then Recording(k) else Confessing(k), plan)
  {
    hide Finish;
    hide ConfigFile;
    hide ConfigureNetplan;
    hide ValidateNetplan;
    hide RollbackNetplan;
    var n1 := ConfigureNetplan(n, row, k, plan).0;
    FinishConfigure(n, listing, row, k, plan);
    FinishMove(n1, listing, row, Checking(k), plan);
    FinishFailure(n1, listing, row, k, plan);
  }

  lemma FinishGiven(n: NetplanNode, listing: seq<string>, row: NetworkInterface, k: Slot, plan: NetplanPlan)
    requires NetplanNeedsProcessing(n, listing, row, k, plan.readable)
    ensures var (n1, ok) := ProcessNetplan(n, row, k, plan);
            Finish(n, listing, row, Given(k), plan) ==
            if ok then (n1, Processed(k))
              else (SaveNetplan(n1, row.id, Status.Failed, plan.saveFailed).0, Outcome.Failed(k))
  {
    hide Finish;
    hide InstallNetplan;
    hide SaveNetplan;
    hide NetplanNeedsProcessing;
    FinishMove(n, listing, row, Given(k), plan);
    FinishFailure(n, listing, row, k, plan);
    if Validate(row) == Valid {
      FinishInstall(n, listing, row, k, plan);
      var (n1, installed) := InstallNetplan(n, row, k, plan);
      FinishMove(n1, listing, row, Recording(k), plan);
      var (n2, saved) := SaveNetplan(n1, row.id, Configured, plan.saveConfigured);
      FinishEnded(n2, listing, row, Processed(k), plan);
      FinishFailure(n2, listing, row, k, plan);
      FinishFailure(n1, listing, row, k, plan);
    }
  }

  /** A Netplan worker's small steps, run without interference, are the worker. */
  lemma {:induction false} FinishIsWorker(n: NetplanNode, listing: seq<string>, row: NetworkInterface,
                                          plan: NetplanPlan)
    ensures Finish(n, listing, row, Starting, plan) == NetplanWorker(n, listing, row, plan)
  {
    hide Finish;
    hide ProcessNetplan;
    hide NetplanNeedsProcessing;
    hide NameFor;
    FinishMove(n, listing, row, Starting, plan);
    var name := NameFor(n.devices, row.mac, plan.blind);
    if name.None? {
      FinishEnded(n, listing, row, Unnamed, plan);
    } else if NetplanNeedsProcessing(n, listing, row, name.value, plan.readable) {
      FinishGiven(n, listing, row, name.value, plan);
    } else {
      FinishMove(n, listing, row, Given(name.value), plan);
      FinishEnded(n, listing, row, Skipped(name.value), plan);
    }
  }

  // ---- any interleaving ----------------------------------------------------------------------

  /** The node and the workers on it. How many may move is not restricted: every semaphore allows fewer runs. */
  datatype Crew = Crew(node: NetplanNode, stages: seq<Stage>)

  /** What each worker sees of the directory and how its commands turn out. */
  datatype Assignment = Assignment(listings: seq<seq<string>>, plans: seq<NetplanPlan>)

  function MoveOne(rows: seq<NetworkInterface>, a: Assignment, c: Crew, i: nat): Crew
    requires |rows| == |a.plans| == |a.listings| == |c.stages|
  {
    if i >= |rows| || c.stages[i].Ended? then c
    else
      var (n, next) := Move(c.node, a.listings[i], rows[i], c.stages[i], a.plans[i]);
      Crew(n, c.stages[i := next])
  }

  function MoveAll(rows: seq<NetworkInterface>, a: Assignment, c: Crew, schedule: seq<nat>): (r: Crew)
    requires |rows| == |a.plans| == |a.listings| == |c.stages|
    ensures |r.stages| == |rows|
  {
    if schedule == [] then c
    else MoveOne(rows, a, MoveAll(rows, a, c, schedule[..|schedule| - 1]), schedule[|schedule| - 1])
  }

  /** What a step does: the row's device may take a free name, its name's file and its row's status may change. */
  lemma MoveFrame(n: NetplanNode, listing: seq<string>, row: NetworkInterface, stage: Stage, plan: NetplanPlan)
    requires !stage.Ended?
    ensures var n1 := Move(n, listing, row, stage, plan).0;
            n1.stored.Keys == n.stored.Keys &&
            (n1.devices == n.devices || (stage.Applying? && TookSlot(n.devices, n1.devices, row.mac, stage.slot))) &&
            (n1.files == n.files ||
             (!stage.Starting? &&
               n1.files - {ConfigFile(Name(stage.slot))} == n.files - {ConfigFile(Name(stage.slot))}))
  {
    hide ConfigFile;
    hide Generated;
    hide ApplyRename;
    hide TookSlot;
    hide NetplanNeedsProcessing;
    hide NameFor;
    if stage.Applying? { ApplyTakes(n.devices, row.mac, stage.slot); }
    if !stage.Starting? {
      var f, n1 := ConfigFile(Name(stage.slot)), Move(n, listing, row, stage, plan).0;
      assert n1.files - {f} == n.files - {f};
    }
  }

  /** Any step of any worker keeps what the convergence theorems need of the node. */
  lemma {:induction false} MoveKeepsBase(n: NetplanNode, table: seq<NetworkInterface>, x: nat, listing: seq<string>,
                                         row: NetworkInterface,
                                         stage: Stage, plan: NetplanPlan)
    requires NetBase(n, table) && IsRow(row, table, x) && !stage.Ended?
    ensures NetBase(Move(n, listing, row, stage, plan).0, table)
  {
    hide Move;
    hide ConfigFile;
    hide NetGood;
    hide Bound;
    hide OneDevice;
    hide TookSlot;
    hide Tidy;
    hide FreeSlots;
    hide UnboundFrom;
    var n1 := Move(n, listing, row, stage, plan).0;
    assert table[x] in table;
    MoveFrame(n, listing, row, stage, plan);
    if n1.devices != n.devices {
      TakenIsBound(n.devices, n1.devices, row.mac, stage.slot);
      SlotsSuffice(n.devices, n1.devices, table, x, stage.slot);
      forall r | r in table
        ensures OneDevice(n1.devices, r.mac)
      {
        OneDeviceFrame(n.devices, n1.devices, r.mac, row.mac, stage.slot);
      }
    }
    if n1.files != n.files { TidyFrame(n.files, n1.files, stage.slot); }
  }

  lemma {:induction false} CrewKeepsBase(n: NetplanNode, table: seq<NetworkInterface>, a: Assignment, c: Crew,
                                         schedule: seq<nat>)
    requires |table| == |a.plans| == |a.listings| == |c.stages| && NetBase(c.node, table)
    ensures NetBase(MoveAll(Fetch(table, n.stored), a, c, schedule).node, table)
  {
    hide Move;
    hide NetBase;
    if schedule != [] {
      var init, i := schedule[..|schedule| - 1], schedule[|schedule| - 1];
      CrewKeepsBase(n, table, a, c, init);
      var rows := Fetch(table, n.stored);
      var m := MoveAll(rows, a, c, init);
      if i < |table| && !m.stages[i].Ended? {
        assert IsRow(rows[i], table, i);
        MoveKeepsBase(m.node, table, i, a.listings[i], rows[i], m.stages[i], a.plans[i]);
      }
    }
  }

  // ---- runs of concurrent cycles ---------------------------------------------------------------

  /**
   One cycle with faults: the workers' views and plans, how their steps interleave and where they stop, and
   the files that the cleanup removed.
   */
  datatype CrewRound = CrewRound(work: Assignment, schedule: seq<nat>, removed: set<string>)

  ghost predicate ValidCrewHistory(history: seq<CrewRound>, table: seq<NetworkInterface>) {
    forall i :: 0 <= i < |history| ==> |history[i].work.plans| == |history[i].work.listings| == |table|
  }

  ghost function AfterCrew(n: NetplanNode, table: seq<NetworkInterface>, round: CrewRound): NetplanNode
    requires |round.work.plans| == |round.work.listings| == |table|
  {
    var m := MoveAll(Fetch(table, n.stored), round.work, Crew(n, seq(|table|, _ => Starting)), round.schedule).node;
    m.(files := m.files - round.removed)
  }

  ghost function AfterCrewHistory(n: NetplanNode, table: seq<NetworkInterface>, history: seq<CrewRound>): NetplanNode
    requires ValidCrewHistory(history, table)
  {
    if history == [] then n
    else AfterCrew(AfterCrewHistory(n, table, history[..|history| - 1]), table, history[|history| - 1])
  }

  lemma {:induction false} CrewHistoryKeepsBase(n: NetplanNode, table: seq<NetworkInterface>, history: seq<CrewRound>)
    requires NetBase(n, table) && ValidCrewHistory(history, table)
    ensures NetBase(AfterCrewHistory(n, table, history), table)
  {
    hide NetBase;
    hide MoveAll;
    if history != [] {
      var init, round := history[..|history| - 1], history[|history| - 1];
      CrewHistoryKeepsBase(n, table, init);
      var m := AfterCrewHistory(n, table, init);
      var start := Crew(m, seq(|table|, _ => Starting));
      CrewKeepsBase(m, table, round.work, start, round.schedule);
      FewerBase(MoveAll(Fetch(table, m.stored), round.work, start, round.schedule).node, table, round.removed);
    }
  }

  /**
   Recovery on the Netplan path: after any run of cycles, with any number of workers at once, any interleaving, any
   command failing in any way and any cycle cut short, one more faultless serialised cycle than there are devices
   without a name leaves nothing to do.
   */
  lemma {:induction false} NetplanConcurrentRecovery(n: NetplanNode, table: seq<NetworkInterface>,
                                                     history: seq<CrewRound>, count: nat)
    requires NetBase(n, table) && ValidCrewHistory(history, table)
    requires count > Nameless(AfterCrewHistory(n, table, history).devices, table)
    ensures var m := NetCycles(AfterCrewHistory(n, table, history), table, count); NetQuiet(m, Fetch(table, m.stored))
  {
    hide NetBase;
    hide NetQuiet;
    hide Nameless;
    hide NetCycles;
    hide AfterCrewHistory;
    CrewHistoryKeepsBase(n, table, history);
    NetCyclesComeToRest(AfterCrewHistory(n, table, history), table, count);
  }
}
