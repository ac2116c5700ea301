/** Recorded failures are retried, with any number of workers at once, on both paths. */
module RetryRuns {
  import opened Entities
  import opened Naming
  import opened Rhel
  import opened Cycle
  import opened Pool
  import opened Serial
  import opened Recovery
  import opened Settling

  ghost predicate DistinctIds(rows: seq<NetworkInterface>) {
    forall i, j :: 0 <= i < |rows| && 0 <= j < |rows| && i != j ==> rows[i].id != rows[j].id
  }

  /** The worker's outcome is known. */
  predicate Decided(phase: Phase) {
    phase.Leaving? || phase.Finished?
  }

  /** A recorded failure is in the column. */
  ghost predicate FailureShows(n: Node, row: NetworkInterface, phase: Phase, plan: Plan) {
    Decided(phase) && phase.outcome.Failed? && plan.saveFailed ==> Column(n.stored, row.id) == 0
  }

  lemma {:induction false} StepShows(n: Node, row: NetworkInterface, phase: Phase, plan: Plan)
    requires Steps(phase)
    ensures var (n1, next) := Advance(n, row, phase, plan); FailureShows(n1, row, next, plan)
  {
    hide NeedsProcessing;
    hide NameFor;
    hide LinkStep;
    hide FindStep;
    hide WriteStep;
    hide Validate;
    hide ValidateSpec;
  }

  lemma {:induction false} OthersKeepShowing(n: Node, row: NetworkInterface, phase: Phase, plan: Plan,
                                             other: NetworkInterface, at: Phase, otherPlan: Plan)
    requires Steps(phase) && row.id != other.id && FailureShows(n, other, at, otherPlan)
    ensures FailureShows(Advance(n, row, phase, plan).0, other, at, otherPlan)
  {
    hide Advance;
    StepTouches(n, row, phase, plan);
    SameColumn(n.stored, Advance(n, row, phase, plan).0.stored, row.id, other.id);
  }

  lemma {:induction false} PoolShows(job: Job, start: Node, schedule: seq<nat>, i: nat)
    requires ValidJob(job) && DistinctIds(job.rows) && i < |job.rows|
    ensures var p := Run(job, Start(job, start), schedule); FailureShows(p.node, job.rows[i], p.phases[i], job.plans[i])
  {
    hide Advance;
    if schedule != [] {
      var init, x := schedule[..|schedule| - 1], schedule[|schedule| - 1];
      PoolShows(job, start, init, i);
      var p := Run(job, Start(job, start), init);
      if Enabled(job, p, x) && Steps(p.phases[x]) {
        if x == i {
          StepShows(p.node, job.rows[i], p.phases[i], job.plans[i]);
        } else {
          OthersKeepShowing(p.node, job.rows[x], p.phases[x], job.plans[x], job.rows[i], p.phases[i], job.plans[i]);
        }
      }
    }
  }

  /** The worker of a pending row never ends as skipped. */
  lemma {:induction false} PendingStep(n: Node, row: NetworkInterface, phase: Phase, plan: Plan)
    requires Steps(phase) && row.status == Pending
    ensures var next := Advance(n, row, phase, plan).1; Decided(next) ==> !next.outcome.Skipped?
  {
    hide NameFor;
    hide LinkStep;
    hide FindStep;
    hide WriteStep;
    hide Validate;
    hide ValidateSpec;
    hide Save;
  }

  lemma {:induction false} PendingPool(job: Job, start: Node, schedule: seq<nat>, i: nat)
    requires ValidJob(job) && i < |job.rows| && job.rows[i].status == Pending
    ensures var phase := Run(job, Start(job, start), schedule).phases[i]; Decided(phase) ==> !phase.outcome.Skipped?
  {
    hide Advance;
    if schedule != [] {
      var init, x := schedule[..|schedule| - 1], schedule[|schedule| - 1];
      PendingPool(job, start, init, i);
      var p := Run(job, Start(job, start), init);
      if Enabled(job, p, x) && Steps(p.phases[x]) && x == i {
        PendingStep(p.node, job.rows[i], p.phases[i], job.plans[i]);
      }
    }
  }

  /**
   A failure that is recorded in a cycle is retried in the next one, whatever the number of workers, the
   interleavings and the other failures in both.
   */
  lemma {:induction false} ConcurrentFailureIsRetried(n: Node, table: seq<NetworkInterface>, round: Round,
                                                      next: Round, i: nat)
    requires |round.plans| == |table| == |next.plans| && DistinctIds(table) && i < |table|
    requires var phase := PoolOf(n, table, round).phases[i]; Decided(phase) && phase.outcome.Failed?
    requires round.plans[i].saveFailed
    ensures var phase := PoolOf(AfterRound(n, table, round), table, next).phases[i];
            Decided(phase) ==> !phase.outcome.Skipped?
  {
    hide Run;
    var job, m := JobOf(n, table, round), AfterRound(n, table, round);
    PoolShows(job, n, round.schedule, i);
    assert Fetch(table, m.stored)[i].status == Pending;
    PendingPool(JobOf(m, table, next), m, next.schedule, i);
  }
}

/** The same on the Netplan path. */
module NetplanRetryRuns {
  import opened Entities
  import opened Naming
  import opened Cycle
  import opened Netplan
  import opened NetplanPool
  import opened RetryRuns

  ghost predicate NetFailureShows(n: NetplanNode, row: NetworkInterface, stage: Stage, plan: NetplanPlan) {
    stage.Ended? && stage.outcome.Failed? && plan.saveFailed ==> Column(n.stored, row.id) == 0
  }

  /** What a move does to the status column: at most its row's entry changes, and a recorded failure shows there. */
  lemma {:induction false} MoveShows(n: NetplanNode, listing: seq<string>, row: NetworkInterface, stage: Stage,
                                     plan: NetplanPlan)
    requires !stage.Ended?
    ensures var (n1, next) := Move(n, listing, row, stage, plan);
            NetFailureShows(n1, row, next, plan) && n1.stored - {row.id} == n.stored - {row.id}
  {
    hide ConfigFile;
    hide Generated;
    hide ApplyRename;
    hide WriteDocument;
    hide NetplanNeedsProcessing;
    hide NameFor;
    hide Validate;
    var n1 := Move(n, listing, row, stage, plan).0;
    assert n1.stored - {row.id} == n.stored - {row.id};
  }

  lemma {:induction false} CrewShows(rows: seq<NetworkInterface>, a: Assignment, start: NetplanNode,
                                     schedule: seq<nat>, i: nat)
    requires |rows| == |a.plans| == |a.listings| && DistinctIds(rows) && i < |rows|
    ensures var c := MoveAll(rows, a, Crew(start, seq(|rows|, _ => Starting)), schedule);
            NetFailureShows(c.node, rows[i], c.stages[i], a.plans[i])
  {
    hide Move;
    if schedule != [] {
      var init, x := schedule[..|schedule| - 1], schedule[|schedule| - 1];
      CrewShows(rows, a, start, init, i);
      var c := MoveAll(rows, a, Crew(start, seq(|rows|, _ => Starting)), init);
      if x < |rows| && !c.stages[x].Ended? {
        MoveShows(c.node, a.listings[x], rows[x], c.stages[x], a.plans[x]);
        if x != i {
          SameColumn(c.node.stored, Move(c.node, a.listings[x], rows[x], c.stages[x], a.plans[x]).0.stored,
            rows[x].id, rows[i].id);
        }
      }
    }
  }

  lemma {:induction false} PendingMove(n: NetplanNode, listing: seq<string>, row: NetworkInterface, stage: Stage,
                                       plan: NetplanPlan)
    requires !stage.Ended? && row.status == Pending
    ensures var next := Move(n, listing, row, stage, plan).1; next.Ended? ==> !next.outcome.Skipped?
  {
    hide ConfigFile;
    hide Generated;
    hide ApplyRename;
    hide WriteDocument;
    hide IsDrifted;
    hide CheckedFile;
    hide NameFor;
    hide Validate;
  }

  lemma {:induction false} PendingCrew(rows: seq<NetworkInterface>, a: Assignment, start: NetplanNode,
                                       schedule: seq<nat>, i: nat)
    requires |rows| == |a.plans| == |a.listings| && i < |rows| && rows[i].status == Pending
    ensures var stage := MoveAll(rows, a, Crew(start, seq(|rows|, _ => Starting)), schedule).stages[i];
            stage.Ended? ==> !stage.outcome.Skipped?
  {
    hide Move;
    if schedule != [] {
      var init, x := schedule[..|schedule| - 1], schedule[|schedule| - 1];
      PendingCrew(rows, a, start, init, i);
      var c := MoveAll(rows, a, Crew(start, seq(|rows|, _ => Starting)), init);
      if x == i && !c.stages[x].Ended? {
        PendingMove(c.node, a.listings[x], rows[x], c.stages[x], a.plans[x]);
      }
    }
  }

  /**
   A recorded failure of a Netplan worker is retried in the next cycle, whatever the number of workers, the
   interleavings, the listings and the other failures in both.
   */
  lemma {:induction false} NetplanConcurrentFailureIsRetried(n: NetplanNode, table: seq<NetworkInterface>,
                                                             round: CrewRound,
                                                             next: CrewRound, i: nat)
    requires |round.work.plans| == |round.work.listings| == |next.work.plans| == |next.work.listings| == |table|
    requires DistinctIds(table) && i < |table| && round.work.plans[i].saveFailed
    requires var stage :=
             MoveAll(Fetch(table, n.stored), round.work, Crew(n, seq(|table|, _ => Starting)),
             round.schedule).stages[i];
             stage.Ended? && stage.outcome.Failed?
    ensures var m := AfterCrew(n, table, round);
            var stage :=
              MoveAll(Fetch(table, m.stored), next.work, Crew(m, seq(|table|, _ => Starting)), next.schedule).stages[i];
            stage.Ended? ==> !stage.outcome.Skipped?
  {
    hide MoveAll;
    var rows, m := Fetch(table, n.stored), AfterCrew(n, table, round);
    CrewShows(rows, round.work, n, round.schedule, i);
    assert Fetch(table, m.stored)[i].status == Pending;
    PendingCrew(Fetch(table, m.stored), next.work, m, next.schedule, i);
  }
}
