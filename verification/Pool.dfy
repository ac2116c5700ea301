/**
 The worker pool: one worker per row, a counting semaphore, shared counters, and arbitrary
 interleaving of the workers' steps on the shared node.
 */
module Pool {
  import opened Entities
  import opened Naming
  import opened Rhel
  import opened Cycle

  /** Where a worker stands; from `Named` on it has been given a slot. */
  datatype Phase =
    | Waiting                              // for the semaphore
    | Holding                              // the semaphore; next: the name
    | Named(slot: Slot)                    // next: is processing needed, and is the row valid
    | Selected(slot: Slot)                 // next: find the device
    | Found(slot: Slot, device: string)    // next: rename it
    | Linked(slot: Slot)                   // next: write the file
    | Stored(slot: Slot)                   // next: validate
    | Installed(slot: Slot)                // next: record Configured
    | RollingBack(slot: Slot)              // next: remove the file
    | Reporting(slot: Slot)                // next: record Failed
    | Leaving(outcome: Outcome)            // next: count, and release the semaphore
    | Finished(outcome: Outcome)

  datatype Job = Job(rows: seq<NetworkInterface>, plans: seq<Plan>, maxTasks: int)

  ghost predicate ValidJob(job: Job) {
    |job.rows| == |job.plans|
  }

  function Capacity(job: Job): nat {
    if job.maxTasks <= 0 then 1 else job.maxTasks
  }

  /** `order` records in which order the workers got the semaphore. */
  datatype Pool = Pool(node: Node, phases: seq<Phase>, held: nat, tally: Tally, order: seq<nat>)

  function Start(job: Job, node: Node): Pool {
    Pool(node, seq(|job.rows|, _ => Waiting), 0, Tally(0, 0), [])
  }

  /** One step of a worker that holds the semaphore. */
  function Advance(n: Node, row: NetworkInterface, phase: Phase, plan: Plan): (Node, Phase)
    requires !phase.Waiting? && !phase.Leaving? && !phase.Finished?
  {
    match phase
    case Holding =>
      (match NameFor(n.devices, row.mac, plan.blind) case None => (n, Leaving(Unnamed)) case Some(k) => (n, Named(k)))
    case Named(k) =>
      if !NeedsProcessing(n.files, row, k, plan.readable) then (n, Leaving(Skipped(k)))
      else (n, if Validate(row) == Valid then Selected(k) else Reporting(k))
    case Selected(k) =>
      (match FindStep(n.devices, row.mac, plan) case None => (n, RollingBack(k)) case Some(d) => (n, Found(k, d)))
    case Found(k, d) =>
      var (devices, ok) := LinkStep(n.devices, d, k, plan);
      (n.(devices := devices), if ok then Linked(k) else RollingBack(k))
    case Linked(k) =>
      var (files, ok) := WriteStep(n.files, row, k, plan);
      (n.(files := files), if ok then Stored(k) else RollingBack(k))
    case Stored(k) => (n, if ValidateSpec(n, k, plan) then Installed(k) else RollingBack(k))
    case Installed(k) =>
      var (n1, ok) := Save(n, row.id, Configured, plan.saveConfigured);
      (n1, if ok then Leaving(Processed(k)) else Reporting(k))
    case RollingBack(k) => (RollbackSpec(n, Name(k), plan.remove), Reporting(k))
    case Reporting(k) => (Save(n, row.id, Status.Failed, plan.saveFailed).0, Leaving(Outcome.Failed(k)))
  }

  predicate Enabled(job: Job, p: Pool, i: nat) {
    i < |p.phases| && !p.phases[i].Finished? && (p.phases[i].Waiting? ==> p.held < Capacity(job))
  }

  /** One step of worker `i`; a worker that cannot move leaves everything as it is. */
  function Step(job: Job, p: Pool, i: nat): Pool
    requires ValidJob(job) && |p.phases| == |job.rows|
  {
    if !Enabled(job, p, i) then p
    else if p.phases[i].Waiting? then p.(phases := p.phases[i := Holding], held := p.held + 1, order := p.order + [i])
    else if p.phases[i].Leaving? then
      var o := p.phases[i].outcome;
      p.(phases := p.phases[i := Finished(o)], held := if p.held > 0 then p.held - 1 else 0, tally := Count(p.tally, o))
    else
      var (n, phase) := Advance(p.node, job.rows[i], p.phases[i], job.plans[i]);
      p.(node := n, phases := p.phases[i := phase])
  }

  /** The pool after the workers moved in the order of the schedule. */
  function Run(job: Job, p: Pool, schedule: seq<nat>): (r: Pool)
    requires ValidJob(job) && |p.phases| == |job.rows|
    ensures |r.phases| == |job.rows|
  {
    if schedule == [] then p else Step(job, Run(job, p, schedule[..|schedule| - 1]), schedule[|schedule| - 1])
  }

  lemma {:induction false} RunAppend(job: Job, p: Pool, a: seq<nat>, b: seq<nat>)
    requires ValidJob(job) && |p.phases| == |job.rows|
    ensures Run(job, p, a + b) == Run(job, Run(job, p, a), b)
  {
    hide Step;
    if b == [] {
      assert a + b == a;
    } else {
      assert (a + b)[..|a + b| - 1] == a + b[..|b| - 1];
      RunAppend(job, p, a, b[..|b| - 1]);
    }
  }

  // ---- accounting --------------------------------------------------------------

  /** The kinds of workers that are counted: inside the semaphore, and finished with one of three results. */
  datatype Kind = Inside | Succeeded | Untouched | Broken

  predicate Is(kind: Kind, phase: Phase) {
    match kind
    case Inside => !phase.Waiting? && !phase.Finished?
    case Succeeded => phase.Finished? && phase.outcome.Processed?
    case Untouched => phase.Finished? && phase.outcome.Skipped?
    case Broken => phase.Finished? && (phase.outcome.Failed? || phase.outcome.Unnamed?)
  }

  function Where(phases: seq<Phase>, kind: Kind): set<nat> {
    set i: nat | i < |phases| && Is(kind, phases[i])
  }

  lemma WhereUpdate(phases: seq<Phase>, i: nat, phase: Phase, kind: Kind)
    requires i < |phases|
    ensures |Where(phases[i := phase], kind)| ==
            |Where(phases, kind)| - (if Is(kind, phases[i]) then 1 else 0) + (if Is(kind, phase) then 1 else 0)
  {
    hide Is;
    var a, b := Where(phases, kind), Where(phases[i := phase], kind);
    assert a - {i} == b - {i};
    assert |a - {i}| == |a| - if Is(kind, phases[i]) then 1 else 0;
    assert |b - {i}| == |b| - if Is(kind, phase) then 1 else 0;
  }

  /**
   The semaphore's count is the number of workers inside; the counters count finished workers; nobody enters
   twice.
   */
  ghost predicate Accounts(job: Job, p: Pool) {
    |p.phases| == |job.rows| &&
    p.held == |Where(p.phases, Inside)| <= Capacity(job) &&
    p.tally.processed == |Where(p.phases, Succeeded)| &&
    p.tally.failed == |Where(p.phases, Broken)| &&
    (forall x, y :: 0 <= x < y < |p.order| ==> p.order[x] != p.order[y]) &&
    (forall i: nat :: i in p.order <==> i < |p.phases| && !p.phases[i].Waiting?)
  }

  lemma AdvanceStaysInside(n: Node, row: NetworkInterface, phase: Phase, plan: Plan)
    requires !phase.Waiting? && !phase.Leaving? && !phase.Finished?
    ensures var next := Advance(n, row, phase, plan).1; !next.Waiting? && !next.Finished? && Rank(next) < Rank(phase)
  {
  }

  lemma StepAccounts(job: Job, p: Pool, i: nat)
    requires ValidJob(job) && Accounts(job, p)
    ensures Accounts(job, Step(job, p, i))
  {
    hide Advance;
    if Enabled(job, p, i) {
      var q := Step(job, p, i);
      if !p.phases[i].Waiting? && !p.phases[i].Leaving? {
        AdvanceStaysInside(p.node, job.rows[i], p.phases[i], job.plans[i]);
      }
      var phase := q.phases[i];
      WhereUpdate(p.phases, i, phase, Inside);
      WhereUpdate(p.phases, i, phase, Succeeded);
      WhereUpdate(p.phases, i, phase, Broken);
      assert i in Where(p.phases, Inside) || p.phases[i].Waiting?;
      assert q.phases == p.phases[i := phase];
    }
  }

  lemma {:induction false} RunAccounts(job: Job, node: Node, schedule: seq<nat>)
    requires ValidJob(job)
    ensures Accounts(job, Run(job, Start(job, node), schedule))
  {
    hide Step;
    if schedule == [] {
      var p := Start(job, node);
      assert Where(p.phases, Inside) == {} && Where(p.phases, Succeeded) == {} && Where(p.phases, Broken) == {};
    } else {
      RunAccounts(job, node, schedule[..|schedule| - 1]);
      StepAccounts(job, Run(job, Start(job, node), schedule[..|schedule| - 1]), schedule[|schedule| - 1]);
    }
  }

  /** The bound in figures: as many workers inside as tasks are allowed, one if that is no positive number. */
  lemma {:induction false} AtMostSoMany(job: Job, node: Node, schedule: seq<nat>)
    requires ValidJob(job)
    ensures |Where(Run(job, Start(job, node), schedule).phases, Inside)| <=
            if job.maxTasks <= 0 then 1 else job.maxTasks
  {
    hide Run;
    RunAccounts(job, node, schedule);
  }

  /** The bound is reached: with enough rows, that many workers can be inside at once. */
  lemma {:induction false} SoManyAtOnce(job: Job, node: Node, count: nat) returns (schedule: seq<nat>)
    requires ValidJob(job) && count <= |job.rows| && count <= if job.maxTasks <= 0 then 1 else job.maxTasks
    ensures |Where(Run(job, Start(job, node), schedule).phases, Inside)| == count
    ensures forall i :: count <= i < |job.rows| ==> Run(job, Start(job, node), schedule).phases[i].Waiting?
  {
    if count == 0 {
      schedule := [];
      assert Where(Start(job, node).phases, Inside) == {};
    } else {
      hide Is;
      var init := SoManyAtOnce(job, node, count - 1);
      RunAccounts(job, node, init);
      schedule := init + [count - 1];
      assert schedule[..|schedule| - 1] == init;
      RunAccounts(job, node, schedule);
      var p := Run(job, Start(job, node), init);
      assert Step(job, p, count - 1).held == p.held + 1;
    }
  }

  ghost predicate AllFinished(p: Pool) {
    forall i :: 0 <= i < |p.phases| ==> p.phases[i].Finished?
  }

  /**
   When the wait returns, processed, failed and skipped workers add up to the total, nobody
   holds the semaphore, and every worker got it exactly once.
   */
  lemma {:induction false} FinalAccount(job: Job, node: Node, schedule: seq<nat>)
    requires ValidJob(job) && AllFinished(Run(job, Start(job, node), schedule))
    ensures var p := Run(job, Start(job, node), schedule);
            p.held == 0 && p.tally.processed + p.tally.failed + |Where(p.phases, Untouched)| == |job.rows| &&
            |p.order| == |job.rows| && forall i: nat :: i < |job.rows| <==> i in p.order
  {
    hide Run;
    RunAccounts(job, node, schedule);
    var p := Run(job, Start(job, node), schedule);
    OutcomesPartition(p);
    assert Where(p.phases, Inside) == {};
    ItemsCount(p.order);
    assert Items(p.order) == Upto(|p.phases|);
  }

  lemma OutcomesPartition(p: Pool)
    requires AllFinished(p)
    ensures |Where(p.phases, Succeeded)| + |Where(p.phases, Broken)| + |Where(p.phases, Untouched)| == |p.phases|
  {
    var a, b, c := Where(p.phases, Succeeded), Where(p.phases, Broken), Where(p.phases, Untouched);
    assert Upto(|p.phases|) == a + b + c;
    DisjointCount(a, b, c);
  }

  lemma DisjointCount(a: set<nat>, b: set<nat>, c: set<nat>)
    requires a !! b && a !! c && b !! c
    ensures |a + b + c| == |a| + |b| + |c|
  {
    assert (a + b) !! c;
  }

  function Upto(n: nat): (r: set<nat>)
    ensures |r| == n && forall i: nat :: i in r <==> i < n
  {
    if n == 0 then {} else Upto(n - 1) + {n - 1}
  }

  function Items(s: seq<nat>): (r: set<nat>)
    ensures forall x :: x in r <==> x in s
  {
    set x | x in s
  }

  lemma {:induction false} ItemsCount(s: seq<nat>)
    requires forall x, y :: 0 <= x < y < |s| ==> s[x] != s[y]
    ensures |Items(s)| == |s|
  {
    if s != [] {
      var init, last := s[..|s| - 1], s[|s| - 1];
      ItemsCount(init);
      assert s == init + [last];
      assert last !in init;
      assert Items(s) == Items(init) + {last};
    }
  }

  // ---- progress -------------------------------------------------------------------

  /** Some worker can move unless all have finished. */
  lemma {:induction false} NoDeadlock(job: Job, node: Node, schedule: seq<nat>)
    requires ValidJob(job)
    ensures var p := Run(job, Start(job, node), schedule);
            AllFinished(p) || exists i :: Enabled(job, p, i)
  {
    RunAccounts(job, node, schedule);
    var p := Run(job, Start(job, node), schedule);
    hide Run;
    if i :| 0 <= i < |p.phases| && !p.phases[i].Finished? {
      if p.phases[i].Waiting? && p.held > 0 {
        var active := Where(p.phases, Inside);
        assert active != {};
        var j :| j in active;
        assert Enabled(job, p, j);
      } else {
        assert Enabled(job, p, i);
      }
    }
  }

  function Rank(phase: Phase): nat {
    match phase
    case Waiting => 11
    case Holding => 10
    case Named(_) => 9
    case Selected(_) => 8
    case Found(_, _) => 7
    case Linked(_) => 6
    case Stored(_) => 5
    case Installed(_) => 4
    case RollingBack(_) => 3
    case Reporting(_) => 2
    case Leaving(_) => 1
    case Finished(_) => 0
  }

  function Work(phases: seq<Phase>): nat {
    if phases == [] then 0 else Work(phases[..|phases| - 1]) + Rank(phases[|phases| - 1])
  }

  lemma {:induction false} WorkUpdate(phases: seq<Phase>, i: nat, phase: Phase)
    requires i < |phases|
    ensures Work(phases[i := phase]) == Work(phases) - Rank(phases[i]) + Rank(phase)
  {
    var last := |phases| - 1;
    if i == last {
      assert phases[i := phase][..last] == phases[..last];
    } else {
      WorkUpdate(phases[..last], i, phase);
      assert phases[i := phase][..last] == phases[..last][i := phase];
    }
  }

  /** Every move of an enabled worker uses up work. */
  lemma StepUsesWork(job: Job, p: Pool, i: nat)
    requires ValidJob(job) && |p.phases| == |job.rows| && Enabled(job, p, i)
    ensures Work(Step(job, p, i).phases) < Work(p.phases)
  {
    hide Advance;
    if !p.phases[i].Waiting? && !p.phases[i].Leaving? {
      AdvanceStaysInside(p.node, job.rows[i], p.phases[i], job.plans[i]);
    }
    WorkUpdate(p.phases, i, Step(job, p, i).phases[i]);
  }

  /** A schedule that never picks a blocked or finished worker. */
  ghost predicate Lively(job: Job, p: Pool, schedule: seq<nat>)
    requires ValidJob(job) && |p.phases| == |job.rows|
  {
    forall t :: 0 <= t < |schedule| ==> Enabled(job, Run(job, p, schedule[..t]), schedule[t])
  }

  /** Termination: no run makes more than eleven moves per row. */
  lemma {:induction false} RunIsBounded(job: Job, p: Pool, schedule: seq<nat>)
    requires ValidJob(job) && |p.phases| == |job.rows| && Lively(job, p, schedule)
    ensures Work(Run(job, p, schedule).phases) + |schedule| <= Work(p.phases)
  {
    hide Step;
    hide Enabled;
    if schedule != [] {
      var init := schedule[..|schedule| - 1];
      assert forall t :: 0 <= t < |init| ==> init[..t] == schedule[..t];
      RunIsBounded(job, p, init);
      StepUsesWork(job, Run(job, p, init), schedule[|schedule| - 1]);
    }
  }

  lemma {:induction false} StartWork(count: nat)
    ensures Work(seq(count, _ => Waiting)) == 11 * count
  {
    var s := seq(count, _ => Waiting);
    if count > 0 {
      StartWork(count - 1);
      assert s[..count - 1] == seq(count - 1, _ => Waiting);
    }
  }

  lemma {:induction false} EveryRunIsBounded(job: Job, node: Node, schedule: seq<nat>)
    requires ValidJob(job) && Lively(job, Start(job, node), schedule)
    ensures |schedule| <= 11 * |job.rows|
  {
    RunIsBounded(job, Start(job, node), schedule);
    StartWork(|job.rows|);
  }

  /** From every reachable pool the run can be continued until the wait returns. */
  lemma {:induction false} CanFinish(job: Job, node: Node, schedule: seq<nat>) returns (full: seq<nat>)
    requires ValidJob(job)
    ensures schedule <= full && AllFinished(Run(job, Start(job, node), full))
    decreases Work(Run(job, Start(job, node), schedule).phases)
  {
    hide Step;
    hide Enabled;
    var p := Run(job, Start(job, node), schedule);
    full := schedule;
    if !AllFinished(p) {
      NoDeadlock(job, node, schedule);
      var i :| Enabled(job, p, i);
      StepUsesWork(job, p, i);
      var longer := schedule + [i];
      assert longer[..|longer| - 1] == schedule;
      full := CanFinish(job, node, longer);
    }
  }
}
