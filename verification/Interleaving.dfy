/** The serialised pool is the sequential pass, in the order in which the workers get the semaphore. */
module Interleaving {
  import opened Entities
  import opened Rhel
  import opened Cleanup
  import opened Cycle
  import opened Convergence
  import opened Pool
  import opened Serial
  import opened Stealing

  // ---- capacity 1: the pool is the pass in the order of the semaphore -----------------

  function Pick<T>(s: seq<T>, order: seq<nat>): (r: seq<T>)
    requires forall t :: 0 <= t < |order| ==> order[t] < |s|
    ensures |r| == |order|
    ensures forall t :: 0 <= t < |order| ==> r[t] == s[order[t]]
  {
    seq(|order|, t requires 0 <= t < |order| => s[order[t]])
  }

  lemma {:induction false} PassPrefix(n: Node, rows: seq<NetworkInterface>, plans: seq<Plan>,
                                      row: NetworkInterface, plan: Plan, t: nat)
    requires |rows| == |plans| && t <= |rows|
    ensures After(n, rows + [row], plans + [plan], t) == After(n, rows, plans, t)
    ensures TallyAfter(n, rows + [row], plans + [plan], t) == TallyAfter(n, rows, plans, t)
    ensures t < |rows| ==> OutcomeAt(n, rows + [row], plans + [plan], t) == OutcomeAt(n, rows, plans, t)
  {
    hide WorkerSpec;
    if t > 0 {
      PassPrefix(n, rows, plans, row, plan, t - 1);
    }
  }

  /**
   Rows, plans and phases of the workers let in so far, in that order, follow the pass from
   `start`: all have finished as in the pass, but for the last one while it is inside.
   */
  ghost predicate Follows(start: Node, rows: seq<NetworkInterface>, plans: seq<Plan>, phases: seq<Phase>,
                          now: Node, tally: Tally, inside: bool)
  {
    |rows| == |plans| == |phases| && (inside ==> |rows| > 0) &&
    var done := if inside then |rows| - 1 else |rows|;
    tally == TallyAfter(start, rows, plans, done) &&
    (forall t :: 0 <= t < done ==> phases[t] == Finished(OutcomeAt(start, rows, plans, t))) &&
    if inside then
      Is(Inside, phases[done]) &&
      Complete(now, rows[done], phases[done], plans[done]) ==
        WorkerSpec(After(start, rows, plans, done), rows[done], plans[done])
    else now == After(start, rows, plans, done)
  }

  lemma EnterFollows(start: Node, rows: seq<NetworkInterface>, plans: seq<Plan>, phases: seq<Phase>,
                     now: Node, tally: Tally, row: NetworkInterface, plan: Plan)
    requires Follows(start, rows, plans, phases, now, tally, false)
    ensures Follows(start, rows + [row], plans + [plan], phases + [Holding], now, tally, true)
  {
    hide Complete;
    hide WorkerSpec;
    hide After;
    hide TallyAfter;
    hide OutcomeAt;
    forall t | 0 <= t <= |rows|
      ensures After(start, rows + [row], plans + [plan], t) == After(start, rows, plans, t)
      ensures TallyAfter(start, rows + [row], plans + [plan], t) == TallyAfter(start, rows, plans, t)
      ensures t < |rows| ==> OutcomeAt(start, rows + [row], plans + [plan], t) == OutcomeAt(start, rows, plans, t)
    {
      PassPrefix(start, rows, plans, row, plan, t);
    }
    CompleteIsWorker(now, row, plan);
  }

  lemma MoveFollows(start: Node, rows: seq<NetworkInterface>, plans: seq<Plan>, phases: seq<Phase>, now: Node,
                    tally: Tally,
                    n1: Node, next: Phase)
    requires |rows| == |plans| == |phases| > 0 && Steps(phases[|rows| - 1])
    requires (n1, next) == Advance(now, rows[|rows| - 1], phases[|rows| - 1], plans[|rows| - 1])
    requires Follows(start, rows, plans, phases, now, tally, true)
    ensures Follows(start, rows, plans, phases[|rows| - 1 := next], n1, tally, true)
  {
    hide Complete;
    hide WorkerSpec;
    hide Advance;
    var d := |rows| - 1;
    CompleteStep(now, rows[d], phases[d], plans[d]);
    AdvanceStaysInside(now, rows[d], phases[d], plans[d]);
  }

  lemma LeaveFollows(start: Node, rows: seq<NetworkInterface>, plans: seq<Plan>, phases: seq<Phase>, now: Node,
                     tally: Tally)
    requires |rows| == |plans| == |phases| > 0 && phases[|rows| - 1].Leaving?
    requires Follows(start, rows, plans, phases, now, tally, true)
    ensures var o := phases[|rows| - 1].outcome;
            Follows(start, rows, plans, phases[|rows| - 1 := Finished(o)], now, Count(tally, o), false)
  {
    hide WorkerSpec;
    var d := |rows| - 1;
    LeavingIsComplete(now, rows[d], phases[d], plans[d]);
  }

  lemma LastIsInside(start: Node, rows: seq<NetworkInterface>, plans: seq<Plan>, phases: seq<Phase>, now: Node,
                     tally: Tally)
    requires Follows(start, rows, plans, phases, now, tally, true)
    ensures |phases| == |rows| > 0 && Is(Inside, phases[|rows| - 1])
  {
  }

  ghost predicate FollowsPass(job: Job, start: Node, p: Pool)
    requires ValidJob(job)
  {
    |p.phases| == |job.rows| && (forall t :: 0 <= t < |p.order| ==> p.order[t] < |job.rows|) &&
    Follows(start, Pick(job.rows, p.order), Pick(job.plans, p.order), Pick(p.phases, p.order), p.node, p.tally,
      p.held > 0)
  }

  lemma PickUpdate(phases: seq<Phase>, order: seq<nat>, phase: Phase)
    requires order != [] && forall t :: 0 <= t < |order| ==> order[t] < |phases|
    requires forall x, y :: 0 <= x < y < |order| ==> order[x] != order[y]
    ensures var last := |order| - 1; Pick(phases[order[last] := phase], order) == Pick(phases, order)[last := phase]
  {
  }

  lemma PickAppend<T>(s: seq<T>, order: seq<nat>, i: nat)
    requires i < |s| && forall t :: 0 <= t < |order| ==> order[t] < |s|
    ensures Pick(s, order + [i]) == Pick(s, order) + [s[i]]
  {
  }

  lemma PickElsewhere(phases: seq<Phase>, order: seq<nat>, i: nat, phase: Phase)
    requires i < |phases| && (forall t :: 0 <= t < |order| ==> order[t] < |phases| && order[t] != i)
    ensures Pick(phases[i := phase], order) == Pick(phases, order)
  {
  }

  /** The worker inside is the one let in last. */
  lemma InsideIsLast(job: Job, start: Node, p: Pool, i: nat)
    requires SerialJob(job) && Accounts(job, p) && FollowsPass(job, start, p)
    requires i < |p.phases| && Is(Inside, p.phases[i])
    ensures p.held > 0 && |p.order| > 0 && p.order[|p.order| - 1] == i
  {
    hide Follows;
    assert i in Where(p.phases, Inside);
    assert p.held > 0;
    LastIsInside(start, Pick(job.rows, p.order), Pick(job.plans, p.order), Pick(p.phases, p.order), p.node, p.tally);
    var last := |p.order| - 1;
    assert Pick(p.phases, p.order)[last] == p.phases[p.order[last]];
    OnlyOneInside(job, p, i, p.order[last]);
  }

  lemma WaitingStepFollows(job: Job, start: Node, p: Pool, i: nat)
    requires SerialJob(job) && Accounts(job, p) && FollowsPass(job, start, p) && Enabled(job, p, i) &&
             p.phases[i].Waiting?
    ensures FollowsPass(job, start, Step(job, p, i))
  {
    hide Follows;
    hide Advance;
    var q := Step(job, p, i);
    var rows, plans, phases := Pick(job.rows, p.order), Pick(job.plans, p.order), Pick(p.phases, p.order);
    assert i !in p.order && p.held == 0;
    EnterFollows(start, rows, plans, phases, p.node, p.tally, job.rows[i], job.plans[i]);
    PickAppend(job.rows, p.order, i);
    PickAppend(job.plans, p.order, i);
    PickAppend(q.phases, p.order, i);
    PickElsewhere(p.phases, p.order, i, Holding);
  }

  lemma StepFollows(job: Job, start: Node, p: Pool, i: nat)
    requires SerialJob(job) && Accounts(job, p) && FollowsPass(job, start, p) && Enabled(job, p, i)
    ensures FollowsPass(job, start, Step(job, p, i))
  {
    hide Follows;
    hide Advance;
    var q := Step(job, p, i);
    var rows, plans, phases := Pick(job.rows, p.order), Pick(job.plans, p.order), Pick(p.phases, p.order);
    if p.phases[i].Waiting? {
      WaitingStepFollows(job, start, p, i);
    } else {
      InsideIsLast(job, start, p, i);
      PickUpdate(p.phases, p.order, q.phases[i]);
      assert q.order == p.order;
      if p.phases[i].Leaving? {
        assert p.held == 1;
        LeaveFollows(start, rows, plans, phases, p.node, p.tally);
      } else {
        MoveFollows(start, rows, plans, phases, p.node, p.tally, q.node, q.phases[i]);
      }
    }
  }

  lemma {:induction false} RunFollows(job: Job, start: Node, schedule: seq<nat>)
    requires SerialJob(job)
    ensures FollowsPass(job, start, Run(job, Start(job, start), schedule))
  {
    hide Step;
    hide Enabled;
    hide Complete;
    hide WorkerSpec;
    if schedule != [] {
      var init, i := schedule[..|schedule| - 1], schedule[|schedule| - 1];
      RunFollows(job, start, init);
      RunAccounts(job, start, init);
      var p := Run(job, Start(job, start), init);
      if Enabled(job, p, i) {
        StepFollows(job, start, p, i);
      } else {
        BlockedStays(job, p, i);
      }
    }
  }

  lemma BlockedStays(job: Job, p: Pool, i: nat)
    requires ValidJob(job) && |p.phases| == |job.rows| && !Enabled(job, p, i)
    ensures Step(job, p, i) == p
  {
  }

  /**
   With capacity 1, when the wait returns, the node, the counters and every outcome are those
   of the sequential pass over the rows in the order in which they got the semaphore, a
   permutation of the rows.
   */
  lemma {:induction false} SerialPoolIsPass(job: Job, node: Node, schedule: seq<nat>)
    requires SerialJob(job) && AllFinished(Run(job, Start(job, node), schedule))
    ensures var p := Run(job, Start(job, node), schedule);
            (forall i: nat :: i in p.order <==> i < |job.rows|) && |p.order| == |job.rows| &&
            (forall t :: 0 <= t < |p.order| ==> p.order[t] < |job.rows|) &&
            var rows, plans := Pick(job.rows, p.order), Pick(job.plans, p.order);
            p.node == After(node, rows, plans, |rows|) && p.tally == TallyAfter(node, rows, plans, |rows|) &&
            forall t :: 0 <= t < |rows| ==> p.phases[p.order[t]] == Finished(OutcomeAt(node, rows, plans, t))
  {
    hide Complete;
    hide WorkerSpec;
    hide Run;
    RunFollows(job, node, schedule);
    FinalAccount(job, node, schedule);
  }

  /** So the convergence of a cycle holds for the pool: the order of the semaphore takes the place of the row order. */
  lemma {:induction false} SerialPoolConverges(job: Job, node: Node, schedule: seq<nat>)
    requires SerialJob(job) && AllFinished(Run(job, Start(job, node), schedule))
    requires job.plans == Faultless(|job.rows|)
    requires var order := Run(job, Start(job, node), schedule).order;
             (forall t :: 0 <= t < |order| ==> order[t] < |job.rows|) && !AtRisk(node, Pick(job.rows, order))
    requires Ready(node, job.rows)
    ensures var p := Run(job, Start(job, node), schedule);
            Quiet(p.node.(files := CleanedFiles(p.node.files, {}, ActiveMacs(job.rows), {})), job.rows)
  {
    hide WorkerSpec;
    hide Skips;
    hide Run;
    hide Ready;
    hide Stolen;
    hide AtRisk;
    hide Orphans;
    hide TallyAfter;
    hide OutcomeAt;
    hide After;
    SerialPoolIsPass(job, node, schedule);
    var order := Run(job, Start(job, node), schedule).order;
    var rows := Pick(job.rows, order);
    assert Pick(job.plans, order) == Faultless(|rows|);
    SameRows(job.rows, order);
    RunAccounts(job, node, schedule);
    PickReady(node, job.rows, order);
    StolenExactly(node, rows);
    CycleConverges(node, rows);
    SameActive(job.rows, rows);
  }

  /**
   When every row without a slot is pending, no order can steal a slot: whatever the
   interleaving, the serialised pool and the cleanup leave nothing to do.
   */
  lemma {:induction false} EveryInterleavingConverges(job: Job, node: Node, schedule: seq<nat>)
    requires SerialJob(job) && AllFinished(Run(job, Start(job, node), schedule))
    requires job.plans == Faultless(|job.rows|) && Ready(node, job.rows)
    requires forall r :: r in job.rows && !Bound(node.devices, r.mac) ==> r.status == Pending
    ensures var p := Run(job, Start(job, node), schedule);
            Quiet(p.node.(files := CleanedFiles(p.node.files, {}, ActiveMacs(job.rows), {})), job.rows)
  {
    hide WorkerSpec;
    hide Skips;
    hide Run;
    hide Ready;
    hide Bound;
    SerialPoolIsPass(job, node, schedule);
    RunAccounts(job, node, schedule);
    var order := Run(job, Start(job, node), schedule).order;
    PickReady(node, job.rows, order);
    SameRows(job.rows, order);
    PendingNotStolen(node, Pick(job.rows, order));
    StolenExactly(node, Pick(job.rows, order));
    SerialPoolConverges(job, node, schedule);
  }

  lemma {:induction false} ImageSize(a: set<nat>, order: seq<nat>)
    requires forall t :: t in a ==> t < |order|
    requires forall x, y :: 0 <= x < y < |order| ==> order[x] != order[y]
    ensures |set t | t in a :: order[t]| == |a|
  {
    if a != {} {
      var x :| x in a;
      ImageSize(a - {x}, order);
      assert (set t | t in a :: order[t]) == (set t | t in a - {x} :: order[t]) + {order[x]};
    }
  }

  /** Rows that are ready in one order are ready in every order. */
  lemma PickReady(node: Node, rows: seq<NetworkInterface>, order: seq<nat>)
    requires Ready(node, rows) && forall t :: 0 <= t < |order| ==> order[t] < |rows|
    requires forall x, y :: 0 <= x < y < |order| ==> order[x] != order[y]
    ensures Ready(node, Pick(rows, order))
  {
    hide GoodRow;
    hide OneDevice;
    hide Coherent;
    hide Bound;
    hide FreeSlots;
    var picked := Pick(rows, order);
    var here, there := UnboundFrom(node.devices, picked, 0), UnboundFrom(node.devices, rows, 0);
    ImageSize(here, order);
    SubsetSize(set t | t in here :: order[t], there);
    forall i, j | 0 <= i < j < |picked|
      ensures picked[i].id != picked[j].id && !SameMac(picked[i].mac, picked[j].mac)
    {
      DistinctAt(node, rows, order[i], order[j]);
    }
  }

  lemma SameRows(rows: seq<NetworkInterface>, order: seq<nat>)
    requires forall t :: 0 <= t < |order| ==> order[t] < |rows|
    requires forall i: nat :: i < |rows| ==> i in order
    ensures forall r :: r in rows <==> r in Pick(rows, order)
  {
    forall r | r in rows
      ensures r in Pick(rows, order)
    {
      var i :| 0 <= i < |rows| && rows[i] == r;
      assert i in order;
      var t :| 0 <= t < |order| && order[t] == i;
      assert Pick(rows, order)[t] == r;
    }
  }

  lemma SameActive(a: seq<NetworkInterface>, b: seq<NetworkInterface>)
    requires forall r :: r in a <==> r in b
    ensures ActiveMacs(a) == ActiveMacs(b)
  {
  }
}
