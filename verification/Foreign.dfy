/** Files that are none of the agent's business: no cycle on either path touches them. */
module Foreign {
  import opened Options
  import opened Text
  import opened Entities
  import opened Naming
  import opened Ifcfg
  import opened Rhel
  import opened Cleanup
  import opened Cycle
  import opened Convergence
  import opened Pool
  import opened Serial
  import opened Recovery
  import opened Settling

  /** A file of the network-scripts directory whose name does not start with `ifcfg-multinic`. */
  predicate IsForeign(f: string) {
    |f| < 14 || f[..14] != "ifcfg-multinic"
  }

  lemma {:induction false} SlotFilesAreNot(f: string, k: Slot)
    requires IsForeign(f)
    ensures f != FileName(k)
  {
    assert FileName(k)[..14] == "ifcfg-multinic";
  }

  /** What exactly a cleanup removes, in terms of names and lines. */
  lemma {:induction false} CleanupRemovesExactly(files: map<string, string>, unreadable: set<string>,
                                                 active: set<string>,
                                                 stuck: set<string>, f: string)
    requires f in files
    ensures f !in CleanedFiles(files, unreadable, active, stuck) <==>
            |f| >= 14 && f[..14] == "ifcfg-multinic" && f !in unreadable && f !in stuck &&
            HwaddrOf(files[f]).Some? && Lower(HwaddrOf(files[f]).value) !in active
  {
    hide HwaddrOf;
  }

  /** The cleanup leaves foreign files alone, whatever is unreadable, active or cannot be removed. */
  lemma {:induction false} CleanupKeepsForeign(files: map<string, string>, unreadable: set<string>, active: set<string>,
                                               stuck: set<string>)
    ensures var after := CleanedFiles(files, unreadable, active, stuck);
            forall f :: f in files && (|f| < 14 || f[..14] != "ifcfg-multinic") ==> f in after && after[f] == files[f]
  {
    hide HwaddrOf;
  }

  /** A worker neither writes nor removes nor creates a foreign file. */
  lemma {:induction false} WorkerKeepsForeign(n: Node, row: NetworkInterface, plan: Plan, f: string)
    requires UniqueNames(n.devices) && IsForeign(f)
    ensures var n1 := WorkerSpec(n, row, plan).0;
            UniqueNames(n1.devices) && (f in n1.files <==> f in n.files) && (f in n.files ==> n1.files[f] == n.files[f])
  {
    hide WorkerSpec;
    var (n1, o) := WorkerSpec(n, row, plan);
    WorkerFrame(n, row, plan);
    if n1 != n {
      SlotFilesAreNot(f, o.slot);
      SameEntry(n.files, n1.files, FileName(o.slot), f);
    }
  }

  lemma {:induction false} PassKeepsForeign(n: Node, rows: seq<NetworkInterface>, plans: seq<Plan>, i: nat, f: string)
    requires UniqueNames(n.devices) && IsForeign(f) && i <= |rows| == |plans|
    ensures var m := After(n, rows, plans, i);
            UniqueNames(m.devices) && (f in m.files <==> f in n.files) && (f in n.files ==> m.files[f] == n.files[f])
  {
    hide WorkerSpec;
    hide IsForeign;
    if i > 0 {
      PassKeepsForeign(n, rows, plans, i - 1, f);
      WorkerKeepsForeign(After(n, rows, plans, i - 1), rows[i - 1], plans[i - 1], f);
    }
  }

  /** A whole serialised cycle, whatever fails in it, leaves every foreign file as it is and creates none. */
  lemma {:induction false} CycleKeepsForeign(n: Node, rows: seq<NetworkInterface>, plans: seq<Plan>,
                                             unreadable: set<string>, stuck: set<string>, f: string)
    requires UniqueNames(n.devices) && |rows| == |plans| && (|f| < 14 || f[..14] != "ifcfg-multinic")
    ensures var end := CycleSpec(n, rows, plans, unreadable, stuck);
            (f in end.files <==> f in n.files) && (f in n.files ==> end.files[f] == n.files[f])
  {
    hide HwaddrOf;
    PassKeepsForeign(n, rows, plans, |rows|, f);
    CleanupKeepsForeign(After(n, rows, plans, |rows|).files, unreadable, ActiveMacs(rows), stuck);
  }

  /** So does every reachable pool, with any number of workers at once. */
  lemma {:induction false} PoolKeepsForeign(job: Job, start: Node, schedule: seq<nat>, f: string)
    requires ValidJob(job) && IsForeign(f)
    ensures var n := Run(job, Start(job, start), schedule).node;
            (f in n.files <==> f in start.files) && (f in start.files ==> n.files[f] == start.files[f])
  {
    hide Advance;
    hide IsForeign;
    if schedule != [] {
      var init, i := schedule[..|schedule| - 1], schedule[|schedule| - 1];
      PoolKeepsForeign(job, start, init, f);
      var p := Run(job, Start(job, start), init);
      if Enabled(job, p, i) && Steps(p.phases[i]) {
        var n1 := Advance(p.node, job.rows[i], p.phases[i], job.plans[i]).0;
        StepTouches(p.node, job.rows[i], p.phases[i], job.plans[i]);
        if n1.files != p.node.files {
          SlotFilesAreNot(f, p.phases[i].slot);
          SameEntry(p.node.files, n1.files, FileName(p.phases[i].slot), f);
        }
      }
    }
  }

  /** And every concurrent cycle with its cleanup. */
  lemma {:induction false} RoundKeepsForeign(n: Node, table: seq<NetworkInterface>, round: Round, f: string)
    requires |round.plans| == |table| && (|f| < 14 || f[..14] != "ifcfg-multinic")
    ensures var end := AfterRound(n, table, round);
            (f in end.files <==> f in n.files) && (f in n.files ==> end.files[f] == n.files[f])
  {
    hide HwaddrOf;
    hide Run;
    PoolKeepsForeign(JobOf(n, table, round), n, round.schedule, f);
    var m := PoolOf(n, table, round).node;
    CleanupKeepsForeign(m.files, round.unreadable, ActiveMacs(Fetch(table, n.stored)), round.stuck);
  }

  /** The config of the host's own uplink survives every cycle. */
  lemma {:induction false} UplinkSurvives(n: Node, table: seq<NetworkInterface>, round: Round)
    requires |round.plans| == |table| && "ifcfg-eth0" in n.files
    ensures var end := AfterRound(n, table, round);
            "ifcfg-eth0" in end.files && end.files["ifcfg-eth0"] == n.files["ifcfg-eth0"]
  {
    hide AfterRound;
    RoundKeepsForeign(n, table, round, "ifcfg-eth0");
  }
}
