/** A node on which the hypotheses of convergence hold, and on which two workers at once collide. */
module Example {
  import opened Options
  import opened Text
  import opened Entities
  import opened IpLink
  import opened Naming
  import opened Ifcfg
  import opened Rhel
  import opened Cleanup
  import opened Cycle
  import opened Convergence
  import opened Pool
  import opened Interleaving
  import opened Stealing
  import opened Collision
  import opened Disagreement
  import opened Recovery
  import opened Settling
  import opened Netplan
  import opened NetplanConvergence

  function Mac(k: Slot): string {
    "02:00:00:00:00:0" + [DigitChar(k)]
  }

  /** A new row without an address. */
  function NewRow(k: Slot): NetworkInterface {
    NetworkInterface(k, Mac(k), "node", Pending, "", "", 0)
  }

  function NewRows(): seq<NetworkInterface> {
    [NewRow(0), NewRow(1)]
  }

  /** Two devices with the names that the kernel gave them, no files, and nothing recorded. */
  function FreshNode(): Node {
    Node([Device("eth0", Mac(0)), Device("eth1", Mac(1))], map[], map[0 := 0, 1 := 0])
  }

  lemma MacIsValid(k: Slot)
    ensures IsValidMac(Mac(k)) && '\n' !in Mac(k)
  {
    var m := Mac(k);
    assert m[16] == DigitChar(k) && IsDigit(m[16]) && !IsDigit('\n');
  }

  lemma MacsDiffer(j: Slot, k: Slot)
    ensures SameMac(Mac(j), Mac(k)) <==> j == k
  {
    var a, b := Lower(Mac(j)), Lower(Mac(k));
    assert Mac(j)[16] == DigitChar(j) && Mac(k)[16] == DigitChar(k);
    assert a[16] == DigitChar(j) && b[16] == DigitChar(k);
  }

  lemma NewRowIsGood(k: Slot)
    ensures GoodRow(NewRow(k))
  {
    MacIsValid(k);
    ValidMacText(Mac(k));
    TrimClean(Lower(Mac(k)));
  }

  lemma NoSlotInUse(k: Slot)
    ensures !InUse(FreshNode().devices, Name(k))
  {
    assert |Name(k)| == 9;
  }

  lemma AllSlotsFree()
    ensures |FreeSlots(FreshNode().devices)| == 10
    ensures LowestFree(FreshNode().devices, 0) == Some(0)
  {
    forall k: Slot
      ensures k in FreeSlots(FreshNode().devices)
    {
      NoSlotInUse(k);
    }
    NoSlotInUse(0);
    assert FreeSlots(FreshNode().devices) == Upto(10);
  }

  lemma NoneBound(mac: string)
    ensures !Bound(FreshNode().devices, mac)
  {
    forall k: Slot
      ensures !Carries(FreshNode().devices, mac, {}, k)
    {
      NoSlotInUse(k);
    }
  }

  lemma FreshNodeIsReady()
    ensures Ready(FreshNode(), NewRows())
  {
    hide GoodRow;
    hide Bound;
    hide FreeSlots;
    hide Lower;
    hide Mac;
    var n, rows := FreshNode(), NewRows();
    NewRowIsGood(0);
    NewRowIsGood(1);
    MacsDiffer(0, 1);
    MacsDiffer(1, 0);
    MacsDiffer(0, 0);
    MacsDiffer(1, 1);
    AllSlotsFree();
    SubsetSize(UnboundFrom(n.devices, rows, 0), Upto(2));
    forall k: Slot
      ensures FileName(k) !in n.files
    {
    }
  }

  /** From this node, whatever fails in however many cycles, one faultless cycle brings rest. */
  lemma {:induction false} FreshNodeRecovers(history: seq<Round>)
    requires ValidHistory(history, NewRows())
    ensures var m := AfterHistory(FreshNode(), NewRows(), history);
            var rows := Fetch(NewRows(), m.stored);
            Quiet(OneCycle(m, rows), rows)
  {
    hide Ready;
    hide Mac;
    hide Quiet;
    hide OneCycle;
    hide AfterHistory;
    hide ValidHistory;
    FreshNodeIsSound();
    RecoversFromFaults(FreshNode(), NewRows(), history);
  }

  lemma FreshNodeIsSound()
    ensures Sound(FreshNode(), NewRows())
  {
    hide GoodRow;
    hide Bound;
    hide FreeSlots;
    hide Mac;
    hide OneDevice;
    hide Coherent;
    hide UnboundFrom;
    FreshNodeIsReady();
  }

  /** On this node a cycle converges in every interleaving of serialised workers. */
  lemma FreshNodeConverges(schedule: seq<nat>)
    requires AllFinished(Run(Job(NewRows(), Faultless(2), 1), Start(Job(NewRows(), Faultless(2), 1), FreshNode()),
             schedule))
    ensures var p :=
            Run(Job(NewRows(), Faultless(2), 1), Start(Job(NewRows(), Faultless(2), 1), FreshNode()), schedule);
            Quiet(p.node.(files := CleanedFiles(p.node.files, {}, ActiveMacs(NewRows()), {})), NewRows())
  {
    hide Run;
    hide Ready;
    hide Bound;
    hide Mac;
    hide Quiet;
    FreshNodeIsReady();
    MacsDiffer(0, 1);
    MacsDiffer(1, 0);
    EveryInterleavingConverges(Job(NewRows(), Faultless(2), 1), FreshNode(), schedule);
  }

  /** With two workers at once it can end with one row recorded as configured and no file for it. */
  lemma {:induction false} FreshNodeCollides() returns (schedule: seq<nat>)
    ensures var job := Job(NewRows(), Faultless(2), 2);
            var p := Run(job, Start(job, FreshNode()), schedule);
            AllFinished(p) && p.phases == [Finished(Processed(0)), Finished(Outcome.Failed(0))] &&
            LeftWithout(p.node, NewRow(0), 0)
  {
    hide Run;
    hide Ready;
    hide Bound;
    hide Mac;
    FreshNodeIsReady();
    AllSlotsFree();
    NoneBound(Mac(0));
    NoneBound(Mac(1));
    NoFileYet();
    schedule := TwoWorkersCollide(Job(NewRows(), Faultless(2), 2), FreshNode(), 0, 1, 0);
  }

  lemma NoFileYet()
    ensures NeedsProcessing(FreshNode().files, NewRow(0), 0, true)
  {
  }

  /**
   Two devices are without a name: after three faultless cycles, with any number of workers at once, nothing
   is left to do.
   */
  lemma {:induction false} FreshNodeSettles(history: seq<Round>)
    requires ValidHistory(history, NewRows()) && |history| >= 3 && FaultlessHistory(FreshNode(), NewRows(), history)
    ensures var m := AfterHistory(FreshNode(), NewRows(), history); Quiet(m, Fetch(NewRows(), m.stored))
  {
    hide Bound;
    hide Mac;
    hide Quiet;
    hide AfterHistory;
    hide ValidHistory;
    hide FaultlessHistory;
    hide Sound;
    FreshNodeIsSound();
    var open := set j: nat | j < 2 && !Bound(FreshNode().devices, NewRows()[j].mac);
    SubsetSize(open, Upto(2));
    ConcurrentCyclesSettle(FreshNode(), NewRows(), history);
  }

  /** The same node under Netplan, with an empty directory: the hypotheses of convergence hold there too. */
  lemma {:induction false} FreshNetplanNodeIsSound()
    ensures NetSound(NetplanNode(FreshNode().devices, map[], FreshNode().stored), NewRows())
  {
    hide GoodRow;
    hide Bound;
    hide FreeSlots;
    hide Mac;
    hide OneDevice;
    hide Coherent;
    hide UnboundFrom;
    hide IsValidMac;
    FreshNodeIsSound();
    MacIsValid(0);
    MacIsValid(1);
  }

  /** The node of a row that was configured under slot 0, after a reboot gave the devices their old names back. */
  function RebootedNode(): Node {
    FreshNode().(files := map[FileName(0) := IfcfgText(OldRow(), 0)], stored := map[0 := 1, 1 := 0])
  }

  function OldRow(): NetworkInterface {
    NewRow(0).(status := Configured)
  }

  lemma OldRowIsGood()
    ensures GoodRow(OldRow())
  {
    NewRowIsGood(0);
  }

  lemma RebootedNodeIsReady()
    ensures Ready(RebootedNode(), [OldRow(), NewRow(1)])
  {
    hide GoodRow;
    hide Bound;
    hide FreeSlots;
    hide Lower;
    hide Mac;
    hide IfcfgText;
    hide CoherentText;
    var n, rows := RebootedNode(), [OldRow(), NewRow(1)];
    OldRowIsGood();
    NewRowIsGood(1);
    MacsDiffer(0, 1);
    MacsDiffer(1, 0);
    MacsDiffer(0, 0);
    MacsDiffer(1, 1);
    AllSlotsFree();
    SubsetSize(UnboundFrom(n.devices, rows, 0), Upto(2));
    var files: map<string, string> := map[];
    CoherentWrite(files, OldRow(), 0);
    assert n.files == files[FileName(0) := IfcfgText(OldRow(), 0)];
  }

  /** On this ready node the new row takes over the old row's slot and file: a cycle does not converge. */
  lemma {:induction false} RebootedNodeLosesFile()
    ensures var rows := [OldRow(), NewRow(1)];
            var end := Reached(RebootedNode(), rows, 2);
            AtRisk(RebootedNode(), rows) && end.files == RebootedNode().files[FileName(0) := IfcfgText(NewRow(1), 0)] &&
            !Bound(end.devices, OldRow().mac)
  {
    hide Reached;
    hide Stolen;
    hide AtRisk;
    hide Ready;
    hide Bound;
    hide Mac;
    hide IfcfgText;
    RebootedNodeIsReady();
    LostExample(RebootedNode(), OldRow(), NewRow(1));
  }

  lemma LostExample(n: Node, a: NetworkInterface, b: NetworkInterface)
    requires n == RebootedNode() && a == OldRow() && b == NewRow(1) && Ready(n, [a, b])
    ensures var end := Reached(n, [a, b], 2);
            AtRisk(n, [a, b]) && end.files == n.files[FileName(0) := IfcfgText(b, 0)] && !Bound(end.devices, a.mac)
  {
    hide Reached;
    hide Stolen;
    hide AtRisk;
    hide Ready;
    hide Bound;
    hide Mac;
    hide IfcfgText;
    hide FileName;
    hide LowestFree;
    AllSlotsFree();
    NoneBound(a.mac);
    NoneBound(b.mac);
    LostSlotIsStolen(n, a, b, 0);
    StolenExactly(n, [a, b]);
  }

  // ---- a file that the two readers read differently -------------------------------------------

  /** The row is configured, its device has its name, and its file has another HWADDR line on top. */
  function DoubtfulNode(): Node {
    Node([Device(Name(0), Mac(0))], map[FileName(0) := WithAddress(OldRow(), 0, Mac(1))], map[0 := 1])
  }

  /** All that makes a node ready but the agreement of the readers holds there. */
  lemma DoubtfulNodeIsAlmostReady()
    ensures var n, rows := DoubtfulNode(), [OldRow()];
            UniqueNames(n.devices) && DistinctRows(rows) && !AtRisk(n, rows) &&
            (forall r :: r in rows ==>
               GoodRow(r) && OneDevice(n.devices, r.mac) && r.id in n.stored && r == Current(r, n.stored)) &&
            |UnboundFrom(n.devices, rows, 0)| <= |FreeSlots(n.devices)| && NameFor(n.devices, Mac(0), {}) == Some(0)
  {
    hide GoodRow;
    hide Mac;
    hide WithAddress;
    hide Exposed;
    hide FreeSlots;
    OldRowIsGood();
    MacsDiffer(0, 0);
    var n := DoubtfulNode();
    assert Carries(n.devices, Mac(0), {}, 0);
    assert UnboundFrom(n.devices, [OldRow()], 0) == {};
  }

  /**
   There a faultless cycle skips the row and deletes its file: the agreement of the readers is needed for
   convergence.
   */
  lemma {:induction false} DoubtfulNodeLosesFile()
    ensures var n, rows := DoubtfulNode(), [OldRow()];
            !Coherent(n.files) && Skips(n, OldRow()) && Orphan(n.files, {}, ActiveMacs(rows), FileName(0)) &&
            !Quiet(OneCycle(n, rows), rows)
  {
    hide GoodRow;
    hide Mac;
    hide WithAddress;
    hide IsValidMac;
    hide WorkerSpec;
    hide Skips;
    hide HwaddrOf;
    hide CoherentText;
    hide CleanedFiles;
    var n, row, rows := DoubtfulNode(), OldRow(), [OldRow()];
    DoubtfulNodeIsAlmostReady();
    OldRowIsGood();
    MacIsValid(1);
    OtherIsInactive();
    SkippedRowLosesFile(n, rows, row, 0, Mac(1));
    assert !CoherentText(n.files[FileName(0)]);
    OneRowPass(n, row);
    assert OneCycle(n, rows) == n.(files := CleanedFiles(n.files, {}, ActiveMacs(rows), {}));
    assert row in rows;
  }

  lemma OtherIsInactive()
    ensures Lower(Mac(1)) !in ActiveMacs([OldRow()])
  {
    hide Mac;
    MacsDiffer(0, 1);
  }

  lemma OneRowPass(n: Node, row: NetworkInterface)
    requires Skips(n, row) && row == Current(row, n.stored)
    ensures After(n, [row], Faultless(1), 1) == n
  {
    hide WorkerSpec;
    SkipKeeps(n, row, NO_FAULTS);
    assert After(n, [row], Faultless(1), 0) == n;
  }
}
