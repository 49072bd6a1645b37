/** Where the loop promises less: registrations after a refused ADD, and the wakeups a stop costs. */
module LoopLimits {
  import opened Common
  import opened Registration
  import opened LoopSafety
  import opened LoopSystem
  import opened LoopWakeups
  import opened LoopFairness
  import opened LoopClient

  /**
   When execute() returns at the stop entry, a watched source with work is looked at again exactly when
   its edge has yet to be reported or a drain on it is under way. All others lose their wakeup, whether
   their bit was behind the entry or before it with a positive result.
   */
  lemma {:induction false} StopCosts(steps: seq<Step>, src: Source)
    requires RunOk(INIT, steps) && Enabled(After(INIT, steps), ReachStop)
    requires var s := After(INIT, steps); Watched(s.reg, src) && Unread(s, src) > 0
    ensures var s := After(INIT, steps);
      Covered(Apply(s, ReachStop), src) <==> src in s.edges || exists id :: Draining(s, id, src)
  {
    ReturnCovers(After(INIT, steps), src);
  }

  /**
   In blameless runs the sources that lose it are exactly those that the batch still has a bit of, and
   neither a pending edge nor a drain makes up for; they are recorded.
   */
  lemma {:induction false} StopCostsLeftover(steps: seq<Step>, src: Source)
    requires RunOk(INIT, steps) && BlamelessRun(steps) && Enabled(After(INIT, steps), ReachStop)
    requires var s := After(INIT, steps); Watched(s.reg, src) && Unread(s, src) > 0
    ensures var s := After(INIT, steps);
      !Covered(Apply(s, ReachStop), src)
      <==> src in Leftover(s) && src !in s.edges && !(exists id :: Draining(s, id, src))
    ensures src in Leftover(After(INIT, steps)) ==> src in Apply(After(INIT, steps), ReachStop).forfeited
  {
    var s := After(INIT, steps);
    NothingForfeited(steps);
    ReturnCovers(s, src);
    if i :| Holds(s, i, src) {
      InLeftover(s, i, src.fd, src.dir);
    }
  }

  lemma ReturnCovers(s: State, src: Source)
    requires Enabled(s, ReachStop)
    ensures Covered(Apply(s, ReachStop), src) <==> src in s.edges || exists id :: Draining(s, id, src)
  {
    var t := Apply(s, ReachStop);
    forall id ensures Draining(t, id, src) <==> Draining(s, id, src) {}
    forall i ensures !Holds(t, i, src) {}
  }

  lemma RefusedStays(s: State, step: Step, fd: Fd)
    requires Safe(s) && Refused(s.reg, fd) && Enabled(s, step) && !(step.EraseHandler? && step.fd == fd)
    ensures Refused(Apply(s, step).reg, fd)
  {
    match step
    case AddHandler(g, d, h, spare, granted, _) => AddKeepsRefused(s.reg, g, d, h, spare, granted, fd);
    case EraseHandler(g, d) => EraseKeepsRefused(s.reg, g, d, fd);
    case _ =>
  }

  /** Once a descriptor is refused it stays so through any steps but an erasure of one of its own handlers. */
  lemma {:induction false} RefusedUntilErased(steps: seq<Step>, i: nat, fd: Fd)
    requires RunOk(INIT, steps) && i <= |steps|
    requires RunOk(INIT, steps[..i]) && Refused(After(INIT, steps[..i]).reg, fd)
    requires forall k :: i <= k < |steps| ==> !(steps[k].EraseHandler? && steps[k].fd == fd)
    ensures Refused(After(INIT, steps).reg, fd)
    decreases |steps|
  {
    if i == |steps| {
      assert steps[..i] == steps;
    } else {
      var last := |steps| - 1;
      assert steps[..last][..i] == steps[..i];
      RefusedUntilErased(steps[..last], i, fd);
      RunSafe(steps[..last]);
      RefusedStays(After(INIT, steps[..last]), steps[last], fd);
    }
  }

  /** And every add on it until then fails, whatever the kernel would grant. */
  lemma {:induction false} AddsFailUntilErased(steps: seq<Step>, i: nat, fd: Fd, d: Dir, h: Handler, spare: Addr,
                                               granted: bool, id: nat)
    requires RunOk(INIT, steps) && i <= |steps|
    requires RunOk(INIT, steps[..i]) && Refused(After(INIT, steps[..i]).reg, fd)
    requires forall k :: i <= k < |steps| ==> !(steps[k].EraseHandler? && steps[k].fd == fd)
    requires Enabled(After(INIT, steps), AddHandler(fd, d, h, spare, granted, id))
    ensures Add(After(INIT, steps).reg, fd, d, h, spare, granted).1 == -1
  {
    RefusedUntilErased(steps, i, fd);
    RunSafe(steps);
    AddKeepsRefused(After(INIT, steps).reg, fd, d, h, spare, granted, fd);
  }

  // ---------------------------------------------------------------------------------------------
  // Runs
  // ---------------------------------------------------------------------------------------------

  /** A refused ADD, and then an add on the same descriptor that fails although the kernel would grant it. */
  lemma RefusedAddRun(granted: bool)
    ensures var refused, again := AddHandler(5, In, 7, 1, false, 0), AddHandler(5, Out, 8, 2, granted, 0);
      && RunOk(INIT, [refused]) && Enabled(After(INIT, [refused]), again)
      && RunOk(INIT, [refused, again]) && Add(After(INIT, [refused]).reg, 5, Out, 8, 2, granted).1 == -1
      && Lookup(After(INIT, [refused, again]).reg, 5, In) == Some(7)
      && Lookup(After(INIT, [refused, again]).reg, 5, Out) == Some(8)
      && After(INIT, [refused, again]).reg.interest == map[]
  {
    var refused, again := AddHandler(5, In, 7, 1, false, 0), AddHandler(5, Out, 8, 2, granted, 0);
    assert RunOk(INIT, []);
    RunSnoc([], refused);
    assert [] + [refused] == [refused];
    RunSnoc([refused], again);
    assert [refused] + [again] == [refused, again];
  }

  const WORK := Source(5, In)
  const REPORT: seq<Report> := [StopReport, FdReport(5, {In})]
  const REG := Registry(map[5 := 1], map[1 := Node(5, map[In := 7])], map[5 := Interest({In}, 1)])

  const REGISTERED: seq<Step> := [AddHandler(5, In, 7, 1, true, 0), DrainReturn(0, 0)]
  const STOPPING: seq<Step> := REGISTERED + [Arrive(WORK, 1)] + [StopCall] + [Enter]
  const RESTARTED: seq<Step> := STOPPING + [Wait(REPORT)] + [ReachStop] + [Enter]

  lemma Registered()
    ensures RunOk(INIT, REGISTERED) && BlamelessRun(REGISTERED)
    ensures var s := After(INIT, REGISTERED);
      s.reg == REG && s.drains == map[] && s.edges == {} && s.pc == Idle && s.unread == map[] && !s.stopEdge
  {
    var add := AddHandler(5, In, 7, 1, true, 0);
    assert RunOk(INIT, []);
    RunSnoc([], add);
    assert [add] == [] + [add];
    RunSnoc([add], DrainReturn(0, 0));
    assert REGISTERED == [add] + [DrainReturn(0, 0)];
  }

  lemma Stopping()
    ensures RunOk(INIT, STOPPING) && BlamelessRun(STOPPING)
    ensures var s := After(INIT, STOPPING);
      && s.reg == REG && s.drains == map[] && s.edges == {WORK} && s.pc == Waiting && s.stopEdge
      && s.unread == map[WORK := 1]
  {
    Registered();
    RunSnoc(REGISTERED, Arrive(WORK, 1));
    RunSnoc(REGISTERED + [Arrive(WORK, 1)], StopCall);
    RunSnoc(REGISTERED + [Arrive(WORK, 1)] + [StopCall], Enter);
  }

  lemma ReportedBehind()
    ensures var steps := STOPPING + [Wait(REPORT)];
      && RunOk(INIT, steps)
      && var s := After(INIT, steps);
      && s.slots == [StopSlot, LoopSystem.Ready(1, {In})] && s.pc == At(0, In)
      && s.reg == REG && s.drains == map[] && s.edges == {} && s.unread == map[WORK := 1]
  {
    Stopping();
    assert LegalReport(After(INIT, STOPPING), REPORT);
    RunSnoc(STOPPING, Wait(REPORT));
    assert WORK.fd in Reported(REPORT) by { assert REPORT[1].FdReport?; }
  }

  /** A run in which that happens: execute() is called again and waits, with work that nothing will report. */
  lemma StopForfeits()
    ensures RunOk(INIT, RESTARTED)
    ensures var s := After(INIT, RESTARTED);
      && s.pc.Waiting? && Watched(s.reg, WORK) && Unread(s, WORK) == 1
      && !Covered(s, WORK) && WORK in s.forfeited
  {
    ReportedBehind();
    RunSnoc(STOPPING + [Wait(REPORT)], ReachStop);
    InLeftover(After(INIT, STOPPING + [Wait(REPORT)]), 1, 5, In);
    RunSnoc(STOPPING + [Wait(REPORT)] + [ReachStop], Enter);
  }
}
