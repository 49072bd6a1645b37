/** Fairness and length of a batch, stop accounting, and runs that forfeit no wakeup. */
module LoopFairness {
  import opened Registration
  import opened LoopSystem
  import opened LoopSafety
  import opened LoopWakeups

  ghost predicate HasStop(slots: seq<Slot>) {
    exists k :: 0 <= k < |slots| && slots[k].StopSlot?
  }

  /** Calls due by now to a test of rank k: one for every round in which its turn has come. */
  ghost function Due(s: State, k: nat): nat
    requires Active(s.pc)
  {
    s.tally.round + if k < Progress(s.pc) then 1 else 0
  }

  /** A bit still set was called in every turn it had; no bit was ever called more often than that. */
  ghost predicate Fair(s: State) {
    Active(s.pc) ==> forall i: nat, d :: i < |s.slots| ==>
      && Count(s.tally.calls, Rank(i, d)) <= Due(s, Rank(i, d))
      && (BitSet(s.slots, i, d) ==> Count(s.tally.calls, Rank(i, d)) == Due(s, Rank(i, d)))
  }

  /** Each round after the first was paid for by a positive result. */
  ghost predicate Paid(s: State) {
    Active(s.pc) ==> s.tally.round + (if s.left > 0 then 1 else 0) <= s.tally.positives
  }

  /** Without throws, a round without positive results has cleared every bit it has passed. */
  ghost predicate Served(s: State) {
    Active(s.pc) && !s.tally.threw && s.left == 0 ==>
      forall i: nat, d :: BitSet(s.slots, i, d) ==> Rank(s.pc.n, s.pc.d) <= Rank(i, d)
  }

  /**
   stop() calls cover the returns so far, the pending edge, and the stop entry of the batch, which no
   pass goes beyond.
   */
  ghost predicate StopsOk(s: State) {
    && s.tally.exits + (if s.stopEdge then 1 else 0) + (if Active(s.pc) && HasStop(s.slots) then 1 else 0)
         <= s.tally.stops
    && (Active(s.pc) ==> forall k :: 0 <= k < |s.slots| && s.slots[k].StopSlot? ==>
          s.tally.round == 0 && Progress(s.pc) <= 2 * k)
  }

  ghost predicate Orderly(s: State) {
    Fair(s) && Paid(s) && Served(s) && StopsOk(s)
  }

  // ---------------------------------------------------------------------------------------------
  // Every step keeps the order
  // ---------------------------------------------------------------------------------------------

  /** Bits may vanish between two states, and nothing else of the batch changes. */
  ghost predicate Shrinks(from: seq<Slot>, to: seq<Slot>) {
    && |from| == |to|
    && (forall i, d :: BitSet(to, i, d) ==> BitSet(from, i, d))
    && (forall i :: 0 <= i < |from| ==> (from[i].StopSlot? <==> to[i].StopSlot?))
  }

  lemma MaskShrinks(slots: seq<Slot>, ptr: Addr, removed: set<Dir>)
    ensures Shrinks(slots, Mask(slots, ptr, removed))
  {}

  /** Callback actions and other threads at most remove bits and mark the current call as drained. */
  ghost predicate Beside(s: State, t: State) {
    && Shrinks(s.slots, t.slots) && (t.tally.erased || t.slots == s.slots)
    && t.left == s.left
    && (t.pc == s.pc || (s.pc.Calling? && t.pc == s.pc.(drained := true)))
    && t.tally == s.tally.(erased := t.tally.erased, stops := t.tally.stops)
    && (s.tally.erased ==> t.tally.erased)
    && t.tally.stops - s.tally.stops >= (if t.stopEdge && !s.stopEdge then 1 else 0)
  }

  lemma EraseBeside(s: State, fd: Fd, d: Dir)
    requires Has(s.reg, fd, d)
    ensures Beside(s, Erased(s, fd, d))
  {
    var e := Erase(s.reg, fd, d);
    MaskShrinks(s.slots, e.ptr, e.removed);
  }

  lemma UntouchedBeside(s: State, t: State)
    requires t == s.(reg := t.reg, unread := t.unread, edges := t.edges, drains := t.drains,
                     forfeited := t.forfeited, pc := t.pc)
    requires t.pc == s.pc || (s.pc.Calling? && t.pc == s.pc.(drained := true))
    ensures Beside(s, t)
  {}

  lemma OutsideBeside(s: State, step: Step)
    requires Enabled(s, step) && (Anytime(step) || step.DrainReturn?)
    ensures Beside(s, Apply(s, step))
  {
    if step.EraseHandler? {
      EraseBeside(s, step.fd, step.d);
    } else if !step.StopCall? {
      UntouchedBeside(s, Apply(s, step));
    }
  }

  lemma OutsideOrderly(s: State, t: State)
    requires Orderly(s) && Beside(s, t)
    ensures Orderly(t)
  {}

  lemma NewBatchOrderly(s: State, report: seq<Report>)
    requires StopsOk(s) && s.pc.Waiting? && LegalReport(s, report)
    ensures Orderly(NewBatch(s, report))
  {
    var t := NewBatch(s, report);
    forall k | 0 <= k < |t.slots| && t.slots[k].StopSlot? ensures StopReport in report && s.stopEdge {
      assert LegalEntry(s, report[k]);
    }
    assert Served(t);
  }

  lemma MoveOrderly(s: State, step: Step)
    requires Orderly(s) && Enabled(s, step) && (step.Skip? || step.Call? || step.Throw?)
    ensures Orderly(Apply(s, step))
  {
    var t := Apply(s, step);
    forall i: nat, d | i < |t.slots|
      ensures Count(t.tally.calls, Rank(i, d)) <= Due(t, Rank(i, d))
      ensures BitSet(t.slots, i, d) ==> Count(t.tally.calls, Rank(i, d)) == Due(t, Rank(i, d))
    {
      assert Count(s.tally.calls, Rank(i, d)) <= Due(s, Rank(i, d));
      assert Rank(i, d) == Rank(s.pc.n, s.pc.d) ==> i == s.pc.n && d == s.pc.d;
    }
  }

  lemma FinishOrderly(s: State, result: int)
    requires Orderly(s) && Enabled(s, Finish(result))
    ensures Orderly(Finished(s, result))
  {
    var t := Finished(s, result);
    assert Shrinks(s.slots, t.slots);
    assert Progress(t.pc) == Progress(s.pc);
    assert Fair(t);
    if !t.tally.threw && t.left == 0 {
      forall i: nat, d | BitSet(t.slots, i, d) ensures Rank(t.pc.n, t.pc.d) <= Rank(i, d) {
        assert BitSet(s.slots, i, d);
      }
    }
  }

  lemma EndRoundOrderly(s: State)
    requires Orderly(s) && Enabled(s, EndRound)
    ensures Orderly(RoundEnded(s))
  {
    forall k | 0 <= k < |s.slots| ensures !s.slots[k].StopSlot? {}
    var t := RoundEnded(s);
    if s.left > 0 {
      forall i: nat, d | i < |t.slots|
        ensures Count(t.tally.calls, Rank(i, d)) <= Due(t, Rank(i, d))
        ensures BitSet(t.slots, i, d) ==> Count(t.tally.calls, Rank(i, d)) == Due(t, Rank(i, d))
      {
        assert Count(s.tally.calls, Rank(i, d)) <= Due(s, Rank(i, d));
      }
    }
  }

  /** The dispatching thread between two batches. */
  lemma BetweenOrderly(s: State, step: Step)
    requires Orderly(s) && Enabled(s, step) && (step.Enter? || step.WaitFails? || step.ReachStop?)
    ensures Orderly(Apply(s, step))
  {}

  lemma DispatcherOrderly(s: State, step: Step)
    requires Orderly(s) && Enabled(s, step) && !Anytime(step) && !step.DrainReturn?
    ensures Orderly(Apply(s, step))
  {
    match step
    case Wait(report) => NewBatchOrderly(s, report);
    case Interrupted => NewBatchOrderly(s, []);
    case Finish(result) => FinishOrderly(s, result);
    case EndRound => EndRoundOrderly(s);
    case Skip => MoveOrderly(s, step);
    case Call => MoveOrderly(s, step);
    case Throw => MoveOrderly(s, step);
    case Enter => BetweenOrderly(s, step);
    case WaitFails => BetweenOrderly(s, step);
    case ReachStop => BetweenOrderly(s, step);
  }

  lemma StepOrderly(s: State, step: Step)
    requires Orderly(s) && Enabled(s, step)
    ensures Orderly(Apply(s, step))
  {
    if Anytime(step) || step.DrainReturn? {
      OutsideBeside(s, step);
      OutsideOrderly(s, Apply(s, step));
    } else {
      DispatcherOrderly(s, step);
    }
  }

  lemma {:induction false} RunOrderly(steps: seq<Step>)
    requires RunOk(INIT, steps)
    ensures Orderly(After(INIT, steps))
    decreases |steps|
  {
    if steps != [] {
      var k := |steps| - 1;
      RunOrderly(steps[..k]);
      RunSafe(steps[..k]);
      StepOrderly(After(INIT, steps[..k]), steps[k]);
    }
  }

  // ---------------------------------------------------------------------------------------------
  // Fairness and termination of a batch
  // ---------------------------------------------------------------------------------------------

  /**
   At every point of every batch, two bits still set have call counts that differ by at most one.
   */
  lemma {:induction false} FairBatch(steps: seq<Step>, i: nat, d: Dir, j: nat, e: Dir)
    requires RunOk(INIT, steps)
    requires var s := After(INIT, steps); Active(s.pc) && BitSet(s.slots, i, d) && BitSet(s.slots, j, e)
    ensures var s := After(INIT, steps);
      -1 <= Count(s.tally.calls, Rank(i, d)) - Count(s.tally.calls, Rank(j, e)) <= 1
  {
    RunOrderly(steps);
  }

  /** Throws and erasures included, a batch takes at most one round more than it has positive results. */
  lemma RoundBound(steps: seq<Step>)
    requires RunOk(INIT, steps) && Active(After(INIT, steps).pc)
    ensures var s := After(INIT, steps); s.tally.round + 1 <= 1 + s.tally.positives
  {
    RunOrderly(steps);
  }

  /** Calls and positive results of a batch in which nothing was thrown or erased. */
  ghost predicate Exact(s: State) {
    Active(s.pc) && !s.tally.threw && !s.tally.erased ==>
      && |s.tally.start| == |s.slots|
      && (s.pc.Calling? ==> BitSet(s.slots, s.pc.n, s.pc.d))
      && (forall i: nat, d :: BitSet(s.slots, i, d) ==> BitSet(s.tally.start, i, d))
      && (forall i: nat, d :: BitSet(s.tally.start, i, d) ==> Tallied(s, i, d))
      && (s.left > 0 ==> exists i: nat, d :: BitSet(s.slots, i, d) && Rank(i, d) < Rank(s.pc.n, s.pc.d))
      && (s.tally.round > 0 ==> exists i: nat, d :: Reaches(s, i, d, s.tally.round))
  }

  ghost predicate Reaches(s: State, i: nat, d: Dir, n: nat) {
    BitSet(s.tally.start, i, d) && Count(s.tally.more, Rank(i, d)) >= n
  }

  /** While its bit is set all completed calls were positive; once cleared, all but the last. */
  ghost predicate Tallied(s: State, i: nat, d: Dir)
    requires Active(s.pc)
  {
    var k := Rank(i, d);
    var calls := Count(s.tally.calls, k);
    var more := Count(s.tally.more, k);
    if BitSet(s.slots, i, d)
    then calls == more + (if s.pc.Calling? && Rank(s.pc.n, s.pc.d) == k then 1 else 0)
    else calls == more + 1
  }

  lemma CallExact(s: State)
    requires Exact(s) && Enabled(s, Call)
    ensures Exact(Apply(s, Call))
  {
    var t := Apply(s, Call);
    if !s.tally.threw && !s.tally.erased {
      forall i: nat, d | BitSet(t.tally.start, i, d) ensures Tallied(t, i, d) {
        assert Tallied(s, i, d);
        assert Rank(i, d) == Rank(s.pc.n, s.pc.d) ==> i == s.pc.n && d == s.pc.d;
      }
      assert forall i: nat, d, n: nat :: Reaches(s, i, d, n) ==> Reaches(t, i, d, n);
    }
  }

  lemma SkipExact(s: State)
    requires Exact(s) && Enabled(s, Skip)
    ensures Exact(Apply(s, Skip))
  {
    var t := Apply(s, Skip);
    if !s.tally.threw && !s.tally.erased {
      forall i: nat, d | BitSet(t.tally.start, i, d) ensures Tallied(t, i, d) {
        assert Tallied(s, i, d);
      }
      assert forall i: nat, d, n: nat :: Reaches(s, i, d, n) ==> Reaches(t, i, d, n);
    }
  }

  lemma FinishTallied(s: State, result: int, i: nat, d: Dir)
    requires Exact(s) && Enabled(s, Finish(result)) && !s.tally.threw && !s.tally.erased
    requires BitSet(s.tally.start, i, d)
    ensures Tallied(Finished(s, result), i, d)
  {
    assert Tallied(s, i, d);
    if i == s.pc.n && d == s.pc.d {
      OwnTallied(s, result);
    } else {
      assert Rank(i, d) != Rank(s.pc.n, s.pc.d);
      OtherTallied(s, result, i, d);
    }
  }

  lemma OwnTallied(s: State, result: int)
    requires Enabled(s, Finish(result)) && BitSet(s.slots, s.pc.n, s.pc.d) && Tallied(s, s.pc.n, s.pc.d)
    ensures Tallied(Finished(s, result), s.pc.n, s.pc.d)
  {}

  lemma OtherTallied(s: State, result: int, i: nat, d: Dir)
    requires Enabled(s, Finish(result)) && Tallied(s, i, d) && Rank(i, d) != Rank(s.pc.n, s.pc.d)
    ensures Tallied(Finished(s, result), i, d)
  {}

  /** Some bit that is still set has been passed, if a result of this round was positive. */
  lemma FinishLeaves(s: State, result: int)
    requires Exact(s) && Enabled(s, Finish(result)) && !s.tally.threw && !s.tally.erased
    ensures var t := Finished(s, result);
      t.left > 0 ==> exists i: nat, d :: BitSet(t.slots, i, d) && Rank(i, d) < Rank(t.pc.n, t.pc.d)
  {
    var t := Finished(s, result);
    if result > 0 {
      assert BitSet(t.slots, s.pc.n, s.pc.d) && Rank(s.pc.n, s.pc.d) < Rank(t.pc.n, t.pc.d);
    } else if s.left > 0 {
      var i: nat, d :| BitSet(s.slots, i, d) && Rank(i, d) < Rank(s.pc.n, s.pc.d);
      assert BitSet(t.slots, i, d) && Rank(i, d) < Rank(t.pc.n, t.pc.d);
    }
  }

  lemma FinishExact(s: State, result: int)
    requires Exact(s) && Enabled(s, Finish(result))
    ensures Exact(Finished(s, result))
  {
    var t := Finished(s, result);
    if !s.tally.threw && !s.tally.erased {
      forall i: nat, d | BitSet(t.tally.start, i, d) ensures Tallied(t, i, d) {
        FinishTallied(s, result, i, d);
      }
      FinishLeaves(s, result);
      assert forall i: nat, d, n: nat :: Reaches(s, i, d, n) ==> Reaches(t, i, d, n);
    }
  }

  lemma EndRoundExact(s: State)
    requires Exact(s) && Orderly(s) && Enabled(s, EndRound)
    ensures Exact(RoundEnded(s))
  {
    var t := RoundEnded(s);
    if !s.tally.threw && !s.tally.erased && s.left > 0 {
      forall i: nat, d | BitSet(t.tally.start, i, d) ensures Tallied(t, i, d) {
        assert Tallied(s, i, d);
      }
      var i: nat, d :| BitSet(s.slots, i, d) && Rank(i, d) < Rank(s.pc.n, s.pc.d);
      assert BitSet(s.tally.start, i, d) && Tallied(s, i, d);
      assert Reaches(t, i, d, t.tally.round);
    }
  }

  lemma OutsideExact(s: State, t: State)
    requires Exact(s) && Beside(s, t)
    ensures Exact(t)
  {
    if Active(t.pc) && !t.tally.threw && !t.tally.erased {
      forall i: nat, d | BitSet(t.tally.start, i, d) ensures Tallied(t, i, d) {
        assert Tallied(s, i, d);
      }
      assert forall i: nat, d, n: nat :: Reaches(s, i, d, n) ==> Reaches(t, i, d, n);
    }
  }

  /** A new batch, and the steps after which the claim is empty. */
  lemma FreshExact(s: State, step: Step)
    requires Enabled(s, step)
    requires step.Wait? || step.Interrupted? || step.Throw? || step.Enter? || step.WaitFails? || step.ReachStop?
    ensures Exact(Apply(s, step))
  {}

  lemma StepExact(s: State, step: Step)
    requires Exact(s) && Orderly(s) && Enabled(s, step)
    ensures Exact(Apply(s, step))
  {
    if Anytime(step) || step.DrainReturn? {
      OutsideBeside(s, step);
      OutsideExact(s, Apply(s, step));
    } else if step.Skip? {
      SkipExact(s);
    } else if step.Call? {
      CallExact(s);
    } else if step.Finish? {
      FinishExact(s, step.result);
    } else if step.EndRound? {
      EndRoundExact(s);
    } else {
      FreshExact(s, step);
    }
  }

  lemma {:induction false} RunExact(steps: seq<Step>)
    requires RunOk(INIT, steps)
    ensures Exact(After(INIT, steps))
    decreases |steps|
  {
    if steps != [] {
      var k := |steps| - 1;
      RunExact(steps[..k]);
      RunOrderly(steps[..k]);
      StepExact(After(INIT, steps[..k]), steps[k]);
    }
  }

  lemma RoundClears(s: State)
    requires Served(s) && Enabled(s, EndRound) && s.left == 0 && !s.tally.threw
    ensures forall i: nat, d :: !BitSet(s.slots, i, d)
  {
    forall i: nat, d ensures !BitSet(s.slots, i, d) {
      if BitSet(s.slots, i, d) { assert false; }
    }
  }

  /**
   A batch without throws and erasures that leaves the do-while has cleared every bit; each bit had
   one call more than it had positive results; and the rounds number exactly one more than the
   largest number of positive results of a single bit.
   */
  lemma {:induction false} BatchLength(steps: seq<Step>)
    requires RunOk(INIT, steps)
    requires var s := After(INIT, steps);
      Enabled(s, EndRound) && s.left == 0 && !s.tally.threw && !s.tally.erased
    ensures var s := After(INIT, steps);
      var rounds := s.tally.round + 1;
      && (forall i: nat, d :: !BitSet(s.slots, i, d))
      && (forall i: nat, d :: BitSet(s.tally.start, i, d) ==>
            && Count(s.tally.calls, Rank(i, d)) == 1 + Count(s.tally.more, Rank(i, d))
            && 1 + Count(s.tally.more, Rank(i, d)) <= rounds)
      && ((exists i: nat, d :: BitSet(s.tally.start, i, d)) ==>
            exists i: nat, d :: BitSet(s.tally.start, i, d) && 1 + Count(s.tally.more, Rank(i, d)) == rounds)
  {
    RunOrderly(steps);
    RunExact(steps);
    var s := After(INIT, steps);
    RoundClears(s);
    forall i: nat, d | BitSet(s.tally.start, i, d)
      ensures Count(s.tally.calls, Rank(i, d)) == 1 + Count(s.tally.more, Rank(i, d))
      ensures 1 + Count(s.tally.more, Rank(i, d)) <= s.tally.round + 1
    {
      assert Tallied(s, i, d) && !BitSet(s.slots, i, d);
      assert Count(s.tally.calls, Rank(i, d)) <= Due(s, Rank(i, d));
    }
    if s.tally.round > 0 {
      var i: nat, d :| Reaches(s, i, d, s.tally.round);
      assert BitSet(s.tally.start, i, d) && 1 + Count(s.tally.more, Rank(i, d)) == s.tally.round + 1;
    }
  }

  // ---------------------------------------------------------------------------------------------
  // Stopping
  // ---------------------------------------------------------------------------------------------

  /** A batch with a stop entry is one partial pass: at most one call before the entry, none after it. */
  lemma {:induction false} PartialPass(steps: seq<Step>, k: nat, i: nat, d: Dir)
    requires RunOk(INIT, steps)
    requires var s := After(INIT, steps); Active(s.pc) && k < |s.slots| && s.slots[k].StopSlot? && i < |s.slots|
    ensures Count(After(INIT, steps).tally.calls, Rank(i, d)) <= if i < k then 1 else 0
  {
    RunOrderly(steps);
    var s := After(INIT, steps);
    assert Count(s.tally.calls, Rank(i, d)) <= Due(s, Rank(i, d));
  }

  /** execute() has returned 0 at most as often as stop() was called. */
  lemma ReturnsCovered(steps: seq<Step>)
    requires RunOk(INIT, steps)
    ensures After(INIT, steps).tally.exits <= After(INIT, steps).tally.stops
  {
    RunOrderly(steps);
  }

  ghost predicate StopPending(s: State) {
    s.stopEdge || (Active(s.pc) && HasStop(s.slots))
  }

  lemma StopStays(s: State, step: Step)
    requires Orderly(s) && Enabled(s, step) && StopPending(s) && !step.ReachStop?
    ensures StopPending(Apply(s, step))
  {
    var t := Apply(s, step);
    match step
    case Wait(report) =>
      if StopReport in report {
        var k :| 0 <= k < |report| && report[k] == StopReport;
        assert t.slots[k].StopSlot?;
      }
    case Finish(result) => SameStops(s.slots, t.slots);
    case EraseHandler(fd, d) =>
      var e := Erase(s.reg, fd, d);
      MaskShrinks(s.slots, e.ptr, e.removed);
      SameStops(s.slots, t.slots);
    case EndRound =>
      forall k | 0 <= k < |s.slots| ensures !s.slots[k].StopSlot? {}
    case _ =>
  }

  lemma SameStops(from: seq<Slot>, to: seq<Slot>)
    requires Shrinks(from, to)
    ensures HasStop(from) ==> HasStop(to)
  {
    if k :| 0 <= k < |from| && from[k].StopSlot? {
      assert to[k].StopSlot?;
    }
  }

  /** A stop is not forgotten, even one issued before execute(): it stays pending until it is served. */
  lemma {:induction false} StopRemembered(steps: seq<Step>, i: nat)
    requires RunOk(INIT, steps) && i <= |steps|
    requires RunOk(INIT, steps[..i]) && StopPending(After(INIT, steps[..i]))
    requires forall k :: i <= k < |steps| ==> !steps[k].ReachStop?
    ensures StopPending(After(INIT, steps))
    decreases |steps|
  {
    if i == |steps| {
      assert steps[..i] == steps;
    } else {
      var k := |steps| - 1;
      assert steps[..k][..i] == steps[..i];
      StopRemembered(steps[..k], i);
      RunOrderly(steps[..k]);
      StopStays(After(INIT, steps[..k]), steps[k]);
    }
  }

  // ---------------------------------------------------------------------------------------------
  // Runs that forfeit nothing
  // ---------------------------------------------------------------------------------------------

  /**
   The four ways to give up a wakeup: a callback throws; a callback, in a batch or in a drain, returns
   a result that is not positive although its source never was empty during the call; or execute()
   returns at the stop entry with bits left.
   */
  ghost predicate Blameless(s: State, step: Step) {
    match step
    case Throw => false
    case Finish(result) => result > 0 || (s.pc.Calling? && s.pc.drained)
    case DrainReturn(id, result) => result > 0 || (id in s.drains && s.drains[id].drained)
    case ReachStop => Leftover(s) == {}
    case _ => true
  }

  ghost predicate BlamelessRun(steps: seq<Step>)
    requires RunOk(INIT, steps)
    decreases |steps|
  {
    steps == [] ||
    (var k := |steps| - 1;
     BlamelessRun(steps[..k]) && Blameless(After(INIT, steps[..k]), steps[k]))
  }

  lemma BlamelessStep(s: State, step: Step)
    requires Safe(s) && Orderly(s) && Enabled(s, step) && Blameless(s, step)
    requires s.forfeited == {} && !s.tally.threw
    ensures Apply(s, step).forfeited == {} && !Apply(s, step).tally.threw
  {
    if step.EndRound? && s.left == 0 {
      RoundClears(s);
      assert forall i: nat, src :: Carries(s, i, src) ==> BitSet(s.slots, i, src.dir);
      assert Leftover(s) == {};
    }
  }

  /**
   No lost wakeup, unconditionally, in runs without those four: a watched source with unread work
   has its edge pending, its bit in the batch, or a drain on it under way.
   */
  lemma {:induction false} NothingForfeited(steps: seq<Step>)
    requires RunOk(INIT, steps) && BlamelessRun(steps)
    ensures var s := After(INIT, steps);
      && s.forfeited == {} && !s.tally.threw
      && (forall src :: Watched(s.reg, src) && Unread(s, src) > 0 ==> Covered(s, src))
    decreases |steps|
  {
    NoLostWakeup(steps);
    if steps != [] {
      var k := |steps| - 1;
      NothingForfeited(steps[..k]);
      RunSafe(steps[..k]);
      RunOrderly(steps[..k]);
      BlamelessStep(After(INIT, steps[..k]), steps[k]);
    }
  }

  /** When the loop is blocked with no edge to report and no drain runs, no watched source holds work. */
  lemma BlockedMeansEmpty(steps: seq<Step>, src: Source)
    requires RunOk(INIT, steps) && BlamelessRun(steps)
    requires var s := After(INIT, steps);
      && s.pc.Waiting? && s.edges == {} && s.drains == map[] && Watched(s.reg, src)
    ensures Unread(After(INIT, steps), src) == 0
  {
    NothingForfeited(steps);
  }
}
