/** Only what epoll_wait reported is called, and in the order of the batch. */
module LoopReports {
  import opened Registration
  import opened LoopSystem
  import opened LoopSafety
  import opened LoopFairness

  /** The bits of a new batch are exactly the reported ones. */
  lemma NewBatchBits(s: State, report: seq<Report>, i: nat, d: Dir)
    requires Safe(s) && LegalReport(s, report) && i < |report|
    ensures BitSet(NewBatch(s, report).slots, i, d) <==> report[i].FdReport? && d in report[i].bits
    ensures (report[i].FdReport? ==>
      && NewBatch(s, report).slots[i].Ready?
      && NewBatch(s, report).slots[i].ptr in s.reg.nodes
      && s.reg.nodes[NewBatch(s, report).slots[i].ptr].fd == report[i].fd)
    ensures report[i].StopReport? ==> NewBatch(s, report).slots[i].StopSlot?
  {
    assert LegalEntry(s, report[i]);
  }

  predicate IsReported(report: seq<Report>, fd: Fd) {
    exists i :: 0 <= i < |report| && report[i].FdReport? && report[i].fd == fd
  }

  /** A report takes the edges of the descriptors in it, in both directions, and no other. */
  lemma EdgesTaken(s: State, report: seq<Report>, src: Source)
    ensures src in NewBatch(s, report).edges <==> src in s.edges && !IsReported(report, src.fd)
  {
    assert src.fd in Reported(report) <==> IsReported(report, src.fd);
  }

  /** What the last epoll_wait returned; an interrupted one returned nothing. */
  function LastReport(steps: seq<Step>): seq<Report> {
    if steps == [] then []
    else
      var k := |steps| - 1;
      match steps[k]
      case Wait(report) => report
      case Interrupted => []
      case _ => LastReport(steps[..k])
  }

  /** Each bit of the batch was reported, for the descriptor that the node belongs to now. */
  ghost predicate Backed(s: State, report: seq<Report>) {
    Active(s.pc) ==>
      && |s.slots| == |report|
      && (forall i: nat, d :: BitSet(s.slots, i, d) ==> BackedBit(s, report, i, d))
      && (forall i: nat :: i < |report| ==> (s.slots[i].StopSlot? <==> report[i].StopReport?))
  }

  ghost predicate BackedBit(s: State, report: seq<Report>, i: nat, d: Dir) {
    && i < |report| && report[i].FdReport? && d in report[i].bits
    && i < |s.slots| && s.slots[i].Ready? && s.slots[i].ptr in s.reg.nodes
    && s.reg.nodes[s.slots[i].ptr].fd == report[i].fd
  }

  lemma NewBatchBacked(s: State, report: seq<Report>)
    requires Safe(s) && LegalReport(s, report)
    ensures Backed(NewBatch(s, report), report)
  {
    var t := NewBatch(s, report);
    forall i: nat, d | BitSet(t.slots, i, d) ensures BackedBit(t, report, i, d) {
      NewBatchBits(s, report, i, d);
    }
    forall i: nat | i < |report| ensures t.slots[i].StopSlot? <==> report[i].StopReport? {
      NewBatchBits(s, report, i, In);
    }
  }

  /** Bits may go, and nodes that still have one stay with their descriptor. */
  lemma StillBacked(s: State, t: State, report: seq<Report>)
    requires Backed(s, report) && Shrinks(s.slots, t.slots) && (Active(t.pc) ==> Active(s.pc))
    requires forall i: nat, d :: BitSet(t.slots, i, d) ==>
      && t.slots[i].ptr == s.slots[i].ptr
      && (t.slots[i].ptr in s.reg.nodes ==>
            t.slots[i].ptr in t.reg.nodes && t.reg.nodes[t.slots[i].ptr].fd == s.reg.nodes[t.slots[i].ptr].fd)
    ensures Backed(t, report)
  {
    if Active(t.pc) {
      forall i: nat, d | BitSet(t.slots, i, d) ensures BackedBit(t, report, i, d) {
        assert BitSet(s.slots, i, d) && BackedBit(s, report, i, d);
      }
    }
  }

  lemma EraseBacked(s: State, report: seq<Report>, fd: Fd, d: Dir)
    requires Safe(s) && Backed(s, report) && Has(s.reg, fd, d)
    ensures Backed(Erased(s, fd, d), report)
  {
    var e := Erase(s.reg, fd, d);
    var t := Erased(s, fd, d);
    EraseFrame(s.reg, fd, d);
    MaskShrinks(s.slots, e.ptr, e.removed);
    forall i: nat, b | BitSet(t.slots, i, b)
      ensures t.slots[i].ptr == s.slots[i].ptr
      ensures (t.slots[i].ptr in s.reg.nodes ==>
        t.slots[i].ptr in t.reg.nodes && t.reg.nodes[t.slots[i].ptr].fd == s.reg.nodes[t.slots[i].ptr].fd)
    {
      match b case In => case Out =>
    }
    StillBacked(s, t, report);
  }

  lemma AddBacked(s: State, report: seq<Report>, step: Step)
    requires Safe(s) && Backed(s, report) && Enabled(s, step) && step.AddHandler?
    ensures Backed(Apply(s, step), report)
  {
    AddFrame(s.reg, step.fd, step.d, step.h, step.spare, step.granted);
    StillBacked(s, Apply(s, step), report);
  }

  lemma FinishBacked(s: State, report: seq<Report>, result: int)
    requires Backed(s, report) && Enabled(s, Finish(result))
    ensures Backed(Finished(s, result), report)
  {
    StillBacked(s, Finished(s, result), report);
  }

  lemma StepBacked(s: State, report: seq<Report>, step: Step)
    requires Safe(s) && Backed(s, report) && Enabled(s, step) && !step.Wait? && !step.Interrupted?
    ensures Backed(Apply(s, step), report)
  {
    var t := Apply(s, step);
    if step.EraseHandler? {
      EraseBacked(s, report, step.fd, step.d);
    } else if step.AddHandler? {
      AddBacked(s, report, step);
    } else if step.Finish? {
      FinishBacked(s, report, step.result);
    } else if Active(t.pc) {
      StillBacked(s, t, report);
    }
  }

  /** In every run the bits of the batch were reported by the last epoll_wait. */
  lemma {:induction false} RunBacked(steps: seq<Step>)
    requires RunOk(INIT, steps)
    ensures Backed(After(INIT, steps), LastReport(steps))
    decreases |steps|
  {
    if steps != [] {
      var k := |steps| - 1;
      var s := After(INIT, steps[..k]);
      RunBacked(steps[..k]);
      RunSafe(steps[..k]);
      match steps[k]
      case Wait(report) => NewBatchBacked(s, report);
      case Interrupted => NewBatchBacked(s, []);
      case _ => StepBacked(s, LastReport(steps[..k]), steps[k]);
    }
  }

  /**
   Whenever the dispatcher calls a function, the last epoll_wait has reported that direction of the
   descriptor it is registered for now.
   */
  lemma {:induction false} CallWasReported(steps: seq<Step>)
    requires RunOk(INIT, steps) && Enabled(After(INIT, steps), Call)
    ensures var s, report := After(INIT, steps), LastReport(steps);
      && s.pc.n < |report| && report[s.pc.n].FdReport? && s.pc.d in report[s.pc.n].bits
      && s.reg.nodes[s.slots[s.pc.n].ptr].fd == report[s.pc.n].fd
      && Apply(s, Call).pc.fd == report[s.pc.n].fd
  {
    RunBacked(steps);
    var s := After(INIT, steps);
    assert BackedBit(s, LastReport(steps), s.pc.n, s.pc.d);
  }

  /**
   The order of a round: during a call all bits still set of entries before, and the in-bit when the
   out-function is called, have had their call of this round; those behind have not.
   */
  lemma {:induction false} RoundOrder(steps: seq<Step>, i: nat, d: Dir)
    requires RunOk(INIT, steps) && After(INIT, steps).pc.Calling? && BitSet(After(INIT, steps).slots, i, d)
    ensures var s := After(INIT, steps);
      var called := i < s.pc.n || (i == s.pc.n && (d == s.pc.d || d == In));
      Count(s.tally.calls, Rank(i, d)) == s.tally.round + if called then 1 else 0
  {
    RunOrderly(steps);
  }

  // ---------------------------------------------------------------------------------------------
  // Edges that are reported
  // ---------------------------------------------------------------------------------------------

  /** Only edges of watched sources are left to report. */
  ghost predicate EdgesWatched(s: State) {
    forall src :: src in s.edges ==> Watched(s.reg, src)
  }

  lemma EraseEdgesWatched(s: State, fd: Fd, d: Dir)
    requires Safe(s) && EdgesWatched(s) && Has(s.reg, fd, d)
    ensures EdgesWatched(Erased(s, fd, d))
  {
    EraseFrame(s.reg, fd, d);
  }

  lemma CloseEdgesWatched(s: State, fd: Fd)
    requires EdgesWatched(s)
    ensures EdgesWatched(Closed(s, fd))
  {
    forall src | src in Closed(s, fd).edges ensures src.fd != fd {
      match src.dir case In => case Out =>
    }
  }

  lemma StepEdgesWatched(s: State, step: Step)
    requires Safe(s) && EdgesWatched(s) && Enabled(s, step)
    ensures EdgesWatched(Apply(s, step))
  {
    if step.EraseHandler? {
      EraseEdgesWatched(s, step.fd, step.d);
    } else if step.AddHandler? {
      AddFrame(s.reg, step.fd, step.d, step.h, step.spare, step.granted);
    } else if step.Close? {
      CloseEdgesWatched(s, step.fd);
    }
  }

  /** In every run; so that every edge left can be reported. */
  lemma {:induction false} RunEdgesWatched(steps: seq<Step>)
    requires RunOk(INIT, steps)
    ensures EdgesWatched(After(INIT, steps))
    decreases |steps|
  {
    if steps != [] {
      var k := |steps| - 1;
      RunEdgesWatched(steps[..k]);
      RunSafe(steps[..k]);
      StepEdgesWatched(After(INIT, steps[..k]), steps[k]);
    }
  }

  /** A report of one descriptor, with the bits that are due and this one. */
  function ReportOf(s: State, src: Source): Report {
    FdReport(src.fd, set d | d in {In, Out} && Watched(s.reg, Source(src.fd, d))
                             && (d == src.dir || (Source(src.fd, d) in s.edges && Unread(s, Source(src.fd, d)) > 0)))
  }

  /** The steps before the test of direction `d`, when the in-bit is set or not. */
  function Before(d: Dir, ran: bool): seq<Step> {
    if d == In then [] else if ran then [Call, Finish(0)] else [Skip]
  }

  /** epoll_wait reports the descriptor, and what comes before the test of this direction passes. */
  function UpTo(s: State, src: Source): seq<Step> {
    [Wait([ReportOf(s, src)])] + Before(src.dir, In in ReportOf(s, src).bits)
  }

  lemma {:induction false} RunOn(steps: seq<Step>, step: Step)
    requires RunOk(INIT, steps) && Enabled(After(INIT, steps), step)
    ensures RunOk(INIT, steps + [step]) && After(INIT, steps + [step]) == Apply(After(INIT, steps), step)
  {
    assert (steps + [step])[..|steps|] == steps;
  }

  lemma ReportIsLegal(s: State, src: Source)
    requires Safe(s) && EdgesWatched(s) && Watched(s.reg, src)
    ensures LegalReport(s, [ReportOf(s, src)]) && src.dir in ReportOf(s, src).bits
  {
    var e := ReportOf(s, src);
    forall d | d in e.bits ensures d in s.reg.interest[src.fd].mask {
      assert Watched(s.reg, Source(src.fd, d));
    }
    assert LegalEntry(s, e);
    match src.dir case In => case Out =>
  }

  lemma CanReport(s: State, src: Source)
    requires Safe(s) && EdgesWatched(s) && s.pc == Waiting && Watched(s.reg, src)
    ensures LegalReport(s, [ReportOf(s, src)])
    ensures var t := NewBatch(s, [ReportOf(s, src)]);
      && |t.slots| == 1 && t.slots[0].Ready? && src.dir in t.slots[0].bits
      && (In in t.slots[0].bits <==> In in ReportOf(s, src).bits)
      && t.slots[0].ptr in t.reg.nodes && t.reg.nodes[t.slots[0].ptr].fd == src.fd && t.pc == At(0, In)
  {
    ReportIsLegal(s, src);
    NewBatchBits(s, [ReportOf(s, src)], 0, src.dir);
    NewBatchBits(s, [ReportOf(s, src)], 0, In);
  }

  /** The two steps that may come before the out-bit is tested. */
  lemma AfterIn(s: State, ran: bool)
    requires Safe(s) && s.pc == At(0, In) && |s.slots| == 1 && BitSet(s.slots, 0, Out)
    requires s.slots[0].ptr in s.reg.nodes && (ran <==> BitSet(s.slots, 0, In))
    ensures ran ==> Enabled(s, Call) && Enabled(Apply(s, Call), Finish(0))
    ensures !ran ==> Enabled(s, Skip)
    ensures var t := if ran then Apply(Apply(s, Call), Finish(0)) else Apply(s, Skip);
      && t.pc == At(0, Out) && t.reg == s.reg && BitSet(t.slots, 0, Out) && t.slots[0].ptr == s.slots[0].ptr
  {
    if ran {
      assert s.slots[0].bits <= HandlersAt(s.reg, s.slots[0].ptr);
    }
  }

  lemma {:induction false} UpToTheTest(steps: seq<Step>, d: Dir, ran: bool)
    requires RunOk(INIT, steps)
    requires var s := After(INIT, steps);
      && s.pc == At(0, In) && |s.slots| == 1 && BitSet(s.slots, 0, d)
      && s.slots[0].ptr in s.reg.nodes && (ran <==> BitSet(s.slots, 0, In))
    ensures RunOk(INIT, steps + Before(d, ran))
    ensures var s, t := After(INIT, steps), After(INIT, steps + Before(d, ran));
      t.pc == At(0, d) && t.reg == s.reg && BitSet(t.slots, 0, d) && t.slots[0].ptr == s.slots[0].ptr
  {
    RunSafe(steps);
    if d == In {
      assert steps + Before(d, ran) == steps;
    } else {
      AfterIn(After(INIT, steps), ran);
      if ran {
        RunOn(steps, Call);
        RunOn(steps + [Call], Finish(0));
        assert steps + Before(d, ran) == steps + [Call] + [Finish(0)];
      } else {
        RunOn(steps, Skip);
      }
    }
  }

  /** Whatever has happened, a waiting loop may go on to call the function of any direction that is watched. */
  lemma {:induction false} WatchedCanBeCalled(steps: seq<Step>, src: Source)
    requires RunOk(INIT, steps) && After(INIT, steps).pc == Waiting && Watched(After(INIT, steps).reg, src)
    ensures var more := steps + UpTo(After(INIT, steps), src);
      && RunOk(INIT, more) && Enabled(After(INIT, more), Call)
      && After(INIT, more).pc == At(0, src.dir) && After(INIT, more).reg == After(INIT, steps).reg
      && Apply(After(INIT, more), Call).pc.fd == src.fd
  {
    var s := After(INIT, steps);
    RunSafe(steps);
    RunEdgesWatched(steps);
    CanReport(s, src);
    var wait, ran := Wait([ReportOf(s, src)]), In in ReportOf(s, src).bits;
    RunOn(steps, wait);
    UpToTheTest(steps + [wait], src.dir, ran);
    assert steps + UpTo(s, src) == steps + [wait] + Before(src.dir, ran);
    SafeDispatch(steps + UpTo(s, src));
  }

  // ---------------------------------------------------------------------------------------------
  // What a step changes at a source
  // ---------------------------------------------------------------------------------------------

  /** A source is watched from a successful add on, until it is erased or its descriptor closed. */
  lemma WatchedAfter(s: State, step: Step, src: Source)
    requires Safe(s) && Enabled(s, step)
    ensures Watched(Apply(s, step).reg, src) <==>
      match step
      case AddHandler(fd, d, h, spare, granted, _) =>
        Watched(s.reg, src) || (src == Source(fd, d) && Add(s.reg, fd, d, h, spare, granted).1 == 0)
      case EraseHandler(fd, d) => Watched(s.reg, src) && src != Source(fd, d)
      case Close(fd) => Watched(s.reg, src) && src.fd != fd
      case _ => Watched(s.reg, src)
  {
    match step
    case AddHandler(fd, d, h, spare, granted, _) => AddFrame(s.reg, fd, d, h, spare, granted);
    case EraseHandler(fd, d) => EraseFrame(s.reg, fd, d);
    case _ =>
  }

  /** Work comes and goes at its own source only. */
  lemma UnreadAfter(s: State, step: Step, src: Source)
    requires Enabled(s, step)
    ensures Unread(Apply(s, step), src) ==
      match step
      case Arrive(at, k) => Unread(s, src) + if src == at then k else 0
      case Read(at, k) => Unread(s, src) - if src == at then k else 0
      case Close(fd) => if src.fd == fd then 0 else Unread(s, src)
      case _ => Unread(s, src)
  {
    match src.dir case In => case Out =>
  }

  /** Only arrivals make edges, and only reports, erasures and closes take them. */
  lemma EdgesAfter(s: State, step: Step, src: Source)
    requires Enabled(s, step)
    ensures src in Apply(s, step).edges <==>
      match step
      case Arrive(at, _) => src in s.edges || (src == at && Watched(s.reg, src))
      case EraseHandler(fd, d) => src in s.edges && src != Source(fd, d)
      case Close(fd) => src in s.edges && src.fd != fd
      case Wait(report) => src in s.edges && !IsReported(report, src.fd)
      case _ => src in s.edges
  {
    match step
    case Wait(report) => EdgesTaken(s, report, src);
    case Interrupted => EdgesTaken(s, [], src);
    case _ => match src.dir case In => case Out =>
  }
}
