/** No wakeup is lost under edge triggering, and exactly which branches may give one up. */
module LoopWakeups {
  import opened Registration
  import opened LoopSystem
  import opened LoopSafety

  /** Slot i will still lead to a call: its bit is set, and not just waiting to be cleared. */
  ghost predicate Holds(s: State, i: int, src: Source) {
    && Active(s.pc)
    && Carries(s, i, src)
    && !(s.pc.Calling? && s.pc.n == i && s.pc.d == src.dir && s.pc.drained)
  }

  ghost predicate Draining(s: State, id: nat, src: Source) {
    id in s.drains && s.drains[id] == Drain(src, false)
  }

  /** Somebody is bound to look at the source again. */
  ghost predicate Covered(s: State, src: Source) {
    || src in s.edges
    || (exists i :: Holds(s, i, src))
    || (exists id :: Draining(s, id, src))
  }

  ghost predicate NoLost(s: State) {
    forall src :: Watched(s.reg, src) && Unread(s, src) > 0 ==> Covered(s, src) || src in s.forfeited
  }

  /** Covered carries over when each of its three reasons does. */
  lemma StillCovered(s: State, t: State, src: Source)
    requires Covered(s, src)
    requires src in s.edges ==> src in t.edges || src in t.forfeited
    requires forall i :: Holds(s, i, src) ==> Holds(t, i, src) || src in t.edges || src in t.forfeited
    requires forall id :: Draining(s, id, src) ==> Draining(t, id, src) || src in t.forfeited
    ensures Covered(t, src) || src in t.forfeited
  {
    if src in s.edges {
    } else if i :| Holds(s, i, src) {
      assert Holds(t, i, src) || src in t.edges || src in t.forfeited;
    } else {
      var id :| Draining(s, id, src);
      assert Draining(t, id, src) || src in t.forfeited;
    }
  }

  lemma NewBatchCovers(s: State, report: seq<Report>)
    requires Safe(s) && NoLost(s) && s.pc.Waiting? && LegalReport(s, report)
    ensures NoLost(NewBatch(s, report))
  {
    var t := NewBatch(s, report);
    forall src | Watched(t.reg, src) && Unread(t, src) > 0 ensures Covered(t, src) || src in t.forfeited {
      if src in s.edges && src !in t.edges {
        var i :| 0 <= i < |report| && report[i].FdReport? && report[i].fd == src.fd;
        assert LegalEntry(s, report[i]);
        assert src.dir in {In, Out} by { match src.dir case In => case Out => }
        assert Source(src.fd, src.dir) == src;
        assert Holds(t, i, src);
      } else if src !in s.edges {
        assert !exists i :: Holds(s, i, src);
        StillCoveredUnlessForfeited(s, t, src);
      }
    }
  }

  lemma StillCoveredUnlessForfeited(s: State, t: State, src: Source)
    requires NoLost(s) && Watched(s.reg, src) && Unread(s, src) > 0
    requires src in s.forfeited ==> src in t.forfeited
    requires src in s.edges ==> src in t.edges || src in t.forfeited
    requires forall i :: Holds(s, i, src) ==> Holds(t, i, src) || src in t.edges || src in t.forfeited
    requires forall id :: Draining(s, id, src) ==> Draining(t, id, src) || src in t.forfeited
    ensures Covered(t, src) || src in t.forfeited
  {
    if Covered(s, src) {
      StillCovered(s, t, src);
    }
  }

  /** The registry may grow: only a newly watched source needs a reason, and its drain is one. */
  lemma GrowthCovers(s: State, t: State, added: Source)
    requires NoLost(s)
    requires t.slots == s.slots && t.pc == s.pc && t.edges == s.edges && t.unread == s.unread
    requires forall g :: g in s.reg.index ==> g in t.reg.index && t.reg.index[g] == s.reg.index[g]
    requires forall src :: Watched(t.reg, src) ==> Watched(s.reg, src) || src == added
    requires forall src :: src in s.forfeited && src != added ==> src in t.forfeited
    requires forall id, src :: Draining(s, id, src) ==> Draining(t, id, src)
    requires Watched(t.reg, added) && Unread(t, added) > 0 ==> Covered(t, added) || added in t.forfeited
    ensures NoLost(t)
  {
    forall src | Watched(t.reg, src) && Unread(t, src) > 0 ensures Covered(t, src) || src in t.forfeited {
      if src != added {
        forall i | Holds(s, i, src) ensures Holds(t, i, src) {
          assert Carries(s, i, src) && src.fd in s.reg.index;
        }
        StillCoveredUnlessForfeited(s, t, src);
      }
    }
  }

  /** A registration that succeeds starts a drain, which covers the source. */
  lemma AddedIsDraining(s: State, fd: Fd, d: Dir, h: Handler, spare: Addr, granted: bool, id: nat)
    requires Safe(s) && Enabled(s, AddHandler(fd, d, h, spare, granted, id))
    requires var t := Added(s, fd, d, h, spare, granted, id);
      Watched(t.reg, Source(fd, d)) && Unread(t, Source(fd, d)) > 0
    ensures Covered(Added(s, fd, d, h, spare, granted, id), Source(fd, d))
  {
    AddKeepsValid(s.reg, fd, d, h, spare, granted);
    var t := Added(s, fd, d, h, spare, granted, id);
    assert Draining(t, id, Source(fd, d));
  }

  lemma AddKeepsDrains(s: State, fd: Fd, d: Dir, h: Handler, spare: Addr, granted: bool, id: nat)
    requires Enabled(s, AddHandler(fd, d, h, spare, granted, id))
    ensures var t := Added(s, fd, d, h, spare, granted, id);
      && t.slots == s.slots && t.pc == s.pc && t.edges == s.edges && t.unread == s.unread
      && t.reg == Add(s.reg, fd, d, h, spare, granted).0
      && (forall src :: src in s.forfeited && src != Source(fd, d) ==> src in t.forfeited)
      && (forall k, src :: Draining(s, k, src) ==> Draining(t, k, src))
  {}

  lemma AddCovers(s: State, fd: Fd, d: Dir, h: Handler, spare: Addr, granted: bool, id: nat)
    requires Safe(s) && NoLost(s) && Enabled(s, AddHandler(fd, d, h, spare, granted, id))
    ensures NoLost(Added(s, fd, d, h, spare, granted, id))
  {
    var t := Added(s, fd, d, h, spare, granted, id);
    AddFrame(s.reg, fd, d, h, spare, granted);
    AddKeepsDrains(s, fd, d, h, spare, granted, id);
    if Watched(t.reg, Source(fd, d)) && Unread(t, Source(fd, d)) > 0 {
      AddedIsDraining(s, fd, d, h, spare, granted, id);
    }
    GrowthCovers(s, t, Source(fd, d));
  }

  lemma EraseCovers(s: State, fd: Fd, d: Dir)
    requires Safe(s) && NoLost(s) && Has(s.reg, fd, d)
    ensures NoLost(Erased(s, fd, d))
  {
    var t := Erased(s, fd, d);
    var e := Erase(s.reg, fd, d);
    EraseFrame(s.reg, fd, d);
    EraseKeepsValid(s.reg, fd, d);
    forall src | Watched(t.reg, src) && Unread(t, src) > 0 ensures Covered(t, src) || src in t.forfeited {
      assert src.fd == fd ==> e.removed == {d} && src.dir != d;
      forall i | Holds(s, i, src) ensures Holds(t, i, src) {
        assert src.fd != fd ==> s.slots[i].ptr != e.ptr;
      }
      StillCoveredUnlessForfeited(s, t, src);
    }
  }

  /** A source that is empty needs no cover, so marking the calls on it as drained costs nothing. */
  lemma EmptiedCovers(s: State, e: Source)
    requires Safe(s) && NoLost(s)
    ensures Safe(Emptied(s, e)) && NoLost(Emptied(s, e))
  {
    var t := Emptied(s, e);
    forall src | Watched(t.reg, src) && Unread(t, src) > 0 ensures Covered(t, src) || src in t.forfeited {
      assert src != e;
      forall i | Holds(s, i, src) ensures Holds(t, i, src) {
        if s.pc.Calling? && s.pc.n == i && s.pc.d == src.dir {
          assert s.reg.nodes[s.slots[i].ptr].fd == s.pc.fd == src.fd;
        }
      }
      StillCoveredUnlessForfeited(s, t, src);
    }
  }

  lemma CloseCovers(s: State, fd: Fd)
    requires Safe(s) && NoLost(s)
    ensures NoLost(Closed(s, fd))
  {
    EmptiedCovers(s, Source(fd, In));
    EmptiedCovers(Emptied(s, Source(fd, In)), Source(fd, Out));
    var u := Emptied(Emptied(s, Source(fd, In)), Source(fd, Out));
    var t := Closed(s, fd);
    forall src | Watched(t.reg, src) && Unread(t, src) > 0 ensures Covered(t, src) || src in t.forfeited {
      assert src.fd != fd;
      forall i | Holds(u, i, src) ensures Holds(t, i, src) {}
      forall k | Draining(u, k, src) ensures Draining(t, k, src) {}
      StillCoveredUnlessForfeited(u, t, src);
    }
  }

  /** Arrivals, and reads that leave something behind, only touch `unread`, `edges` and `forfeited`. */
  lemma ArriveCovers(s: State, e: Source, k: nat)
    requires Safe(s) && NoLost(s) && k > 0
    ensures NoLost(Arrived(s, e, k))
  {
    var t := Arrived(s, e, k);
    forall src | Watched(t.reg, src) && Unread(t, src) > 0 ensures Covered(t, src) || src in t.forfeited {
      if src != e {
        forall i | Holds(s, i, src) ensures Holds(t, i, src) {}
        forall j | Draining(s, j, src) ensures Draining(t, j, src) {}
        StillCoveredUnlessForfeited(s, t, src);
      }
    }
  }

  lemma ReadCovers(s: State, e: Source, k: nat)
    requires Safe(s) && NoLost(s) && k <= Unread(s, e)
    ensures NoLost(HasRead(s, e, k))
  {
    var t := HasRead(s, e, k);
    if k == Unread(s, e) {
      EmptiedCovers(s, e);
    } else {
      forall src | Watched(t.reg, src) && Unread(t, src) > 0 ensures Covered(t, src) || src in t.forfeited {
        forall i | Holds(s, i, src) ensures Holds(t, i, src) {}
        forall j | Draining(s, j, src) ensures Draining(t, j, src) {}
        StillCoveredUnlessForfeited(s, t, src);
      }
    }
  }

  lemma DrainReturnCovers(s: State, id: nat, result: int)
    requires NoLost(s) && id in s.drains
    ensures NoLost(DrainReturned(s, id, result))
  {
    var t := DrainReturned(s, id, result);
    forall src | Watched(t.reg, src) && Unread(t, src) > 0 ensures Covered(t, src) || src in t.forfeited {
      forall i | Holds(s, i, src) ensures Holds(t, i, src) {}
      forall j | Draining(s, j, src) ensures Draining(t, j, src) || src in t.forfeited {}
      StillCoveredUnlessForfeited(s, t, src);
    }
  }

  lemma FinishCovers(s: State, result: int)
    requires Safe(s) && NoLost(s) && Enabled(s, Finish(result))
    ensures NoLost(Finished(s, result))
  {
    var t := Finished(s, result);
    forall src | Watched(t.reg, src) && Unread(t, src) > 0 ensures Covered(t, src) || src in t.forfeited {
      forall i | Holds(s, i, src) ensures Holds(t, i, src) || src in t.forfeited {
        if i == s.pc.n && src.dir == s.pc.d && result <= 0 {
          assert s.reg.nodes[s.slots[i].ptr].fd == s.pc.fd == src.fd;
          assert src == Source(s.pc.fd, s.pc.d);
        }
      }
      forall j | Draining(s, j, src) ensures Draining(t, j, src) {}
      StillCoveredUnlessForfeited(s, t, src);
    }
  }

  lemma InLeftover(s: State, i: int, fd: Fd, d: Dir)
    requires Carries(s, i, Source(fd, d))
    ensures Source(fd, d) in Leftover(s)
  {
    match d case In => case Out =>
  }

  /** Leaving the batch forfeits what is left of it, and nothing else. */
  lemma LeaveCovers(s: State, t: State)
    requires Safe(s) && NoLost(s)
    requires t.reg == s.reg && t.unread == s.unread && t.edges == s.edges && t.drains == s.drains
    requires t.forfeited == s.forfeited + Leftover(s)
    ensures NoLost(t)
  {
    forall src | Watched(t.reg, src) && Unread(t, src) > 0 ensures Covered(t, src) || src in t.forfeited {
      forall i | Holds(s, i, src) ensures src in t.forfeited {
        InLeftover(s, i, src.fd, src.dir);
      }
      forall j | Draining(s, j, src) ensures Draining(t, j, src) {}
      StillCoveredUnlessForfeited(s, t, src);
    }
  }

  /** The remaining steps of the dispatcher move the program counter only. */
  lemma MoveCovers(s: State, t: State)
    requires Safe(s) && NoLost(s)
    requires t.reg == s.reg && t.unread == s.unread && t.edges == s.edges && t.drains == s.drains
    requires t.forfeited == s.forfeited && t.slots == s.slots
    requires Active(s.pc) ==> Active(t.pc)
    requires t.pc.Calling? && !s.pc.Calling? ==>
      BitSet(s.slots, t.pc.n, t.pc.d) && s.slots[t.pc.n].ptr in s.reg.nodes
      && t.pc.fd == s.reg.nodes[s.slots[t.pc.n].ptr].fd
      && (t.pc.drained ==> Unread(s, Source(t.pc.fd, t.pc.d)) == 0)
    requires t.pc.Calling? && s.pc.Calling? ==> t.pc == s.pc
    ensures NoLost(t)
  {
    forall src | Watched(t.reg, src) && Unread(t, src) > 0 ensures Covered(t, src) || src in t.forfeited {
      assert src.fd in s.reg.interest && src.fd in s.reg.index;
      assert s.reg.nodes[s.reg.index[src.fd]].fd == src.fd;
      assert t.pc.Calling? ==> Source(t.pc.fd, t.pc.d) == src || t.pc.fd != src.fd || t.pc.d != src.dir;
      forall i | Holds(s, i, src) ensures Holds(t, i, src) {}
      forall j | Draining(s, j, src) ensures Draining(t, j, src) {}
      StillCoveredUnlessForfeited(s, t, src);
    }
  }

  lemma StepCovers(s: State, step: Step)
    requires Safe(s) && NoLost(s) && Enabled(s, step)
    ensures NoLost(Apply(s, step))
  {
    match step
    case Wait(report) => NewBatchCovers(s, report);
    case Interrupted => NewBatchCovers(s, []);
    case WaitFails => LeaveQuietly(s, Apply(s, step));
    case Finish(result) => FinishCovers(s, result);
    case EndRound =>
      if s.left > 0 { MoveCovers(s, Apply(s, step)); } else { LeaveCovers(s, Apply(s, step)); }
    case ReachStop => LeaveCovers(s, Apply(s, step));
    case AddHandler(fd, d, h, spare, granted, id) => AddCovers(s, fd, d, h, spare, granted, id);
    case DrainReturn(id, result) => DrainReturnCovers(s, id, result);
    case EraseHandler(fd, d) => EraseCovers(s, fd, d);
    case Close(fd) => CloseCovers(s, fd);
    case Arrive(src, k) => ArriveCovers(s, src, k);
    case Read(src, k) => ReadCovers(s, src, k);
    case Enter => MoveCovers(s, Apply(s, step));
    case Skip => MoveCovers(s, Apply(s, step));
    case Call => MoveCovers(s, Apply(s, step));
    case Throw => MoveCovers(s, Apply(s, step));
    case StopCall => MoveCovers(s, Apply(s, step));
  }

  lemma LeaveQuietly(s: State, t: State)
    requires NoLost(s) && !Active(s.pc)
    requires t.reg == s.reg && t.unread == s.unread && t.edges == s.edges && t.drains == s.drains
    requires t.forfeited == s.forfeited
    ensures NoLost(t)
  {
    forall src | Watched(t.reg, src) && Unread(t, src) > 0 ensures Covered(t, src) || src in t.forfeited {
      forall j | Draining(s, j, src) ensures Draining(t, j, src) {}
      StillCoveredUnlessForfeited(s, t, src);
    }
  }

  /** No lost wakeup, in every state of every run, with the forfeited sources named. */
  lemma {:induction false} NoLostWakeup(steps: seq<Step>)
    requires RunOk(INIT, steps)
    ensures NoLost(After(INIT, steps))
    decreases |steps|
  {
    if steps != [] {
      var k := |steps| - 1;
      NoLostWakeup(steps[..k]);
      RunSafe(steps[..k]);
      StepCovers(After(INIT, steps[..k]), steps[k]);
    }
  }
}
