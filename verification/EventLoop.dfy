/**
 The event loop as the program writes it: one object, its registration methods with the locked part
 and the drain that follows, and execute() with its nested dispatch loops.

 What callbacks, other threads and the kernel do comes from `script`, a finite sequence of steps. A
 method that runs out of script, or meets a step that cannot happen there, gives up with `live` false;
 every finite stretch of behaviour in which calls nest is some script. Drains of different threads that
 overlap without nesting are runs of the transition system, but not of this object. `trace` records the
 steps taken, and Valid() says that the object is in the state the transition system reaches by them.
 */
module EventLoopObject {
  import opened Common
  import opened Registration
  import opened LoopSystem
  import opened LoopSafety
  import opened LoopSteps

  ghost predicate Same(t: seq<Step>, u: seq<Step>) {
    t == u
  }

  /**
   `trace` leads to `s`, and the choices in it are the first `pos` of the script. The quantifier keeps
   the recursive definitions folded except where Same is mentioned.
   */
  ghost predicate IsRun(trace: seq<Step>, script: seq<Step>, pos: nat, s: State) {
    forall t :: Same(t, trace) ==>
      RunOk(INIT, t) && After(INIT, t) == s && pos <= |script| && Chosen(t) == script[..pos]
  }

  lemma RunReaches(trace: seq<Step>, script: seq<Step>, pos: nat, s: State)
    requires IsRun(trace, script, pos, s)
    ensures RunOk(INIT, trace) && After(INIT, trace) == s && pos <= |script| && Chosen(trace) == script[..pos]
  {
    assert Same(trace, trace);
  }

  lemma Extend(trace: seq<Step>, script: seq<Step>, pos: nat, s: State, step: Step, t: State)
    requires IsRun(trace, script, pos, s) && Leads(s, step, t)
    requires Choice(step) ==> pos < |script| && script[pos] == step
    ensures IsRun(trace + [step], script, pos + Charge(step), t)
  {
    RunReaches(trace, script, pos, s);
    LeadsTo(s, step, t);
    var longer := trace + [step];
    assert longer[..|longer| - 1] == trace;
  }

  /** A callback invocation is over when its own return comes up. */
  datatype Frame = Dispatched | Drained(id: nat)

  predicate Ends(frame: Frame, step: Step) {
    match frame
    case Dispatched => step.Finish? || step.Throw?
    case Drained(id) => step.DrainReturn? && step.id == id
  }

  /** Inside a call of the dispatcher exactly these steps lead out of it; in a drain, those that are the return of it. */
  lemma EndsTheCall(s: State, step: Step, id: nat)
    requires Enabled(s, step)
    ensures s.pc.Calling? ==> (Ends(Dispatched, step) <==> !Apply(s, step).pc.Calling?)
    ensures id in s.drains && id !in Apply(s, step).drains ==> Ends(Drained(id), step)
    ensures Ends(Drained(id), step) ==>
      step.DrainReturn? && (id in Apply(s, step).drains <==> step.result > 0)
  {}

  /** Steps that the program does not decide: it only finds out. */
  predicate Choice(step: Step) {
    || Anytime(step)
    || step.Wait? || step.Interrupted? || step.WaitFails?
    || step.Finish? || step.Throw? || step.DrainReturn?
  }

  function Chosen(trace: seq<Step>): seq<Step> {
    if trace == [] then []
    else
      var k := |trace| - 1;
      Chosen(trace[..k]) + if Choice(trace[k]) then [trace[k]] else []
  }

  function Charge(step: Step): nat {
    if Choice(step) then 1 else 0
  }

  ghost predicate SameShape(from: seq<Slot>, to: seq<Slot>) {
    |from| == |to| && forall i :: 0 <= i < |from| ==> (from[i].StopSlot? <==> to[i].StopSlot?)
  }

  class EventLoop {
    // m_eventInfos
    var index: map<Fd, Addr>
    var nodes: map<Addr, Node>
    // m_events and m_eventCount
    const events: array<Slot>
    var eventCount: int
    // the kernel
    var interest: map<Fd, Interest>
    var unread: map<Source, nat>
    var edges: set<Source>
    var stopEdge: bool
    // positions inside execute() and the drains of addEvent()
    var pc: Pc
    var eventsLeft: nat
    var drains: map<nat, Drain>
    // the bookkeeping of the system, and the callbacks in progress, the innermost last
    ghost var forfeited: set<Source>
    ghost var tally: Tally
    ghost var stack: seq<Frame>

    const script: seq<Step>
    var pos: nat
    ghost var trace: seq<Step>

    function Reg(): Registry
      reads this
    {
      Registry(index, nodes, interest)
    }

    predicate Shape()
      reads this
    {
      events.Length == MAXEVENTS && -1 <= eventCount <= MAXEVENTS && pos <= |script|
    }

    function Batch(): seq<Slot>
      requires Shape()
      reads this, events
    {
      if eventCount < 0 then [] else events[..eventCount]
    }

    ghost function Current(): State
      requires Shape()
      reads this, events
    {
      State(Reg(), unread, edges, stopEdge, Batch(), pc, eventsLeft, drains, forfeited, tally)
    }

    /** The same with nothing kept in the books, as the program sees it. */
    function Seen(): State
      requires Shape()
      reads this, events
    {
      State(Reg(), unread, edges, stopEdge, Batch(), pc, eventsLeft, drains, {}, INIT.tally)
    }

    ghost predicate Valid()
      reads this, events
    {
      Shape() && IsRun(trace, script, pos, Current())
    }

    constructor (script: seq<Step>)
      ensures Valid() && fresh(events)
      ensures trace == [] && this.script == script && pos == 0 && pc == Idle && stack == []
    {
      index, nodes, interest := map[], map[], map[];
      events := new Slot[MAXEVENTS](_ => StopSlot);
      eventCount := 0;
      unread, edges, stopEdge := map[], {}, false;
      pc, eventsLeft, drains := Idle, 0, map[];
      forfeited, tally, stack := {}, INIT.tally, [];
      this.script := script;
      pos := 0;
      trace := [];
      new;
      assert Current() == INIT;
    }

    /** The script says that this is what happens now. */
    predicate Upcoming(step: Step)
      reads this
    {
      pos < |script| && script[pos] == step
    }

    /**
     The choices this position admits: what may come at any time, the return of the innermost callback,
     and the end of epoll_wait when no callback is in progress.
     */
    ghost predicate Admits(step: Step)
      reads this
    {
      || Anytime(step)
      || (if stack != [] then Ends(stack[|stack| - 1], step)
          else pc.Waiting? && (step.Wait? || step.Interrupted? || step.WaitFails?))
    }

    /** Why a method gives up: the script is over, or its next step cannot happen, or not at this position. */
    ghost predicate Stuck()
      requires Shape()
      reads this, events
    {
      pos >= |script| || !Enabled(Current(), script[pos]) || !Admits(script[pos])
    }

    lemma Safely()
      requires Valid()
      ensures Safe(Current())
    {
      RunReaches(trace, script, pos, Current());
      RunSafe(trace);
    }

    /** A bit that is set belongs to a live node with a handler. */
    lemma LiveHandler(n: nat, d: Dir)
      requires Valid() && n < eventCount && events[n].Ready? && d in events[n].bits
      ensures events[n].ptr in nodes && d in nodes[events[n].ptr].handlers
    {
      Safely();
      var s := Current();
      assert BitSet(s.slots, n, d) && s.slots[n].bits <= HandlersAt(s.reg, s.slots[n].ptr);
    }

    /** Exactly this step was taken. */
    twostate predicate Took(step: Step)
      reads this, events
    {
      Valid() && trace == old(trace) + [step] && pos == old(pos) + Charge(step)
    }

    /** The fields moved by this step, which is not recorded yet. */
    twostate predicate Led(step: Step)
      reads this, events
    {
      old(Shape()) && Shape() && Leads(old(Current()), step, Current())
    }

    /** Record a step that the fields already reflect, and move on in the script if it was a choice. */
    method Record(ghost before: State, step: Step)
      requires Shape() && IsRun(trace, script, pos, before) && Leads(before, step, Current())
      requires Choice(step) ==> Upcoming(step)
      modifies this`trace, this`pos
      ensures Took(step)
    {
      Extend(trace, script, pos, before, step, Current());
      trace := trace + [step];
      pos := pos + Charge(step);
    }

    // -------------------------------------------------------------------------------------------
    // Registration
    // -------------------------------------------------------------------------------------------

    /** The handler map and epoll_ctl of addEvent (d == In) and addOutEvent (d == Out). */
    method Store(fd: Fd, d: Dir, h: Handler, spare: Addr, granted: bool) returns (ret: int)
      requires fd in index ==> index[fd] in nodes
      modifies this`index, this`nodes, this`interest
      ensures (Reg(), ret) == Add(old(Reg()), fd, d, h, spare, granted)
    {
      var add := false;
      var a := spare;
      var mask := {d};
      if fd !in index {
        nodes := nodes[a := Node(fd, map[d := h])];
        index := index[fd := a];
        add := true;
      } else {
        a := index[fd];
        nodes := nodes[a := Node(fd, nodes[a].handlers[d := h])];
        if Other(d) in nodes[a].handlers {
          mask := {d, Other(d)};
        }
      }
      if add {
        var (k, r) := EpollAdd(interest, fd, Interest(mask, a), granted);
        interest, ret := k, r;
      } else {
        var (k, r) := EpollMod(interest, fd, Interest(mask, a));
        interest, ret := k, r;
      }
    }

    /** The registration, and the drain it makes due. */
    method Enroll(fd: Fd, d: Dir, h: Handler, spare: Addr, granted: bool, id: nat) returns (ret: int)
      requires Shape() && fd != INVALID_FD && spare !in nodes && id !in drains
      requires fd in index ==> index[fd] in nodes
      modifies this`index, this`nodes, this`interest, this`drains, this`forfeited
      ensures Led(AddHandler(fd, d, h, spare, granted, id))
      ensures ret == Add(old(Reg()), fd, d, h, spare, granted).1
      ensures drains == if ret == 0 then old(drains)[id := Drain(Source(fd, d), Count(unread, Source(fd, d)) == 0)]
                        else old(drains)
    {
      ghost var before := Current();
      ret := Store(fd, d, h, spare, granted);
      if ret == 0 {
        drains := drains[id := Drain(Source(fd, d), Count(unread, Source(fd, d)) == 0)];
        forfeited := forfeited - {Source(fd, d)};
      }
      AddLeads(before, Current(), fd, d, h, spare, granted, id);
    }

    /** The part of addEvent and addOutEvent that holds the lock. */
    method Register(fd: Fd, d: Dir, h: Handler, spare: Addr, granted: bool, id: nat) returns (ret: int)
      requires Valid() && fd != INVALID_FD && spare !in nodes && id !in drains
      requires fd in index ==> index[fd] in nodes
      requires Upcoming(AddHandler(fd, d, h, spare, granted, id))
      modifies this`index, this`nodes, this`interest, this`drains, this`forfeited, this`trace, this`pos
      ensures Took(AddHandler(fd, d, h, spare, granted, id))
      ensures ret == Add(old(Reg()), fd, d, h, spare, granted).1
      ensures drains == if ret == 0 then old(drains)[id := Drain(Source(fd, d), Count(unread, Source(fd, d)) == 0)]
                        else old(drains)
    {
      ghost var before := Current();
      ret := Enroll(fd, d, h, spare, granted, id);
      Record(before, AddHandler(fd, d, h, spare, granted, id));
    }

    /** Turn the removed bits off in the batch entry that carries `ptr`; there is at most one. */
    method MaskEvents(ptr: Addr, removed: set<Dir>)
      requires Shape() && Distinct(Batch())
      modifies events
      ensures Batch() == Mask(old(Batch()), ptr, removed)
    {
      ghost var before := Batch();
      var i := 0;
      while i < eventCount
        invariant 0 <= i <= |before|
        invariant Batch() == before
        invariant forall j :: 0 <= j < i ==> !(before[j].Ready? && before[j].ptr == ptr)
      {
        if events[i].Ready? && events[i].ptr == ptr {
          MaskOnce(before, i, ptr, removed);
          events[i] := Ready(ptr, events[i].bits - removed);
          assert Batch() == before[i := Ready(ptr, before[i].bits - removed)];
          return;
        }
        i := i + 1;
      }
      assert Batch() == Mask(before, ptr, removed);
    }

    /** The handler map and epoll_ctl of eraseEvent and eraseOutEvent. */
    method Remove(fd: Fd, d: Dir) returns (ret: int, ptr: Addr, removed: set<Dir>)
      requires Has(Reg(), fd, d)
      modifies this`index, this`nodes, this`interest
      ensures Erasure(Reg(), ret, ptr, removed) == Erase(old(Reg()), fd, d)
    {
      ptr := index[fd];
      if Other(d) in nodes[ptr].handlers {
        removed := {d};
        nodes := nodes[ptr := Node(fd, nodes[ptr].handlers - {d})];
        var (k, r) := EpollMod(interest, fd, Interest({Other(d)}, ptr));
        interest, ret := k, r;
      } else {
        removed := {In, Out};
        var (k, r) := EpollDel(interest, fd);
        interest, ret := k, r;
        index := index - {fd};
        nodes := nodes - {ptr};
      }
    }

    /** The erasure, with its bits turned off in the batch. */
    method Withdraw(fd: Fd, d: Dir) returns (ret: int)
      requires Shape() && Distinct(Batch()) && Has(Reg(), fd, d)
      modifies this`index, this`nodes, this`interest, this`edges, this`forfeited, this`tally, events
      ensures Led(EraseHandler(fd, d)) && ret == Erase(old(Reg()), fd, d).ret
      ensures exists ptr, removed :: Batch() == Mask(old(Batch()), ptr, removed)
    {
      ghost var before := Current();
      var ptr, removed;
      ret, ptr, removed := Remove(fd, d);
      edges := edges - {Source(fd, d)};
      forfeited := forfeited - {Source(fd, d)};
      tally := tally.(erased := true);
      MaskEvents(ptr, removed);
      EraseLeads(before, Current(), fd, d);
    }

    /** eraseEvent and eraseOutEvent once the handler is known to be there. */
    method EraseRegistered(fd: Fd, d: Dir) returns (ret: int)
      requires Valid() && Has(Reg(), fd, d) && Upcoming(EraseHandler(fd, d))
      modifies this`index, this`nodes, this`interest, this`edges, this`forfeited, this`tally
      modifies this`trace, this`pos, events
      ensures Took(EraseHandler(fd, d))
      ensures ret == Erase(old(Reg()), fd, d).ret
      ensures exists ptr, removed :: Batch() == Mask(old(Batch()), ptr, removed)
    {
      Safely();
      ghost var before := Current();
      ret := Withdraw(fd, d);
      Record(before, EraseHandler(fd, d));
    }

    /** eraseEvent (d == In) and eraseOutEvent (d == Out). */
    method Unregister(fd: Fd, d: Dir) returns (ret: int)
      requires Valid() && (Has(Reg(), fd, d) ==> Upcoming(EraseHandler(fd, d)))
      modifies this`index, this`nodes, this`interest, this`edges, this`forfeited, this`tally
      modifies this`trace, this`pos, events
      ensures Valid() && SameShape(old(Batch()), Batch())
      ensures !old(Has(Reg(), fd, d)) ==> ret == -1 && trace == old(trace) && Current() == old(Current())
      ensures old(Has(Reg(), fd, d)) ==> Took(EraseHandler(fd, d)) && ret == Erase(old(Reg()), fd, d).ret
    {
      Safely();
      if fd !in index || d !in nodes[index[fd]].handlers {
        return -1;
      }
      ret := EraseRegistered(fd, d);
    }

    method Stop()
      requires Valid() && Upcoming(StopCall)
      modifies this`stopEdge, this`tally, this`trace, this`pos
      ensures Took(StopCall) && stopEdge
    {
      ghost var before := Current();
      stopEdge := true;
      tally := tally.(stops := tally.stops + 1);
      StopLeads(before, Current());
      Record(before, StopCall);
    }

    // -------------------------------------------------------------------------------------------
    // Callbacks
    // -------------------------------------------------------------------------------------------

    /** The fields take over what changed elsewhere. */
    method Adopt(next: State, ghost books: set<Source>, step: Step)
      requires Shape() && Leads(Current(), step, AdoptedBy(Current(), next, books))
      modifies this`interest, this`unread, this`edges, this`drains, this`forfeited, this`pc
      ensures Led(step) && pc == next.pc && drains == next.drains
    {
      ghost var before := Current();
      interest, unread, edges := next.reg.interest, next.unread, next.edges;
      drains, pc := next.drains, next.pc;
      forfeited := books;
      assert Current() == AdoptedBy(before, next, books);
    }

    /** The rest of the system moved: data arrived or was read, or a descriptor was closed. */
    method Outside(step: Step)
      requires Valid() && Upcoming(step) && Happens(Seen(), step)
      modifies this`interest, this`unread, this`edges, this`drains, this`forfeited, this`pc, this`trace, this`pos
      ensures Took(step)
      ensures pc == old(pc) || (old(pc).Calling? && pc == old(pc).(drained := true))
      ensures drains.Keys == old(drains).Keys
    {
      ghost var before := Current();
      ElsewhereAdopted(before, Seen(), step);
      Adopt(Elsewhere(Seen(), step), Elsewhere(before, step).forfeited, step);
      Record(before, step);
    }

    /** What a callback, or another thread meanwhile, cannot change: the position in the dispatch. */
    twostate predicate Holds(except: int := -1)
      reads this, events
    {
      && Valid() && old(Valid())
      && old(pos) <= pos && old(trace) <= trace
      && (pc == old(pc) || (old(pc).Calling? && pc == old(pc).(drained := true)))
      && eventCount == old(eventCount) && eventsLeft == old(eventsLeft)
      && (forall id :: id in old(drains) && id != except ==> id in drains)
      && SameShape(old(Batch()), Batch())
    }

    /** The next step of the script, if it is one of those that may come at any time. */
    method Happen() returns (live: bool)
      requires Valid() && pos < |script|
      requires Enabled(Current(), script[pos]) && Admits(script[pos]) ==> Anytime(script[pos])
      modifies this, events
      ensures Holds()
      ensures if live then old(pos) < pos && stack == old(stack) else Stuck()
      decreases |script| - pos, 2
    {
      var step := script[pos];
      BookkeepingIsUnread(Current(), Seen(), step);
      if !Enabled(Seen(), step) || !Anytime(step) {
        return false;
      }
      live := true;
      if step.AddHandler? {
        var ret;
        ret, live := AddEvent(step.fd, step.d, Some(step.h), step.spare, step.granted, step.id);
      } else if step.EraseHandler? {
        var ret := Unregister(step.fd, step.d);
      } else if step.StopCall? {
        Stop();
      } else {
        Outside(step);
      }
    }

    /** Run a callback until its return is the next step of the script. */
    method RunCallback(frame: Frame) returns (live: bool)
      requires Valid()
      modifies this, events
      ensures Holds()
      ensures if live then pos < |script| && Ends(frame, script[pos]) && stack == old(stack) else Stuck()
      decreases |script| - pos, 3
    {
      stack := stack + [frame];
      while pos < |script|
        invariant Holds() && stack == old(stack) + [frame]
        decreases |script| - pos
      {
        if Ends(frame, script[pos]) {
          stack := old(stack);
          return true;
        }
        live := Happen();
        if !live {
          return;
        }
      }
      live := false;
    }

    /** addEvent and addOutEvent: register, then call the handler until there is nothing left. */
    method AddEvent(fd: Fd, d: Dir, handler: Option<Handler>, spare: Addr, granted: bool, id: nat)
      returns (ret: int, live: bool)
      requires Valid() && spare !in nodes && id !in drains
      requires handler != None && fd != INVALID_FD ==> Upcoming(AddHandler(fd, d, handler.value, spare, granted, id))
      modifies this, events
      ensures Holds()
      ensures handler == None || fd == INVALID_FD ==> ret == -1 && live && trace == old(trace)
      ensures handler != None && fd != INVALID_FD ==>
        && old(Registration.Valid(Reg()))
        && ret == Add(old(Reg()), fd, d, handler.value, spare, granted).1 && old(pos) < pos
      ensures if live then id !in drains && stack == old(stack) else Stuck()
      decreases |script| - pos, 1
    {
      if handler == None || fd == INVALID_FD {
        return -1, true;
      }
      Safely();
      ret := Register(fd, d, handler.value, spare, granted, id);
      live := true;
      if ret == 0 {
        live := DrainHandler(id);
      }
    }

    /** There might have been work before the descriptor was added: call until a result is not positive. */
    method DrainHandler(id: nat) returns (live: bool)
      requires Valid() && id in drains
      modifies this, events
      ensures Holds(id)
      ensures if live then id !in drains && stack == old(stack) else Stuck()
      decreases |script| - pos, 4
    {
      while true
        invariant Holds(id) && id in drains && stack == old(stack)
        decreases |script| - pos
      {
        live := RunCallback(Drained(id));
        if !live {
          return;
        }
        var result := script[pos].result;
        HandlerReturned(id, result);
        if result <= 0 {
          return;
        }
      }
    }

    /** One turn of the do-while in addEvent and addOutEvent. */
    method HandlerReturned(id: nat, result: int)
      requires Valid() && id in drains && Upcoming(DrainReturn(id, result))
      modifies this`drains, this`forfeited, this`trace, this`pos
      ensures Took(DrainReturn(id, result))
      ensures drains.Keys == if result > 0 then old(drains).Keys else old(drains).Keys - {id}
    {
      ghost var before := Current();
      var Drain(src, drained) := drains[id];
      if result > 0 {
        drains := drains[id := Drain(src, Count(unread, src) == 0)];
      } else {
        drains := drains - {id};
        if !drained {
          forfeited := forfeited + {src};
        }
      }
      DrainLeads(before, Current(), id, result);
      Record(before, DrainReturn(id, result));
    }

    // -------------------------------------------------------------------------------------------
    // execute()
    // -------------------------------------------------------------------------------------------

    /** The kernel fills m_events. */
    method Fill(reg: Registry, report: seq<Report>)
      requires events.Length == MAXEVENTS && |report| <= MAXEVENTS
      modifies events
      ensures events[..|report|] == seq(|report|, i requires 0 <= i < |report| => SlotOf(reg, report[i]))
    {
      var i := 0;
      while i < |report|
        invariant 0 <= i <= |report|
        invariant forall j :: 0 <= j < i ==> events[j] == SlotOf(reg, report[j])
      {
        events[i] := SlotOf(reg, report[i]);
        i := i + 1;
      }
    }

    /** epoll_wait returned `report`. */
    method Receive(report: seq<Report>)
      requires Valid() && Upcoming(Wait(report)) && pc == Waiting && LegalReport(Seen(), report)
      modifies this`eventCount, this`eventsLeft, this`edges, this`stopEdge, this`pc, this`tally
      modifies this`trace, this`pos, events
      ensures Took(Wait(report))
      ensures pc == At(0, In) && eventsLeft == 0
    {
      ghost var before := Current();
      var next := NewBatch(Seen(), report);
      Fill(Reg(), report);
      eventCount := |report|;
      edges, stopEdge := next.edges, next.stopEdge;
      pc, eventsLeft := next.pc, next.left;
      tally := NewBatch(before, report).tally;
      assert Batch() == next.slots;
      WaitLeads(before, Current(), report);
      Record(before, Wait(report));
    }

    /**
     The call through pEventHandlers: the address is that of a live node whose handler of this
     direction is not null, or the two lookups would not verify.
     */
    method BeginCall(n: nat, d: Dir) returns (handler: Handler)
      requires Valid() && pc == At(n, d) && n < eventCount && events[n].Ready? && d in events[n].bits
      modifies this`pc, this`tally, this`trace, this`pos
      ensures Took(Call)
      ensures pc.Calling? && pc.n == n && pc.d == d
      ensures events[n].ptr in nodes && d in nodes[events[n].ptr].handlers
      ensures handler == nodes[events[n].ptr].handlers[d]
    {
      LiveHandler(n, d);
      ghost var before := Current();
      var fd := nodes[events[n].ptr].fd;
      handler := nodes[events[n].ptr].handlers[d];
      pc := Calling(n, d, fd, Count(unread, Source(fd, d)) == 0);
      tally := tally.(calls := tally.calls[Rank(n, d) := Count(tally.calls, Rank(n, d)) + 1]);
      CallLeads(before, Current(), n, d);
      Record(before, Call);
    }

    /** The exception caught, or the positive result counted. */
    method KeepBit(n: nat, d: Dir, last: Step)
      requires Shape() && pc.Calling? && pc.n == n && pc.d == d && n < eventCount && events[n].Ready?
      requires last.Throw? || (last.Finish? && last.result > 0)
      modifies this`pc, this`eventsLeft, this`tally
      ensures Led(last) && pc == Next(n, d)
      ensures eventsLeft == old(eventsLeft) + if last.Finish? then 1 else 0
    {
      ghost var before := Current();
      pc := Next(n, d);
      if last.Throw? {
        tally := tally.(threw := true);
        ThrowLeads(before, Current());
      } else {
        eventsLeft := eventsLeft + 1;
        tally := tally.(positives := tally.positives + 1,
                        more := tally.more[Rank(n, d) := Count(tally.more, Rank(n, d)) + 1]);
        MoreLeads(before, Current(), last.result);
      }
    }

    /** Done with this event. */
    method ClearBit(n: nat, d: Dir, result: int)
      requires Shape() && pc.Calling? && pc.n == n && pc.d == d && n < eventCount && events[n].Ready?
      requires result <= 0
      modifies this`pc, this`forfeited, events
      ensures Led(Finish(result)) && pc == Next(n, d)
      ensures Batch() == old(Batch())[n := Ready(old(events[n].ptr), old(events[n].bits) - {d})]
    {
      ghost var before := Current();
      var Calling(_, _, fd, drained) := pc;
      pc := Next(n, d);
      if !drained && d in events[n].bits {
        forfeited := forfeited + {Source(fd, d)};
      }
      events[n] := Ready(events[n].ptr, events[n].bits - {d});
      assert Batch() == before.slots[n := Ready(before.slots[n].ptr, before.slots[n].bits - {d})];
      DoneLeads(before, Current(), result);
    }

    /** The last step was the return of the call: a positive result counts, another clears the bit. */
    ghost predicate Returned(n: nat, d: Dir, before: nat)
      reads this, events
    {
      && n < events.Length && events[n].Ready? && trace != []
      && match trace[|trace| - 1]
         case Finish(result) =>
           if result > 0 then eventsLeft == before + 1 else eventsLeft == before && d !in events[n].bits
         case Throw => eventsLeft == before
         case _ => false
    }

    /** What follows the call, or its catch. */
    method EndCall(n: nat, d: Dir, last: Step)
      requires Valid() && pc.Calling? && pc.n == n && pc.d == d && n < eventCount && events[n].Ready?
      requires (last.Finish? || last.Throw?) && Upcoming(last)
      modifies this`pc, this`eventsLeft, this`forfeited, this`tally, this`trace, this`pos, events
      ensures Took(last) && pc == Next(n, d) && Returned(n, d, old(eventsLeft))
      ensures SameShape(old(Batch()), Batch())
      ensures last.Throw? || last.result > 0 ==> Batch() == old(Batch())
    {
      ghost var before := Current();
      if last.Finish? && last.result <= 0 {
        ClearBit(n, d, last.result);
      } else {
        KeepBit(n, d, last);
      }
      Record(before, last);
    }

    method SkipBit(n: nat, d: Dir)
      requires Valid() && pc == At(n, d) && n < eventCount && events[n].Ready? && d !in events[n].bits
      modifies this`pc, this`trace, this`pos
      ensures Took(Skip) && pc == Next(n, d)
    {
      ghost var before := Current();
      pc := Next(n, d);
      SkipLeads(before, Current(), n, d);
      Record(before, Skip);
    }

    /** The call for a bit that is set, with whatever it does, and what follows. */
    method CallHandler(n: nat, d: Dir) returns (live: bool)
      requires Valid() && pc == At(n, d) && n < eventCount && events[n].Ready? && d in events[n].bits
      modifies this, events
      ensures Valid() && old(pos) <= pos && old(trace) + [Call] <= trace
      ensures eventCount == old(eventCount) && SameShape(old(Batch()), Batch())
      ensures live ==> pc == Next(n, d) && stack == old(stack) && old(pos) < pos && Returned(n, d, old(eventsLeft))
      ensures live || Stuck()
    {
      var handler := BeginCall(n, d);
      live := RunCallback(Dispatched);
      if live {
        EndCall(n, d, script[pos]);
      }
    }

    /** The test of one bit of m_events[n], and the callback when it is set. */
    method TestBit(n: nat, d: Dir) returns (live: bool)
      requires Valid() && pc == At(n, d) && n < eventCount && events[n].Ready?
      modifies this, events
      ensures Valid() && old(pos) <= pos && old(trace) <= trace
      ensures eventCount == old(eventCount) && SameShape(old(Batch()), Batch())
      ensures live ==> pc == Next(n, d) && stack == old(stack)
      ensures d !in old(events[n].bits) ==> live && Took(Skip) && eventsLeft == old(eventsLeft)
      ensures d in old(events[n].bits) ==> old(trace) + [Call] <= trace
      ensures d in old(events[n].bits) && live ==> old(pos) < pos && Returned(n, d, old(eventsLeft))
      ensures live || Stuck()
    {
      if d !in events[n].bits {
        SkipBit(n, d);
        return true;
      }
      live := CallHandler(n, d);
    }

    /** The null pointer in m_events[n]: execute() returns 0. */
    method StopReached(n: nat)
      requires Valid() && pc == At(n, In) && n < eventCount && events[n].StopSlot?
      modifies this`pc, this`forfeited, this`tally, this`trace, this`pos
      ensures Took(ReachStop) && pc == Idle
    {
      ghost var before := Current();
      forfeited := forfeited + Leftover(Current());
      pc := Idle;
      tally := tally.(exits := tally.exits + 1);
      ReturnLeads(before, Current(), n);
      Record(before, ReachStop);
    }

    /** The end of the for loop: another round while (eventsLeft). */
    method FinishRound() returns (again: bool)
      requires Valid() && pc == At(|Batch()|, In)
      modifies this`pc, this`eventsLeft, this`forfeited, this`tally, this`trace, this`pos
      ensures Took(EndRound) && again == (old(eventsLeft) > 0)
      ensures if again then pc == At(0, In) && eventsLeft == 0 else pc == Waiting
    {
      ghost var before := Current();
      again := eventsLeft > 0;
      if again {
        pc, eventsLeft := At(0, In), 0;
        tally := tally.(round := tally.round + 1);
      } else {
        forfeited := forfeited + Leftover(Current());
        pc := Waiting;
      }
      RoundLeads(before, Current());
      Record(before, EndRound);
    }

    /** One entry of the batch, which is not the stop entry: the in-handler, then the out-handler. */
    method TestEntry(n: nat) returns (live: bool)
      requires Valid() && pc == At(n, In) && n < eventCount && events[n].Ready?
      modifies this, events
      ensures Valid() && old(pos) <= pos && old(trace) <= trace
      ensures eventCount == old(eventCount) && SameShape(old(Batch()), Batch())
      ensures live ==> pc == At(n + 1, In) && stack == old(stack)
      ensures live && eventsLeft > old(eventsLeft) ==> old(pos) < pos
      ensures live || Stuck()
    {
      live := TestBit(n, In);
      if live {
        live := TestBit(n, Out);
      }
    }

    /** The for loop over all entries, up to the stop entry. */
    method Round() returns (stopped: bool, live: bool)
      requires Valid() && pc == At(0, In) && eventsLeft == 0
      modifies this, events
      ensures Valid() && old(pos) <= pos && old(trace) <= trace
      ensures live ==> stack == old(stack)
      ensures live && stopped ==> pc == Idle && |trace| > 0 && trace[|trace| - 1] == ReachStop
      ensures live && !stopped ==> pc == At(|Batch()|, In) && (eventsLeft > 0 ==> old(pos) < pos)
      ensures live || Stuck()
    {
      var n := 0;
      while n < eventCount
        invariant Valid() && pc == At(n, In) && 0 <= n && n <= |Batch()|
        invariant stack == old(stack) && old(trace) <= trace && old(pos) <= pos
        invariant eventsLeft > 0 ==> old(pos) < pos
        decreases eventCount - n
      {
        if events[n].StopSlot? {
          StopReached(n);
          return true, true;
        }
        live := TestEntry(n);
        if !live {
          return false, false;
        }
        n := n + 1;
      }
      return false, true;
    }

    /** The batch: rounds until one has no positive result, or comes to the stop entry. */
    method Dispatch() returns (stopped: bool, live: bool)
      requires Valid() && pc == At(0, In) && eventsLeft == 0
      modifies this, events
      ensures Valid() && old(pos) <= pos && old(trace) <= trace
      ensures live ==> stack == old(stack)
      ensures live && stopped ==> pc == Idle && |trace| > 0 && trace[|trace| - 1] == ReachStop
      ensures live && !stopped ==> pc == Waiting
      ensures live || Stuck()
    {
      while true
        invariant Valid() && pc == At(0, In) && eventsLeft == 0 && stack == old(stack) && old(trace) <= trace
        invariant old(pos) <= pos
        decreases |script| - pos
      {
        stopped, live := Round();
        if stopped || !live {
          return;
        }
        var again := FinishRound();
        if !again {
          return;
        }
      }
    }

    /** epoll_wait returned -1, or was interrupted, which makes an empty batch. */
    method WaitFailed(interrupted: bool)
      requires Valid() && pc == Waiting && Upcoming(if interrupted then Interrupted else WaitFails)
      modifies this`eventCount, this`eventsLeft, this`pc, this`tally, this`trace, this`pos
      ensures Took(if interrupted then Interrupted else WaitFails)
      ensures eventCount == -1 && if interrupted then pc == At(0, In) && eventsLeft == 0 else pc == Idle
    {
      ghost var before := Current();
      eventCount := -1;
      if interrupted {
        pc, eventsLeft := At(0, In), 0;
        tally := tally.(start := [], round := 0, positives := 0, calls := map[], more := map[],
                        threw := false, erased := false);
        InterruptedLeads(before, Current());
      } else {
        pc := Idle;
        WaitFailsLeads(before, Current());
      }
      Record(before, if interrupted then Interrupted else WaitFails);
    }

    method EnterLoop()
      requires Valid() && pc == Idle
      modifies this`pc, this`trace, this`pos
      ensures Took(Enter) && pc == Waiting
    {
      ghost var before := Current();
      pc := Waiting;
      EnterLeads(before, Current());
      Record(before, Enter);
    }

    /** One step while epoll_wait blocks. `fetched` tells that it returned, and `failed` with an error. */
    method AwaitStep() returns (fetched: bool, failed: bool, live: bool)
      requires Valid() && pc == Waiting && pos < |script| && stack == []
      modifies this, events
      ensures Valid() && old(trace) <= trace
      ensures if live then old(pos) < pos && stack == [] else Stuck()
      ensures live && failed ==> pc == Idle && |trace| > 0 && trace[|trace| - 1] == WaitFails
      ensures live && !failed && fetched ==> pc == At(0, In) && eventsLeft == 0
      ensures live && !failed && !fetched ==> pc == Waiting
    {
      fetched, failed, live := false, false, true;
      BookkeepingIsUnread(Current(), Seen(), script[pos]);
      if script[pos].WaitFails? || script[pos].Interrupted? {
        fetched, failed := true, script[pos].WaitFails?;
        WaitFailed(!failed);
      } else if script[pos].Wait? && LegalReport(Seen(), script[pos].report) {
        Receive(script[pos].report);
        fetched := true;
      } else {
        live := Happen();
      }
    }

    /**
     execute(): the trace is a run of the transition system in which every choice is the script's, in
     order, up to the return or to where the script stops making sense.
     */
    method Execute() returns (ret: int, live: bool)
      requires Valid() && pc == Idle && stack == []
      modifies this, events
      ensures Valid() && old(trace) + [Enter] <= trace
      ensures live ==> pc == Idle && |trace| > 0 && stack == []
      ensures live ==> (ret == 0 && trace[|trace| - 1] == ReachStop) || (ret == -1 && trace[|trace| - 1] == WaitFails)
      ensures !live ==> Stuck()
    {
      EnterLoop();
      ret, live := -1, false;
      while pos < |script|
        invariant Valid() && pc == Waiting && stack == [] && old(trace) + [Enter] <= trace
        decreases |script| - pos
      {
        var fetched, failed;
        fetched, failed, live := AwaitStep();
        if failed || !live {
          return -1, live;
        }
        if fetched {
          var stopped;
          stopped, live := Dispatch();
          if stopped || !live {
            return 0, live;
          }
        }
      }
      live := false;
    }
  }
}
