/** The steps of the transition system as what they change, for the object that takes them. */
module LoopSteps {
  import opened Registration
  import opened LoopSystem

  ghost predicate SameState(s: State, t: State) {
    s == t
  }

  /** The quantifier keeps the definitions of the steps folded except where SameState is mentioned. */
  ghost predicate Leads(s: State, step: Step, t: State) {
    forall u :: SameState(u, s) ==> Enabled(u, step) && Apply(u, step) == t
  }

  lemma LeadsTo(s: State, step: Step, t: State)
    requires Leads(s, step, t)
    ensures Enabled(s, step) && Apply(s, step) == t
  {
    assert SameState(s, s);
  }

  // ---------------------------------------------------------------------------------------------
  // Bookkeeping
  // ---------------------------------------------------------------------------------------------

  /** What the two states differ in is bookkeeping. */
  ghost predicate SameButBookkeeping(s: State, t: State) {
    t == s.(forfeited := t.forfeited, tally := t.tally)
  }

  /** No branch reads the bookkeeping. */
  lemma BookkeepingIsUnread(s: State, t: State, step: Step)
    requires SameButBookkeeping(s, t)
    ensures Enabled(s, step) <==> Enabled(t, step)
  {}

  // ---------------------------------------------------------------------------------------------
  // Registration
  // ---------------------------------------------------------------------------------------------

  lemma AddLeads(s: State, t: State, fd: Fd, d: Dir, h: Handler, spare: Addr, granted: bool, id: nat)
    requires fd != INVALID_FD && spare !in s.reg.nodes && id !in s.drains
    requires fd in s.reg.index ==> s.reg.index[fd] in s.reg.nodes
    requires var (reg, ret) := Add(s.reg, fd, d, h, spare, granted);
      t == if ret == 0
           then s.(reg := reg, drains := s.drains[id := Drain(Source(fd, d), Unread(s, Source(fd, d)) == 0)],
                   forfeited := s.forfeited - {Source(fd, d)})
           else s.(reg := reg)
    ensures Leads(s, AddHandler(fd, d, h, spare, granted, id), t)
  {}

  lemma EraseLeads(s: State, t: State, fd: Fd, d: Dir)
    requires Has(s.reg, fd, d)
    requires var e := Erase(s.reg, fd, d);
      t == s.(reg := e.reg, slots := Mask(s.slots, e.ptr, e.removed), edges := s.edges - {Source(fd, d)},
              forfeited := s.forfeited - {Source(fd, d)}, tally := s.tally.(erased := true))
    ensures Leads(s, EraseHandler(fd, d), t)
  {}

  lemma StopLeads(s: State, t: State)
    requires t == s.(stopEdge := true, tally := s.tally.(stops := s.tally.stops + 1))
    ensures Leads(s, StopCall, t)
  {}

  lemma DrainLeads(s: State, t: State, id: nat, result: int)
    requires id in s.drains
    requires var Drain(src, drained) := s.drains[id];
      t == if result > 0 then s.(drains := s.drains[id := Drain(src, Unread(s, src) == 0)])
           else s.(drains := s.drains - {id}, forfeited := if drained then s.forfeited else s.forfeited + {src})
    ensures Leads(s, DrainReturn(id, result), t)
  {}

  // ---------------------------------------------------------------------------------------------
  // The rest of the system
  // ---------------------------------------------------------------------------------------------

  /** An arrival, a read or a close that can happen. */
  predicate Happens(s: State, step: Step) {
    match step
    case Close(_) => true
    case Arrive(_, k) => k > 0
    case Read(src, k) => k <= Unread(s, src)
    case _ => false
  }

  /** Where it leads to. */
  function Elsewhere(s: State, step: Step): State
    requires Happens(s, step)
  {
    match step
    case Close(fd) => Closed(s, fd)
    case Arrive(src, k) => Arrived(s, src, k)
    case Read(src, k) => HasRead(s, src, k)
  }

  lemma ElsewhereLeads(s: State, step: Step)
    requires Happens(s, step)
    ensures Leads(s, step, Elsewhere(s, step))
  {}

  /** The parts of a state that arrivals, reads and closes may change, taken from another state and the books. */
  function AdoptedBy(s: State, next: State, books: set<Source>): State {
    s.(reg := s.reg.(interest := next.reg.interest), unread := next.unread, edges := next.edges,
       drains := next.drains, forfeited := books, pc := next.pc)
  }

  /**
   `t` and `v` are where `s` and a state that differs in the books lead to: the same parts changed, and
   neither the batch, nor the node map, nor which drains there are, nor the position in the dispatch.
   */
  ghost predicate OnlyAdopted(s: State, t: State, v: State) {
    && v.drains.Keys == s.drains.Keys
    && (v.pc == s.pc || (s.pc.Calling? && v.pc == s.pc.(drained := true)))
    && t == AdoptedBy(s, v, t.forfeited)
  }

  lemma EmptiedFrame(s: State, u: State, src: Source)
    requires SameButBookkeeping(s, u)
    ensures OnlyAdopted(s, Emptied(s, src), Emptied(u, src))
    ensures SameButBookkeeping(Emptied(s, src), Emptied(u, src))
  {}

  lemma CloseFrame(s: State, u: State, fd: Fd)
    requires SameButBookkeeping(s, u)
    ensures OnlyAdopted(s, Closed(s, fd), Closed(u, fd))
  {
    EmptiedFrame(s, u, Source(fd, In));
    EmptiedFrame(Emptied(s, Source(fd, In)), Emptied(u, Source(fd, In)), Source(fd, Out));
  }

  lemma ArriveFrame(s: State, u: State, src: Source, k: nat)
    requires SameButBookkeeping(s, u)
    ensures OnlyAdopted(s, Arrived(s, src, k), Arrived(u, src, k))
  {}

  lemma ElsewhereFrame(s: State, u: State, step: Step)
    requires Happens(s, step) && SameButBookkeeping(s, u)
    ensures OnlyAdopted(s, Elsewhere(s, step), Elsewhere(u, step))
  {
    match step
    case Close(fd) => CloseFrame(s, u, fd);
    case Arrive(src, k) => ArriveFrame(s, u, src, k);
    case Read(src, k) => EmptiedFrame(s, u, src);
  }

  lemma ElsewhereAdopted(s: State, u: State, step: Step)
    requires Happens(s, step) && SameButBookkeeping(s, u)
    ensures var v := Elsewhere(u, step);
      && Leads(s, step, AdoptedBy(s, v, Elsewhere(s, step).forfeited))
      && v.drains.Keys == s.drains.Keys
      && (v.pc == s.pc || (s.pc.Calling? && v.pc == s.pc.(drained := true)))
  {
    ElsewhereLeads(s, step);
    ElsewhereFrame(s, u, step);
  }

  // ---------------------------------------------------------------------------------------------
  // The dispatching thread
  // ---------------------------------------------------------------------------------------------

  lemma EnterLeads(s: State, t: State)
    requires s.pc.Idle? && t == s.(pc := Waiting)
    ensures Leads(s, Enter, t)
  {}

  lemma WaitLeads(s: State, t: State, report: seq<Report>)
    requires s.pc.Waiting? && LegalReport(s, report) && t == NewBatch(s, report)
    ensures Leads(s, Wait(report), t)
  {}

  lemma WaitFailsLeads(s: State, t: State)
    requires s.pc.Waiting? && t == s.(slots := [], pc := Idle)
    ensures Leads(s, WaitFails, t)
  {}

  lemma InterruptedLeads(s: State, t: State)
    requires s.pc.Waiting?
    requires t == s.(slots := [], pc := At(0, In), left := 0,
                     tally := s.tally.(start := [], round := 0, positives := 0, calls := map[], more := map[],
                                       threw := false, erased := false))
    ensures Leads(s, Interrupted, t)
  {
    assert s.edges == (set src | src in s.edges && src.fd !in Reported([]));
    assert NewBatch(s, []).slots == [];
  }

  lemma SkipLeads(s: State, t: State, n: nat, d: Dir)
    requires s.pc == At(n, d) && n < |s.slots| && s.slots[n].Ready? && d !in s.slots[n].bits
    requires t == s.(pc := Next(n, d))
    ensures Leads(s, Skip, t)
  {}

  lemma CallLeads(s: State, t: State, n: nat, d: Dir)
    requires s.pc == At(n, d) && BitSet(s.slots, n, d)
    requires s.slots[n].ptr in s.reg.nodes && d in s.reg.nodes[s.slots[n].ptr].handlers
    requires var fd, k := s.reg.nodes[s.slots[n].ptr].fd, Rank(n, d);
      t == s.(pc := Calling(n, d, fd, Unread(s, Source(fd, d)) == 0),
              tally := s.tally.(calls := s.tally.calls[k := Count(s.tally.calls, k) + 1]))
    ensures Leads(s, Call, t)
  {}

  lemma ThrowLeads(s: State, t: State)
    requires s.pc.Calling? && t == s.(pc := Next(s.pc.n, s.pc.d), tally := s.tally.(threw := true))
    ensures Leads(s, Throw, t)
  {}

  lemma MoreLeads(s: State, t: State, result: int)
    requires s.pc.Calling? && s.pc.n < |s.slots| && s.slots[s.pc.n].Ready? && result > 0
    requires var k := Rank(s.pc.n, s.pc.d);
      t == s.(pc := Next(s.pc.n, s.pc.d), left := s.left + 1,
              tally := s.tally.(positives := s.tally.positives + 1,
                                more := s.tally.more[k := Count(s.tally.more, k) + 1]))
    ensures Leads(s, Finish(result), t)
  {}

  lemma DoneLeads(s: State, t: State, result: int)
    requires s.pc.Calling? && s.pc.n < |s.slots| && s.slots[s.pc.n].Ready? && result <= 0
    requires var Calling(n, d, fd, drained) := s.pc;
      t == s.(pc := Next(n, d), slots := s.slots[n := Ready(s.slots[n].ptr, s.slots[n].bits - {d})],
              forfeited := if drained || d !in s.slots[n].bits then s.forfeited else s.forfeited + {Source(fd, d)})
    ensures Leads(s, Finish(result), t)
  {}

  lemma RoundLeads(s: State, t: State)
    requires s.pc == At(|s.slots|, In)
    requires t == if s.left > 0 then s.(pc := At(0, In), left := 0, tally := s.tally.(round := s.tally.round + 1))
                  else s.(pc := Waiting, forfeited := s.forfeited + Leftover(s))
    ensures Leads(s, EndRound, t)
  {}

  lemma ReturnLeads(s: State, t: State, n: nat)
    requires s.pc == At(n, In) && n < |s.slots| && s.slots[n].StopSlot?
    requires t == s.(pc := Idle, forfeited := s.forfeited + Leftover(s),
                     tally := s.tally.(exits := s.tally.exits + 1))
    ensures Leads(s, ReachStop, t)
  {}
}
