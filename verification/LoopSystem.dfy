/**
 The edge-triggered event loop as a transition system: what the dispatching thread, the callbacks it
 runs, other threads and the kernel can do, one atomic step at a time.

 Callback actions (add, erase, close, stop, reading, data arriving) may happen between any two steps,
 so every re-entrant call and every interleaving of the real program is one of the runs considered.
 */
module LoopSystem {
  import opened Registration

  const MAXEVENTS := 16

  /** An entry of m_events: the null pointer of the stop descriptor, or a node address and its bits. */
  datatype Slot = StopSlot | Ready(ptr: Addr, bits: set<Dir>)

  /** What epoll_wait reports for one descriptor. */
  datatype Report = StopReport | FdReport(fd: Fd, bits: set<Dir>)

  /**
   Where execute() is. `At(n, d)` is about to test bit `d` of m_events[n]; `Calling` is inside that
   callback, and `drained` tells whether its source was empty at some moment since the call began.
   */
  datatype Pc =
    | Idle
    | Waiting
    | At(n: nat, d: Dir)
    | Calling(n: nat, d: Dir, fd: Fd, drained: bool)

  /** The do-while of addEvent or addOutEvent that calls the handler until a result is not positive. */
  datatype Drain = Drain(src: Source, drained: bool)

  /**
   Bookkeeping that no branch of the program reads: stop() calls, exits of execute(), and for the
   current batch its original slots, rounds completed, positive results, and calls and positive
   results by rank.
   */
  datatype Tally = Tally(
    stops: nat, exits: nat,
    start: seq<Slot>, round: nat, positives: nat, calls: map<nat, nat>, more: map<nat, nat>,
    threw: bool, erased: bool)

  /**
   `unread` is the work each source holds, `edges` the edges the kernel has yet to report, `left` is
   eventsLeft, and `forfeited` collects the sources whose wakeup was given up, and by which branch.
   */
  datatype State = State(
    reg: Registry,
    unread: map<Source, nat>, edges: set<Source>, stopEdge: bool,
    slots: seq<Slot>, pc: Pc, left: nat,
    drains: map<nat, Drain>,
    forfeited: set<Source>,
    tally: Tally)

  // ---------------------------------------------------------------------------------------------
  // Observations
  // ---------------------------------------------------------------------------------------------

  function Count<K>(m: map<K, nat>, k: K): nat {
    if k in m then m[k] else 0
  }

  function Unread(s: State, src: Source): nat {
    Count(s.unread, src)
  }

  predicate Active(pc: Pc) {
    pc.At? || pc.Calling?
  }

  /** The two tests of a slot, numbered in dispatch order. */
  function Rank(n: nat, d: Dir): nat {
    2 * n + if d == In then 0 else 1
  }

  /** The ranks below this one have been called or skipped in the current round. */
  function Progress(pc: Pc): nat
    requires Active(pc)
  {
    if pc.Calling? then Rank(pc.n, pc.d) + 1 else Rank(pc.n, pc.d)
  }

  predicate BitSet(slots: seq<Slot>, i: int, d: Dir) {
    0 <= i < |slots| && slots[i].Ready? && d in slots[i].bits
  }

  /** Slot i carries the bit of `src`. */
  predicate Carries(s: State, i: int, src: Source) {
    BitSet(s.slots, i, src.dir) && src.fd in s.reg.index && s.slots[i].ptr == s.reg.index[src.fd]
  }

  /** The sources that still have a bit in the batch. */
  function Leftover(s: State): set<Source> {
    set fd, d |
      && fd in s.reg.index && d in {In, Out}
      && (exists i :: 0 <= i < |s.slots| && Carries(s, i, Source(fd, d)))
      :: Source(fd, d)
  }

  // ---------------------------------------------------------------------------------------------
  // Steps
  // ---------------------------------------------------------------------------------------------

  datatype Step =
    // the dispatching thread
    | Enter
    | Wait(report: seq<Report>)
    | Interrupted
    | WaitFails
    | Skip
    | Call
    | Finish(result: int)
    | Throw
    | EndRound
    | ReachStop
    // callbacks, other threads and the kernel
    | AddHandler(fd: Fd, d: Dir, h: Handler, spare: Addr, granted: bool, id: nat)
    | DrainReturn(id: nat, result: int)
    | EraseHandler(fd: Fd, d: Dir)
    | Close(fd: Fd)
    | Arrive(src: Source, k: nat)
    | Read(src: Source, k: nat)
    | StopCall

  /** Actions of callbacks, other threads and the kernel, which may come at any time. */
  predicate Anytime(step: Step) {
    step.AddHandler? || step.EraseHandler? || step.Close? || step.Arrive? || step.Read? || step.StopCall?
  }

  /** An epoll_wait result: distinct armed descriptors, and every due bit among those reported. */
  predicate LegalReport(s: State, report: seq<Report>) {
    && |report| <= MAXEVENTS
    && (forall i :: 0 <= i < |report| ==> LegalEntry(s, report[i]))
    && (forall i, j :: 0 <= i < j < |report| ==> !SameSource(report[i], report[j]))
  }

  predicate SameSource(p: Report, q: Report) {
    (p.StopReport? && q.StopReport?) || (p.FdReport? && q.FdReport? && p.fd == q.fd)
  }

  predicate LegalEntry(s: State, e: Report) {
    match e
    case StopReport => s.stopEdge
    case FdReport(fd, bits) =>
      && fd in s.reg.interest
      && bits <= s.reg.interest[fd].mask
      && (forall d :: d in {In, Out} && Source(fd, d) in s.edges && Unread(s, Source(fd, d)) > 0 ==> d in bits)
  }

  predicate Enabled(s: State, step: Step) {
    match step
    case Enter => s.pc.Idle?
    case Wait(report) => s.pc.Waiting? && LegalReport(s, report)
    case Interrupted => s.pc.Waiting?
    case WaitFails => s.pc.Waiting?
    case Skip => s.pc.At? && s.pc.n < |s.slots| && s.slots[s.pc.n].Ready? && s.pc.d !in s.slots[s.pc.n].bits
    case Call =>
      && s.pc.At? && BitSet(s.slots, s.pc.n, s.pc.d)
      && s.slots[s.pc.n].ptr in s.reg.nodes
      && s.pc.d in s.reg.nodes[s.slots[s.pc.n].ptr].handlers
    case Finish(_) => s.pc.Calling? && s.pc.n < |s.slots| && s.slots[s.pc.n].Ready?
    case Throw => s.pc.Calling?
    case EndRound => s.pc.At? && s.pc.n == |s.slots| && s.pc.d == In
    case ReachStop => s.pc.At? && s.pc.n < |s.slots| && s.pc.d == In && s.slots[s.pc.n].StopSlot?
    case AddHandler(fd, d, h, spare, granted, id) =>
      && fd != INVALID_FD && spare !in s.reg.nodes && id !in s.drains
      && (fd in s.reg.index ==> s.reg.index[fd] in s.reg.nodes)
    case DrainReturn(id, _) => id in s.drains
    case EraseHandler(fd, d) => Has(s.reg, fd, d)
    case Close(_) => true
    case Arrive(_, k) => k > 0
    case Read(src, k) => k <= Unread(s, src)
    case StopCall => true
  }

  function SlotOf(r: Registry, e: Report): Slot {
    if e.FdReport? && e.fd in r.interest then Ready(r.interest[e.fd].ptr, e.bits) else StopSlot
  }

  function Reported(report: seq<Report>): set<Fd> {
    set i | 0 <= i < |report| && report[i].FdReport? :: report[i].fd
  }

  function NewBatch(s: State, report: seq<Report>): State {
    var slots := seq(|report|, i requires 0 <= i < |report| => SlotOf(s.reg, report[i]));
    var fds := Reported(report);
    s.(slots := slots, pc := At(0, In), left := 0,
       edges := (set src | src in s.edges && src.fd !in fds),
       stopEdge := s.stopEdge && StopReport !in report,
       tally := s.tally.(start := slots, round := 0, positives := 0, calls := map[], more := map[],
                         threw := false, erased := false))
  }

  function Next(n: nat, d: Dir): Pc {
    if d == In then At(n, Out) else At(n + 1, In)
  }

  /** A callback returned: a positive result keeps the bit and counts, any other clears the bit. */
  function Finished(s: State, result: int): State
    requires Enabled(s, Finish(result))
  {
    var Calling(n, d, fd, drained) := s.pc;
    if result > 0 then
      s.(pc := Next(n, d), left := s.left + 1,
         tally := s.tally.(positives := s.tally.positives + 1,
                           more := s.tally.more[Rank(n, d) := Count(s.tally.more, Rank(n, d)) + 1]))
    else
      s.(pc := Next(n, d),
         slots := s.slots[n := Ready(s.slots[n].ptr, s.slots[n].bits - {d})],
         forfeited := if drained || d !in s.slots[n].bits then s.forfeited else s.forfeited + {Source(fd, d)})
  }

  function RoundEnded(s: State): State {
    if s.left > 0 then
      s.(pc := At(0, In), left := 0, tally := s.tally.(round := s.tally.round + 1))
    else
      s.(pc := Waiting, forfeited := s.forfeited + Leftover(s))
  }

  /** A successful registration starts a drain and with it settles whatever was forfeited before. */
  function Added(s: State, fd: Fd, d: Dir, h: Handler, spare: Addr, granted: bool, id: nat): State
    requires fd in s.reg.index ==> s.reg.index[fd] in s.reg.nodes
  {
    var (reg, ret) := Add(s.reg, fd, d, h, spare, granted);
    if ret == 0 then
      s.(reg := reg, drains := s.drains[id := Drain(Source(fd, d), Unread(s, Source(fd, d)) == 0)],
         forfeited := s.forfeited - {Source(fd, d)})
    else
      s.(reg := reg)
  }

  function DrainReturned(s: State, id: nat, result: int): State
    requires id in s.drains
  {
    var Drain(src, drained) := s.drains[id];
    if result > 0 then
      s.(drains := s.drains[id := Drain(src, Unread(s, src) == 0)])
    else
      s.(drains := s.drains - {id}, forfeited := if drained then s.forfeited else s.forfeited + {src})
  }

  function MaskSlot(slot: Slot, ptr: Addr, removed: set<Dir>): Slot {
    if slot.Ready? && slot.ptr == ptr then Ready(ptr, slot.bits - removed) else slot
  }

  /** Every slot that carries `ptr` loses the removed bits. */
  function Mask(slots: seq<Slot>, ptr: Addr, removed: set<Dir>): seq<Slot> {
    seq(|slots|, i requires 0 <= i < |slots| => MaskSlot(slots[i], ptr, removed))
  }

  function Erased(s: State, fd: Fd, d: Dir): State
    requires Has(s.reg, fd, d)
  {
    var e := Erase(s.reg, fd, d);
    s.(reg := e.reg, slots := Mask(s.slots, e.ptr, e.removed),
       edges := s.edges - {Source(fd, d)}, forfeited := s.forfeited - {Source(fd, d)},
       tally := s.tally.(erased := true))
  }

  /** The source was found or left empty: every call in progress on it has seen that. */
  function Emptied(s: State, src: Source): State {
    s.(unread := s.unread - {src},
       drains := map id | id in s.drains ::
         if s.drains[id].src == src then Drain(src, true) else s.drains[id],
       pc := if s.pc.Calling? && Source(s.pc.fd, s.pc.d) == src then s.pc.(drained := true) else s.pc)
  }

  function Closed(s: State, fd: Fd): State {
    var t := Emptied(Emptied(s, Source(fd, In)), Source(fd, Out));
    t.(reg := t.reg.(interest := t.reg.interest - {fd}),
       edges := t.edges - {Source(fd, In), Source(fd, Out)},
       forfeited := t.forfeited - {Source(fd, In), Source(fd, Out)})
  }

  function Arrived(s: State, src: Source, k: nat): State {
    var t := s.(unread := s.unread[src := Unread(s, src) + k]);
    if Watched(s.reg, src) then t.(edges := t.edges + {src}, forfeited := t.forfeited - {src}) else t
  }

  function HasRead(s: State, src: Source, k: nat): State
    requires k <= Unread(s, src)
  {
    if k == Unread(s, src) then Emptied(s, src) else s.(unread := s.unread[src := Unread(s, src) - k])
  }

  function Apply(s: State, step: Step): State
    requires Enabled(s, step)
  {
    match step
    case Enter => s.(pc := Waiting)
    case Wait(report) => NewBatch(s, report)
    case Interrupted => NewBatch(s, [])
    case WaitFails => s.(slots := [], pc := Idle)
    case Skip => s.(pc := Next(s.pc.n, s.pc.d))
    case Call =>
      var k := Rank(s.pc.n, s.pc.d);
      var fd := s.reg.nodes[s.slots[s.pc.n].ptr].fd;
      s.(pc := Calling(s.pc.n, s.pc.d, fd, Unread(s, Source(fd, s.pc.d)) == 0),
         tally := s.tally.(calls := s.tally.calls[k := Count(s.tally.calls, k) + 1]))
    case Finish(result) => Finished(s, result)
    case Throw => s.(pc := Next(s.pc.n, s.pc.d), tally := s.tally.(threw := true))
    case EndRound => RoundEnded(s)
    case ReachStop =>
      s.(pc := Idle, forfeited := s.forfeited + Leftover(s), tally := s.tally.(exits := s.tally.exits + 1))
    case AddHandler(fd, d, h, spare, granted, id) => Added(s, fd, d, h, spare, granted, id)
    case DrainReturn(id, result) => DrainReturned(s, id, result)
    case EraseHandler(fd, d) => Erased(s, fd, d)
    case Close(fd) => Closed(s, fd)
    case Arrive(src, k) => Arrived(s, src, k)
    case Read(src, k) => HasRead(s, src, k)
    case StopCall => s.(stopEdge := true, tally := s.tally.(stops := s.tally.stops + 1))
  }

  // ---------------------------------------------------------------------------------------------
  // Runs
  // ---------------------------------------------------------------------------------------------

  const INIT := State(Registry(map[], map[], map[]), map[], {}, false, [], Idle, 0, map[], {},
                      Tally(0, 0, [], 0, 0, map[], map[], false, false))

  predicate RunOk(s: State, steps: seq<Step>)
    decreases |steps|, 0
  {
    steps == [] ||
    (var k := |steps| - 1;
     RunOk(s, steps[..k]) && Enabled(After(s, steps[..k]), steps[k]))
  }

  function After(s: State, steps: seq<Step>): State
    requires RunOk(s, steps)
    decreases |steps|, 1
  {
    if steps == [] then s
    else
      var k := |steps| - 1;
      Apply(After(s, steps[..k]), steps[k])
  }
}
