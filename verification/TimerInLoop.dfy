/** The timer in the event loop: its unread work is the number of expirations that the timerfd counts. */
module TimerInLoop {
  import opened Registration
  import LoopSystem
  import opened LoopWakeups
  import opened LoopFairness
  import opened LoopClient
  import opened TimerProtocol

  /** The timer as a client of the loop, and where its own protocol is. */
  datatype Timing = Timing(client: Client, timer: State)

  /** A step of the protocol that is not process() may come at any time, from callbacks too. */
  datatype Action =
    | Meanwhile(step: LoopSystem.Step)
    | Change(change: Step)
    | ReadTicks(who: Who)
    | ProcessReturns(who: Who)

  ghost predicate TimingOk(t: Timing) {
    && ClientOk(t.client)
    && (forall who :: who in t.client.results ==> t.client.results[who] == Outcome(0, false))
    && LoopSystem.Unread(Loop(t.client), t.client.src) == t.timer.ticks
  }

  /** process() reads the ticks and calls the function in place, in the dispatcher or in the constructor's drain. */
  ghost predicate CanAct(t: Timing, a: Action)
    requires TimingOk(t)
  {
    match a
    case Meanwhile(step) => CanMove(t.client, Elsewhere(step))
    case Change(change) => !change.Process? && Enabled(t.timer, change)
    case ReadTicks(who) =>
      InProgress(Loop(t.client), t.client.src, who) && who !in t.client.results && Enabled(t.timer, Process)
    case ProcessReturns(who) => CanMove(t.client, Return(who))
  }

  /** Setting the time of a timerfd, as set and cancel do, discards the ticks that were not read. */
  ghost function MoveOf(t: Timing, a: Action): Move
    requires TimingOk(t) && CanAct(t, a)
  {
    match a
    case Meanwhile(step) => Elsewhere(step)
    case Change(change) =>
      if change.Expire? then Produce(1) else Discard(t.timer.ticks - Apply(t.timer, change).ticks)
    case ReadTicks(who) => Consume(who, t.timer.ticks, Outcome(0, false))
    case ProcessReturns(who) => Return(who)
  }

  ghost function TimerAfter(t: Timing, a: Action): State {
    match a
    case Change(change) => Apply(t.timer, change)
    case ReadTicks(_) => Apply(t.timer, Process)
    case _ => t.timer
  }

  ghost function Acted(t: Timing, a: Action): Timing
    requires TimingOk(t) && CanAct(t, a)
  {
    Timing(Moved(t.client, MoveOf(t, a)), TimerAfter(t, a))
  }

  lemma TicksAfter(t: Timing, a: Action)
    requires TimingOk(t) && CanAct(t, a)
    ensures CanMove(t.client, MoveOf(t, a)) && TimerAfter(t, a).ticks == UnreadAfter(t.timer.ticks, MoveOf(t, a))
  {}

  lemma {:induction false} ActKeepsOk(t: Timing, a: Action)
    requires TimingOk(t) && CanAct(t, a)
    ensures CanMove(t.client, MoveOf(t, a)) && TimingOk(Acted(t, a))
  {
    TicksAfter(t, a);
    MoveCounts(t.client, MoveOf(t, a));
  }

  /** Nobody else forfeits a wakeup, and process() does not come to an empty function, whose call throws. */
  ghost predicate Calm(t: Timing, a: Action)
    requires TimingOk(t) && CanAct(t, a)
  {
    match a
    case Meanwhile(step) => Blameless(Loop(t.client), step)
    case ReadTicks(_) => t.timer.ticks == 0 || !t.timer.handler.Empty?
    case _ => true
  }

  lemma CalmActIsBlameless(t: Timing, a: Action)
    requires TimingOk(t) && CanAct(t, a) && Calm(t, a) && BlamelessRun(t.client.history)
    ensures TimingOk(Acted(t, a)) && BlamelessRun(Acted(t, a).client.history)
  {
    ActKeepsOk(t, a);
    FineMoveIsBlameless(t.client, MoveOf(t, a));
  }

  ghost predicate CalmRun(t: Timing, acts: seq<Action>)
    decreases |acts|
  {
    && TimingOk(t)
    && (acts == [] || (CanAct(t, acts[0]) && Calm(t, acts[0]) && CalmRun(Acted(t, acts[0]), acts[1..])))
  }

  ghost function AfterAll(t: Timing, acts: seq<Action>): Timing
    requires CalmRun(t, acts)
    decreases |acts|
  {
    if acts == [] then t else AfterAll(Acted(t, acts[0]), acts[1..])
  }

  /** The steps of the protocol among the actions. */
  function Changes(acts: seq<Action>): seq<Step> {
    if acts == [] then []
    else
      match acts[0]
      case Change(change) => [change] + Changes(acts[1..])
      case ReadTicks(_) => [Process] + Changes(acts[1..])
      case _ => Changes(acts[1..])
  }

  /** A new timer, created at any time of a blameless run. */
  ghost predicate Creates(history: seq<LoopSystem.Step>, src: Source) {
    && IsHistory(history) && BlamelessRun(history)
    && LoopSystem.Unread(LoopSystem.After(LoopSystem.INIT, history), src) == 0
  }

  /**
   Over every run of a timer in the loop, with sets and cancels from anywhere: it follows its protocol, and
   as long as expirations have not been read and it is registered, process() will be called again.
   */
  lemma {:induction false} ExpirationsAreCovered(t: Timing, acts: seq<Action>)
    requires CalmRun(t, acts) && BlamelessRun(t.client.history)
    ensures var e := AfterAll(t, acts);
      && TimingOk(e) && e.client.src == t.client.src && BlamelessRun(e.client.history)
      && RunOk(t.timer, Changes(acts)) && e.timer == After(t.timer, Changes(acts))
      && (Watched(Loop(e.client).reg, e.client.src) && e.timer.ticks > 0 ==> Covered(Loop(e.client), e.client.src))
    decreases |acts|
  {
    if acts == [] {
      if Watched(Loop(t.client).reg, t.client.src) && t.timer.ticks > 0 {
        WorkIsCovered(t.client);
      }
    } else {
      CalmActIsBlameless(t, acts[0]);
      ExpirationsAreCovered(Acted(t, acts[0]), acts[1..]);
      ChangesHead(t, acts);
    }
  }

  lemma ChangesHead(t: Timing, acts: seq<Action>)
    requires acts != [] && TimingOk(t) && CanAct(t, acts[0])
    requires RunOk(TimerAfter(t, acts[0]), Changes(acts[1..]))
    ensures RunOk(t.timer, Changes(acts))
    ensures After(t.timer, Changes(acts)) == After(TimerAfter(t, acts[0]), Changes(acts[1..]))
  {
    var rest := Changes(acts[1..]);
    match acts[0]
    case Change(change) => assert ([change] + rest)[1..] == rest;
    case ReadTicks(_) => assert ([Process] + rest)[1..] == rest;
    case _ =>
  }

  /**
   From its creation on: each function set sees what the protocol allows, and when the event loop is
   blocked with nothing to report and no drain runs, no expiration is waiting.
   */
  lemma {:induction false} TimerServed(history: seq<LoopSystem.Step>, src: Source, acts: seq<Action>, arming: nat)
    requires Creates(history, src) && CalmRun(Timing(Client(history, src, map[]), INIT), acts)
    ensures var e := AfterAll(Timing(Client(history, src, map[]), INIT), acts);
      && TimingOk(e)
      && FiresThenCancels(CallsOf(e.timer.calls, arming))
      && (arming in e.timer.oneShots ==> |CallsOf(e.timer.calls, arming)| <= 1)
      && (var s := Loop(e.client);
          s.pc.Waiting? && s.edges == {} && s.drains == map[] && Watched(s.reg, src) ==> e.timer.ticks == 0)
  {
    var t := Timing(Client(history, src, map[]), INIT);
    ExpirationsAreCovered(t, acts);
    CallbackTraces(Changes(acts), arming);
    var e := AfterAll(t, acts);
    var s := Loop(e.client);
    if s.pc.Waiting? && s.edges == {} && s.drains == map[] && Watched(s.reg, src) {
      BlockedMeansEmpty(e.client.history, src);
    }
  }

  lemma CreatedIsOk(history: seq<LoopSystem.Step>, src: Source)
    requires Creates(history, src)
    ensures TimingOk(Timing(Client(history, src, map[]), INIT))
  {}
}
