/**
 A source whose handler is known: what it produces, what calls of the handler consume, and when they
 return. A client's run is a run of the event loop in which nobody else touches that source.
 */
module LoopClient {
  import opened Registration
  import opened LoopSystem
  import opened LoopWakeups
  import opened LoopFairness

  /** Who is calling the handler: the dispatcher, or the drain of an addEvent. */
  datatype Who = Dispatcher | InDrain(id: nat)

  /** What the handler is going to return; `gaveUp` when it is not positive without the source being empty. */
  datatype Outcome = Outcome(ret: int, gaveUp: bool)

  datatype Client = Client(history: seq<Step>, src: Source, results: map<Who, Outcome>)

  datatype Move =
    | Elsewhere(step: Step)
    | Produce(n: nat)
    | Discard(n: nat)
    | Consume(who: Who, n: nat, outcome: Outcome)
    | Return(who: Who)
    | Raise

  ghost predicate IsHistory(history: seq<Step>) {
    RunOk(INIT, history)
  }

  ghost function Loop(c: Client): State
    requires IsHistory(c.history)
  {
    After(INIT, c.history)
  }

  predicate InProgress(s: State, src: Source, who: Who) {
    match who
    case Dispatcher => s.pc.Calling? && Source(s.pc.fd, s.pc.d) == src
    case InDrain(id) => id in s.drains && s.drains[id].src == src
  }

  predicate SawEmpty(s: State, who: Who) {
    match who
    case Dispatcher => s.pc.Calling? && s.pc.drained
    case InDrain(id) => id in s.drains && s.drains[id].drained
  }

  /** A step of the loop that is neither on the client's source nor the return of one of its calls. */
  predicate Foreign(s: State, src: Source, step: Step) {
    match step
    case Arrive(e, _) => e != src
    case Read(e, _) => e != src
    case Close(fd) => fd != src.fd
    case Finish(_) => !InProgress(s, src, Dispatcher)
    case Throw => !InProgress(s, src, Dispatcher)
    case DrainReturn(id, _) => !InProgress(s, src, InDrain(id))
    case _ => true
  }

  function ReturnStep(who: Who, ret: int): Step {
    match who
    case Dispatcher => Finish(ret)
    case InDrain(id) => DrainReturn(id, ret)
  }

  ghost predicate CanMove(c: Client, m: Move)
    requires IsHistory(c.history)
  {
    var s := Loop(c);
    match m
    case Elsewhere(step) => Enabled(s, step) && Foreign(s, c.src, step)
    case Produce(n) => n > 0
    case Discard(n) => n <= Unread(s, c.src)
    case Consume(who, n, outcome) =>
      && InProgress(s, c.src, who) && n <= Unread(s, c.src)
      && (outcome.ret <= 0 && !outcome.gaveUp ==> n == Unread(s, c.src))
    case Return(who) => who in c.results && InProgress(s, c.src, who) && Enabled(s, ReturnStep(who, c.results[who].ret))
    case Raise => InProgress(s, c.src, Dispatcher)
  }

  ghost function LoopStep(c: Client, m: Move): Step
    requires IsHistory(c.history) && CanMove(c, m)
  {
    match m
    case Elsewhere(step) => step
    case Produce(n) => Arrive(c.src, n)
    case Discard(n) => Read(c.src, n)
    case Consume(_, n, _) => Read(c.src, n)
    case Return(who) => ReturnStep(who, c.results[who].ret)
    case Raise => Throw
  }

  ghost function Moved(c: Client, m: Move): Client
    requires IsHistory(c.history) && CanMove(c, m)
  {
    var results :=
      match m
      case Consume(who, _, outcome) => c.results[who := outcome]
      case Return(who) => c.results - {who}
      case Raise => c.results - {Dispatcher}
      case _ => c.results;
    Client(c.history + [LoopStep(c, m)], c.src, results)
  }

  /** A call that is about to return a result that is not positive has seen its source empty, or gave up. */
  ghost predicate Honest(s: State, src: Source, results: map<Who, Outcome>) {
    forall who :: who in results ==>
      InProgress(s, src, who) && (results[who].ret <= 0 && !results[who].gaveUp ==> SawEmpty(s, who))
  }

  ghost predicate ClientOk(c: Client) {
    IsHistory(c.history) && Honest(Loop(c), c.src, c.results)
  }

  lemma RunSnoc(history: seq<Step>, step: Step)
    requires RunOk(INIT, history) && Enabled(After(INIT, history), step)
    ensures RunOk(INIT, history + [step]) && After(INIT, history + [step]) == Apply(After(INIT, history), step)
    ensures BlamelessRun(history) && Blameless(After(INIT, history), step) ==> BlamelessRun(history + [step])
  {
    var longer := history + [step];
    assert longer[..|longer| - 1] == history;
  }

  lemma MoveEnabled(c: Client, m: Move)
    requires ClientOk(c) && CanMove(c, m)
    ensures Enabled(Loop(c), LoopStep(c, m))
  {}

  /** The calls of the client outlast every foreign step, and keep what they have seen. */
  lemma ForeignKeepsCalls(s: State, src: Source, step: Step, who: Who)
    requires Enabled(s, step) && Foreign(s, src, step) && InProgress(s, src, who)
    ensures InProgress(Apply(s, step), src, who)
    ensures SawEmpty(s, who) ==> SawEmpty(Apply(s, step), who)
  {}

  lemma ForeignKeepsUnread(s: State, src: Source, step: Step)
    requires Enabled(s, step) && Foreign(s, src, step)
    ensures Unread(Apply(s, step), src) == Unread(s, src)
  {}

  /** Work that comes or goes leaves the calls in progress; who takes all of it has seen the source empty. */
  lemma TrafficKeepsCall(s: State, src: Source, step: Step, who: Who)
    requires Enabled(s, step) && InProgress(s, src, who)
    requires (step.Arrive? || step.Read?) && step.src == src
    ensures InProgress(Apply(s, step), src, who)
    ensures SawEmpty(s, who) || (step.Read? && step.k == Unread(s, src)) ==> SawEmpty(Apply(s, step), who)
  {}

  /** So does the end of another call. */
  lemma OtherEndKeepsCall(s: State, src: Source, gone: Who, step: Step, who: Who)
    requires Enabled(s, step) && InProgress(s, src, who) && who != gone
    requires (gone == Dispatcher && (step.Finish? || step.Throw?)) || (step.DrainReturn? && gone == InDrain(step.id))
    ensures InProgress(Apply(s, step), src, who)
    ensures SawEmpty(s, who) ==> SawEmpty(Apply(s, step), who)
  {}

  /** The client's own moves keep its other calls, and a call that reads the source empty has seen that. */
  lemma OwnMoveKeepsCall(c: Client, m: Move, who: Who)
    requires ClientOk(c) && CanMove(c, m) && !m.Elsewhere? && Enabled(Loop(c), LoopStep(c, m))
    requires who in Moved(c, m).results
    ensures var t, outcome := Apply(Loop(c), LoopStep(c, m)), Moved(c, m).results[who];
      InProgress(t, c.src, who) && (outcome.ret <= 0 && !outcome.gaveUp ==> SawEmpty(t, who))
  {
    var s, step := Loop(c), LoopStep(c, m);
    match m
    case Return(gone) => OtherEndKeepsCall(s, c.src, gone, step, who);
    case Raise => OtherEndKeepsCall(s, c.src, Dispatcher, step, who);
    case _ => TrafficKeepsCall(s, c.src, step, who);
  }

  lemma MoveKeepsCall(c: Client, m: Move, who: Who)
    requires ClientOk(c) && CanMove(c, m) && who in Moved(c, m).results
    ensures Enabled(Loop(c), LoopStep(c, m))
    ensures var t, outcome := Apply(Loop(c), LoopStep(c, m)), Moved(c, m).results[who];
      InProgress(t, c.src, who) && (outcome.ret <= 0 && !outcome.gaveUp ==> SawEmpty(t, who))
  {
    MoveEnabled(c, m);
    if m.Elsewhere? {
      ForeignKeepsCalls(Loop(c), c.src, m.step, who);
    } else {
      OwnMoveKeepsCall(c, m, who);
    }
  }

  lemma {:induction false} MoveKeepsOk(c: Client, m: Move)
    requires ClientOk(c) && CanMove(c, m)
    ensures ClientOk(Moved(c, m))
    ensures Enabled(Loop(c), LoopStep(c, m)) && Loop(Moved(c, m)) == Apply(Loop(c), LoopStep(c, m))
  {
    MoveEnabled(c, m);
    RunSnoc(c.history, LoopStep(c, m));
    forall who | who in Moved(c, m).results
      ensures var t, outcome := Loop(Moved(c, m)), Moved(c, m).results[who];
        InProgress(t, c.src, who) && (outcome.ret <= 0 && !outcome.gaveUp ==> SawEmpty(t, who))
    {
      MoveKeepsCall(c, m, who);
    }
  }

  /** What a move of the client does to its unread work. */
  function UnreadAfter(before: nat, m: Move): int {
    match m
    case Produce(n) => before + n
    case Discard(n) => before - n
    case Consume(_, n, _) => before - n
    case _ => before
  }

  lemma EndKeepsUnread(s: State, src: Source, step: Step)
    requires Enabled(s, step) && (step.Finish? || step.Throw? || step.DrainReturn?)
    ensures Unread(Apply(s, step), src) == Unread(s, src)
  {}

  lemma {:induction false} MoveCounts(c: Client, m: Move)
    requires ClientOk(c) && CanMove(c, m)
    ensures ClientOk(Moved(c, m))
    ensures Unread(Loop(Moved(c, m)), c.src) == UnreadAfter(Unread(Loop(c), c.src), m)
  {
    MoveKeepsOk(c, m);
    var s, step := Loop(c), LoopStep(c, m);
    match m
    case Elsewhere(_) => ForeignKeepsUnread(s, c.src, step);
    case Return(_) => EndKeepsUnread(s, c.src, step);
    case Raise => EndKeepsUnread(s, c.src, step);
    case _ =>
  }

  /** What the client itself answers for: no giving up and no throwing; the others must be blameless too. */
  ghost predicate Fine(c: Client, m: Move)
    requires ClientOk(c) && CanMove(c, m)
  {
    match m
    case Elsewhere(step) => Blameless(Loop(c), step)
    case Consume(_, _, outcome) => !outcome.gaveUp
    case Return(who) => !c.results[who].gaveUp
    case Raise => false
    case Produce(_) => true
    case Discard(_) => true
  }

  lemma FineMoveIsBlameless(c: Client, m: Move)
    requires ClientOk(c) && CanMove(c, m) && Fine(c, m) && BlamelessRun(c.history)
    ensures ClientOk(Moved(c, m)) && BlamelessRun(Moved(c, m).history)
  {
    MoveEnabled(c, m);
    MoveKeepsOk(c, m);
    RunSnoc(c.history, LoopStep(c, m));
  }

  /** Work at the source means that the handler will be called again. */
  lemma {:induction false} WorkIsCovered(c: Client)
    requires ClientOk(c) && BlamelessRun(c.history)
    requires Watched(Loop(c).reg, c.src) && Unread(Loop(c), c.src) > 0
    ensures Covered(Loop(c), c.src)
  {
    NothingForfeited(c.history);
  }
}
