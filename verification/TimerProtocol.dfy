/** The timer as an arming protocol: what set, cancel and process may do to a timerfd, in any order. */
module TimerProtocol {
  import opened Common

  const NS_PER_MS := 1_000_000
  const NS_PER_S := 1_000_000_000

  /** A struct timespec. */
  datatype Timespec = Timespec(sec: nat, nsec: nat)

  function Nanoseconds(t: Timespec): nat {
    t.sec * NS_PER_S + t.nsec
  }

  const ZERO := Timespec(0, 0)

  /** The time given to timerfd_settime, computed on unsigned integers of 32 bits. */
  function PeriodSpec(periodMs: nat): Timespec {
    Timespec(periodMs / 1000, (periodMs % 1000) * 1000 * 1000 % UINT_RANGE)
  }

  /** It is a valid time, never the zero that would disarm, and exactly the period. */
  lemma PeriodSpecExact(periodMs: nat)
    ensures var t := PeriodSpec(periodMs);
      && t.nsec < NS_PER_S
      && Nanoseconds(t) == periodMs * NS_PER_MS
      && (t == ZERO <==> periodMs == 0)
  {
    assert periodMs == periodMs / 1000 * 1000 + periodMs % 1000;
  }

  // ---------------------------------------------------------------------------------------------
  // States and steps
  // ---------------------------------------------------------------------------------------------

  /** m_eventHandler: the function that does nothing, an empty std::function, or that of the arming with this number. */
  datatype Callee = Nop | Empty | User(arming: nat)

  /** One call of a user's function. */
  datatype Call = Call(arming: nat, fired: bool)

  /**
   The timer object and its timerfd: time left and interval, expirations not read yet, the number of
   successful sets, the calls made, the cancels in progress, and which armings were for one shot.
   */
  datatype State = State(
    handler: Callee, value: Timespec, interval: Timespec, ticks: nat,
    sets: nat, calls: seq<Call>, cancelling: nat, oneShots: set<nat>)

  const INIT := State(Nop, ZERO, ZERO, 0, 0, [], 0, {})

  /** Cancel is two steps since its callback may set and cancel again before it disarms the timerfd. */
  datatype Step =
    | Set(periodMs: nat, repeated: bool, empty: bool)
    | CancelBegin(fails: bool)
    | CancelEnd
    | Expire
    | Process

  predicate Running(s: State) {
    s.value != ZERO
  }

  /** process() is called by the event loop, not from within callbacks. */
  predicate Enabled(s: State, step: Step) {
    match step
    case CancelEnd => s.cancelling > 0
    case Expire => Running(s)
    case Process => s.cancelling == 0
    case _ => true
  }

  function Called(s: State, callee: Callee, fired: bool): seq<Call> {
    if callee.User? then s.calls + [Call(callee.arming, fired)] else s.calls
  }

  function Apply(s: State, step: Step): State {
    match step
    case Set(periodMs, repeated, empty) =>
      if periodMs == 0 then s
      else
        s.(handler := if s.handler.Empty? then Nop else if empty then Empty else User(s.sets),
           value := PeriodSpec(periodMs),
           interval := if repeated then PeriodSpec(periodMs) else ZERO,
           ticks := 0,
           sets := s.sets + 1,
           oneShots := if repeated then s.oneShots else s.oneShots + {s.sets})
    case CancelBegin(fails) =>
      if fails then s.(handler := Nop)
      else
        s.(handler := Nop, cancelling := s.cancelling + 1,
           calls := if Running(s) then Called(s, s.handler, false) else s.calls)
    case CancelEnd =>
      s.(value := ZERO, interval := ZERO, ticks := 0,
         cancelling := if s.cancelling > 0 then s.cancelling - 1 else 0)
    case Expire => s.(value := s.interval, ticks := s.ticks + 1)
    case Process => if s.ticks == 0 then s else s.(ticks := 0, calls := Called(s, s.handler, true))
  }

  /**
   What a set does: nothing for a period of zero; otherwise the time to go is the period, and so is the
   interval if it is repeated, ticks that were not read are gone, and the function given is in place, unless
   the previous one was empty, which leaves the one that does nothing.
   */
  lemma SetArms(s: State, periodMs: nat, repeated: bool, empty: bool)
    ensures var t := Apply(s, Set(periodMs, repeated, empty));
      if periodMs == 0 then t == s
      else
        && Nanoseconds(t.value) == periodMs * NS_PER_MS && t.value.nsec < NS_PER_S
        && Nanoseconds(t.interval) == (if repeated then periodMs * NS_PER_MS else 0) && t.interval.nsec < NS_PER_S
        && t.ticks == 0 && t.sets == s.sets + 1 && t.calls == s.calls
        && (s.handler.Empty? ==> t.handler == Nop)
        && (!s.handler.Empty? ==> t.handler == if empty then Empty else User(s.sets))
  {
    PeriodSpecExact(periodMs);
  }

  predicate RunOk(s: State, steps: seq<Step>)
    decreases |steps|
  {
    steps == [] || (Enabled(s, steps[0]) && RunOk(Apply(s, steps[0]), steps[1..]))
  }

  function After(s: State, steps: seq<Step>): State
    decreases |steps|
  {
    if steps == [] then s else After(Apply(s, steps[0]), steps[1..])
  }

  lemma {:induction false} AfterSnoc(s: State, steps: seq<Step>, step: Step)
    requires RunOk(s, steps) && Enabled(After(s, steps), step)
    ensures RunOk(s, steps + [step]) && After(s, steps + [step]) == Apply(After(s, steps), step)
    decreases |steps|
  {
    var all := steps + [step];
    if steps == [] {
      assert all[1..] == [];
    } else {
      assert all[0] == steps[0] && all[1..] == steps[1..] + [step];
      AfterSnoc(Apply(s, steps[0]), steps[1..], step);
    }
  }

  // ---------------------------------------------------------------------------------------------
  // What each arming gets to see
  // ---------------------------------------------------------------------------------------------

  /** The calls of one arming's function, with their argument. */
  function CallsOf(calls: seq<Call>, arming: nat): seq<bool> {
    if calls == [] then []
    else
      var before := CallsOf(calls[..|calls| - 1], arming);
      var last := calls[|calls| - 1];
      if last.arming == arming then before + [last.fired] else before
  }

  lemma CallsOfSnoc(calls: seq<Call>, c: Call, arming: nat)
    ensures CallsOf(calls + [c], arming)
         == if c.arming == arming then CallsOf(calls, arming) + [c.fired] else CallsOf(calls, arming)
  {
    assert (calls + [c])[..|calls|] == calls;
  }

  predicate AllTrue(trace: seq<bool>) {
    forall i :: 0 <= i < |trace| ==> trace[i]
  }

  /** true any number of times, and then false at most once. */
  predicate FiresThenCancels(trace: seq<bool>) {
    AllTrue(trace) || (trace[|trace| - 1] == false && AllTrue(trace[..|trace| - 1]))
  }

  /** What is left for a function to see: nothing once it is replaced. */
  predicate ArmingOk(s: State, arming: nat) {
    var trace := CallsOf(s.calls, arming);
    && FiresThenCancels(trace)
    && (arming >= s.sets ==> trace == [])
    && (s.handler == User(arming) ==> AllTrue(trace))
    && (arming in s.oneShots ==> |trace| <= 1)
    && (arming in s.oneShots && s.handler == User(arming) ==>
          s.interval == ZERO && |trace| + s.ticks + (if Running(s) then 1 else 0) <= 1)
  }

  /** A function in place is the last one set, and armings are numbered by the sets. */
  predicate Numbered(s: State) {
    && (s.handler.User? ==> s.handler.arming + 1 == s.sets)
    && (forall a :: a in s.oneShots ==> a < s.sets)
    && (s.interval != ZERO ==> Running(s))
  }

  lemma TraceSnoc(trace: seq<bool>, fired: bool)
    requires AllTrue(trace)
    ensures FiresThenCancels(trace + [fired]) && (fired ==> AllTrue(trace + [fired]))
  {
    assert (trace + [fired])[..|trace|] == trace;
  }

  lemma StepKeepsNumbered(s: State, step: Step)
    requires Numbered(s)
    ensures Numbered(Apply(s, step))
  {}

  /** A step that calls nobody. */
  lemma QuietStepKeepsArming(s: State, step: Step, arming: nat)
    requires Numbered(s) && ArmingOk(s, arming) && Enabled(s, step) && Apply(s, step).calls == s.calls
    ensures ArmingOk(Apply(s, step), arming)
  {}

  /** A step that calls the function in place. */
  lemma CallKeepsArming(s: State, step: Step, arming: nat)
    requires Numbered(s) && ArmingOk(s, arming) && Apply(s, step).calls != s.calls
    ensures ArmingOk(Apply(s, step), arming)
  {
    var c := Call(s.handler.arming, step.Process?);
    assert Apply(s, step).calls == s.calls + [c];
    CallsOfSnoc(s.calls, c, arming);
    if c.arming == arming {
      TraceSnoc(CallsOf(s.calls, arming), c.fired);
    }
  }

  lemma StepKeepsArming(s: State, step: Step, arming: nat)
    requires Numbered(s) && ArmingOk(s, arming) && Enabled(s, step)
    ensures Numbered(Apply(s, step)) && ArmingOk(Apply(s, step), arming)
  {
    StepKeepsNumbered(s, step);
    if Apply(s, step).calls == s.calls {
      QuietStepKeepsArming(s, step, arming);
    } else {
      CallKeepsArming(s, step, arming);
    }
  }

  lemma {:induction false} RunKeepsArming(s: State, steps: seq<Step>, arming: nat)
    requires Numbered(s) && ArmingOk(s, arming) && RunOk(s, steps)
    ensures Numbered(After(s, steps)) && ArmingOk(After(s, steps), arming)
    decreases |steps|
  {
    if steps != [] {
      StepKeepsArming(s, steps[0], arming);
      RunKeepsArming(Apply(s, steps[0]), steps[1..], arming);
    }
  }

  /**
   In every run each function set is called with true any number of times and then at most once with
   false; one set for a single shot is called at most once in all.
   */
  lemma CallbackTraces(steps: seq<Step>, arming: nat)
    requires RunOk(INIT, steps)
    ensures var s := After(INIT, steps);
      && FiresThenCancels(CallsOf(s.calls, arming))
      && (arming in s.oneShots ==> |CallsOf(s.calls, arming)| <= 1)
  {
    RunKeepsArming(INIT, steps, arming);
  }

  /** How many of the calls were made because the time was up. */
  function Fired(calls: seq<Call>): nat {
    if calls == [] then 0 else Fired(calls[..|calls| - 1]) + if calls[|calls| - 1].fired then 1 else 0
  }

  lemma FiredSnoc(calls: seq<Call>, c: Call)
    ensures Fired(calls + [c]) == Fired(calls) + if c.fired then 1 else 0
  {
    assert (calls + [c])[..|calls|] == calls;
  }

  lemma FiredByProcess(s: State)
    ensures Fired(Apply(s, Process).calls) == Fired(s.calls) + if s.ticks > 0 && s.handler.User? then 1 else 0
  {
    if s.handler.User? {
      FiredSnoc(s.calls, Call(s.handler.arming, true));
    }
  }

  // ---------------------------------------------------------------------------------------------
  // Silence
  // ---------------------------------------------------------------------------------------------

  /** Nobody can be called before the next set. */
  predicate Silent(s: State) {
    !s.handler.User? || (!Running(s) && s.interval == ZERO && s.ticks == 0)
  }

  predicate Sets(steps: seq<Step>) {
    exists i :: 0 <= i < |steps| && steps[i].Set? && steps[i].periodMs != 0
  }

  lemma {:induction false} SilentStays(s: State, steps: seq<Step>)
    requires Silent(s) && RunOk(s, steps) && !Sets(steps)
    ensures Silent(After(s, steps)) && After(s, steps).calls == s.calls
    decreases |steps|
  {
    if steps != [] {
      assert !(steps[0].Set? && steps[0].periodMs != 0);
      forall i | 0 <= i < |steps| - 1 ensures !(steps[1..][i].Set? && steps[1..][i].periodMs != 0) {
        assert steps[1..][i] == steps[i + 1];
      }
      SilentStays(Apply(s, steps[0]), steps[1..]);
    }
  }

  /** After a cancel that is over, or that failed, nobody is called until the next set. */
  lemma NoCallAfterCancel(s: State, end: Step, steps: seq<Step>)
    requires Enabled(s, end) && (end.CancelEnd? || end == CancelBegin(true))
    requires RunOk(Apply(s, end), steps) && !Sets(steps)
    ensures After(Apply(s, end), steps).calls == Apply(s, end).calls
  {
    SilentStays(Apply(s, end), steps);
  }

  function Expirations(n: nat): seq<Step> {
    if n == 0 then [] else Expirations(n - 1) + [Expire]
  }

  lemma {:induction false} Expired(s: State, n: nat)
    requires Running(s) && (n > 1 ==> s.interval != ZERO)
    ensures RunOk(s, Expirations(n))
    ensures After(s, Expirations(n)) == if n == 0 then s else s.(value := s.interval, ticks := s.ticks + n)
    decreases n
  {
    if n > 0 {
      Expired(s, n - 1);
      AfterSnoc(s, Expirations(n - 1), Expire);
    }
  }

  /** However often the time elapses until the timer is processed, its function is called once. */
  lemma ExpirationsCoalesce(s: State, n: nat)
    requires s.handler.User? && s.cancelling == 0 && Running(s) && n > 0 && (n > 1 ==> s.interval != ZERO)
    ensures RunOk(s, Expirations(n) + [Process])
    ensures After(s, Expirations(n) + [Process]).calls == s.calls + [Call(s.handler.arming, true)]
  {
    Expired(s, n);
    AfterSnoc(s, Expirations(n), Process);
  }

  // ---------------------------------------------------------------------------------------------
  // Where set does not do what its caller asks for
  // ---------------------------------------------------------------------------------------------

  /** set tests the previous handler, so it installs the function given exactly when that was not empty. */
  lemma InstalledExactly(s: State, periodMs: nat, repeated: bool)
    requires periodMs != 0 && Numbered(s)
    ensures Apply(s, Set(periodMs, repeated, false)).handler == User(s.sets) <==> !s.handler.Empty?
  {}

  /** No call for an arming that was never installed, in any run. */
  predicate Missed(s: State, arming: nat) {
    arming < s.sets && s.handler != User(arming)
  }

  lemma {:induction false} MissedStays(s: State, steps: seq<Step>, arming: nat)
    requires Missed(s, arming) && RunOk(s, steps)
    ensures Missed(After(s, steps), arming) && CallsOf(After(s, steps).calls, arming) == CallsOf(s.calls, arming)
    decreases |steps|
  {
    if steps != [] {
      var t := Apply(s, steps[0]);
      if t.calls != s.calls {
        CallsOfSnoc(s.calls, Call(s.handler.arming, steps[0].Process?), arming);
      }
      MissedStays(t, steps[1..], arming);
    }
  }

  /** A function set while the handler is empty is never called. */
  lemma SetAfterEmptyIsMissed(before: seq<Step>, periodMs: nat, repeated: bool, steps: seq<Step>)
    requires periodMs != 0 && RunOk(INIT, before) && After(INIT, before).handler.Empty?
    requires RunOk(Apply(After(INIT, before), Set(periodMs, repeated, false)), steps)
    ensures var s := After(INIT, before);
      CallsOf(After(Apply(s, Set(periodMs, repeated, false)), steps).calls, s.sets) == []
  {
    var s := After(INIT, before);
    RunKeepsArming(INIT, before, s.sets);
    MissedStays(Apply(s, Set(periodMs, repeated, false)), steps, s.sets);
  }

  /** Such a run: an empty function is set, and then one that is not. */
  lemma SetAfterEmptyRun(periodMs: nat)
    requires periodMs != 0
    ensures var steps := [Set(periodMs, true, true), Set(periodMs, true, false), Expire, Process];
      && RunOk(INIT, steps)
      && After(INIT, steps).calls == []
      && Running(After(INIT, steps))
  {
    var steps := [Set(periodMs, true, true), Set(periodMs, true, false), Expire, Process];
    PeriodSpecExact(periodMs);
    var s1 := Apply(INIT, steps[0]);
    var s2 := Apply(s1, steps[1]);
    var s3 := Apply(s2, steps[2]);
    assert steps[1..][1..][1..] == [Process];
    var s4 := Apply(s3, Process);
    assert s4.calls == [] && Running(s4);
    assert RunOk(s3, [Process]) && After(s3, [Process]) == s4;
    assert steps[1..][1..] == [Expire, Process];
    assert RunOk(s2, [Expire, Process]) && After(s2, [Expire, Process]) == s4;
    assert steps[1..] == [Set(periodMs, true, false), Expire, Process];
    assert RunOk(s1, steps[1..]) && After(s1, steps[1..]) == s4;
  }

  /** Does not fire: either the cancel in progress still has to disarm it, or it is disarmed, or replaced. */
  predicate Doomed(s: State, arming: nat) {
    && arming < s.sets
    && (s.handler == User(arming) ==>
          s.cancelling > 0 || (!Running(s) && s.ticks == 0 && s.interval == ZERO))
  }

  predicate NeverFired(calls: seq<Call>, arming: nat) {
    Call(arming, true) !in calls
  }

  lemma {:induction false} DoomedStays(s: State, steps: seq<Step>, arming: nat)
    requires Doomed(s, arming) && NeverFired(s.calls, arming) && RunOk(s, steps)
    ensures Doomed(After(s, steps), arming) && NeverFired(After(s, steps).calls, arming)
    decreases |steps|
  {
    if steps != [] {
      DoomedStays(Apply(s, steps[0]), steps[1..], arming);
    }
  }

  lemma {:induction false} NotCalledYet(calls: seq<Call>, arming: nat)
    requires CallsOf(calls, arming) == []
    ensures NeverFired(calls, arming)
    decreases |calls|
  {
    if calls != [] {
      NotCalledYet(calls[..|calls| - 1], arming);
      assert calls == calls[..|calls| - 1] + [calls[|calls| - 1]];
    }
  }

  /**
   A set made from the callback of a cancel succeeds and never fires: that cancel disarms the timer when
   it goes on.
   */
  lemma SetWhileCancellingNeverFires(before: seq<Step>, set': Step, steps: seq<Step>)
    requires RunOk(INIT, before) && After(INIT, before).cancelling > 0
    requires set'.Set? && set'.periodMs != 0 && RunOk(Apply(After(INIT, before), set'), steps)
    ensures var s := After(INIT, before);
      NeverFired(After(Apply(s, set'), steps).calls, s.sets)
  {
    var s := After(INIT, before);
    RunKeepsArming(INIT, before, s.sets);
    NotCalledYet(s.calls, s.sets);
    DoomedStays(Apply(s, set'), steps, s.sets);
  }

  /** Such a run: the timer is set again while it is being cancelled. */
  lemma SetWhileCancellingRun(periodMs: nat)
    requires periodMs != 0
    ensures var steps := [Set(periodMs, true, false), CancelBegin(false)];
      var s := After(INIT, steps);
      && RunOk(INIT, steps) && s.cancelling == 1
      && Apply(s, Set(periodMs, true, false)).handler == User(1)
      && Running(Apply(s, Set(periodMs, true, false)))
      && Enabled(Apply(s, Set(periodMs, true, false)), CancelEnd)
      && !Running(Apply(Apply(s, Set(periodMs, true, false)), CancelEnd))
  {
    var set' := Set(periodMs, true, false);
    PeriodSpecExact(periodMs);
    assert RunOk(INIT, []) && After(INIT, []) == INIT;
    AfterSnoc(INIT, [], set');
    assert [] + [set'] == [set'];
    AfterSnoc(INIT, [set'], CancelBegin(false));
    assert [set'] + [CancelBegin(false)] == [set', CancelBegin(false)];
  }

  /** Some continuation calls the function of this arming with true. */
  ghost predicate CanFire(s: State, arming: nat) {
    exists steps :: RunOk(s, steps) && Call(arming, true) in After(s, steps).calls
  }

  lemma FiresNext(s: State, periodMs: nat, repeated: bool)
    requires Numbered(s) && periodMs != 0 && s.cancelling == 0 && !s.handler.Empty?
    ensures CanFire(Apply(s, Set(periodMs, repeated, false)), s.sets)
  {
    var t := Apply(s, Set(periodMs, repeated, false));
    InstalledExactly(s, periodMs, repeated);
    PeriodSpecExact(periodMs);
    ExpirationsCoalesce(t, 1);
    assert Call(s.sets, true) in After(t, Expirations(1) + [Process]).calls;
  }

  /**
   A function given to set can ever be called with true exactly when no cancel is in progress and the
   previous function was not empty.
   */
  lemma FiresExactly(before: seq<Step>, periodMs: nat, repeated: bool)
    requires RunOk(INIT, before) && periodMs != 0
    ensures var s := After(INIT, before);
      CanFire(Apply(s, Set(periodMs, repeated, false)), s.sets) <==> s.cancelling == 0 && !s.handler.Empty?
  {
    var s := After(INIT, before);
    var set' := Set(periodMs, repeated, false);
    if s.cancelling == 0 && !s.handler.Empty? {
      RunKeepsArming(INIT, before, s.sets);
      FiresNext(s, periodMs, repeated);
    } else {
      forall steps | RunOk(Apply(s, set'), steps) ensures Call(s.sets, true) !in After(Apply(s, set'), steps).calls {
        NeverAfter(before, set', steps);
      }
    }
  }

  lemma NeverAfter(before: seq<Step>, set': Step, steps: seq<Step>)
    requires RunOk(INIT, before) && set'.Set? && set'.periodMs != 0 && !set'.empty
    requires var s := After(INIT, before);
      (s.cancelling > 0 || s.handler.Empty?) && RunOk(Apply(s, set'), steps)
    ensures var s := After(INIT, before);
      Call(s.sets, true) !in After(Apply(s, set'), steps).calls
  {
    var s := After(INIT, before);
    if s.cancelling > 0 {
      SetWhileCancellingNeverFires(before, set', steps);
    } else {
      SetAfterEmptyIsMissed(before, set'.periodMs, set'.repeated, steps);
      NotCalledYet(After(Apply(s, set'), steps).calls, s.sets);
    }
  }
}
