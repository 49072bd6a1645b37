/** The timer object and its timerfd, with callbacks that may set and cancel it again. */
module TimerObject {
  import opened Common
  import opened TimerProtocol

  /** What a callback does, one after the other, until it returns; time passes meanwhile. */
  datatype Deed =
    | SetAgain(periodMs: nat, repeated: bool, empty: bool)
    | CancelAgain(fails: bool)
    | TimePasses
    | Return

  /** The sets and cancels that these deeds are. */
  ghost function Ordered(deeds: seq<Deed>): seq<Step> {
    if deeds == [] then []
    else
      Ordered(deeds[..|deeds| - 1]) + match deeds[|deeds| - 1]
                                      case SetAgain(p, r, e) => [Step.Set(p, r, e)]
                                      case CancelAgain(fails) => [CancelBegin(fails)]
                                      case _ => []
  }

  /** The sets and cancels among the steps. */
  ghost function Asked(steps: seq<Step>): seq<Step> {
    if steps == [] then []
    else
      var last := steps[|steps| - 1];
      Asked(steps[..|steps| - 1]) + if last.Set? || last.CancelBegin? then [last] else []
  }

  lemma {:induction false} AskedSnoc(steps: seq<Step>, step: Step)
    ensures Asked(steps + [step]) == Asked(steps) + if step.Set? || step.CancelBegin? then [step] else []
  {
    assert (steps + [step])[..|steps|] == steps;
  }

  lemma {:induction false} OrderedOne(deed: Deed)
    ensures Ordered([deed]) == match deed
                               case SetAgain(p, r, e) => [Step.Set(p, r, e)]
                               case CancelAgain(fails) => [CancelBegin(fails)]
                               case _ => []
  {
    assert [deed][..0] == [];
  }

  lemma {:induction false} OrderedAppend(a: seq<Deed>, b: seq<Deed>)
    ensures Ordered(a + b) == Ordered(a) + Ordered(b)
    decreases |b|
  {
    if b == [] {
      assert a + b == a;
    } else {
      assert (a + b)[..|a + b| - 1] == a + b[..|b| - 1];
      OrderedAppend(a, b[..|b| - 1]);
    }
  }

  /** Between two moments exactly the deeds of the script from `from` to `to` were done. */
  ghost predicate Did(script: seq<Deed>, from: nat, to: nat, before: seq<Step>, after: seq<Step>) {
    from <= to <= |script| && Asked(after) == Asked(before) + Ordered(script[from..to])
  }

  /** A callback that began at `from` has returned, or the script is over. */
  ghost predicate Returned(script: seq<Deed>, from: nat, to: nat) {
    to <= |script| && (to == |script| || (to > from && script[to - 1] == Return))
  }

  lemma {:induction false} DidNothing(script: seq<Deed>, from: nat, steps: seq<Step>)
    requires from <= |script|
    ensures Did(script, from, from, steps, steps)
  {}

  lemma {:induction false} DidMore(script: seq<Deed>, from: nat, mid: nat, to: nat, a: seq<Step>, b: seq<Step>,
                                   c: seq<Step>)
    requires Did(script, from, mid, a, b) && Did(script, mid, to, b, c)
    ensures Did(script, from, to, a, c)
  {
    var first, second := script[from..mid], script[mid..to];
    assert script[from..to] == first + second;
    OrderedAppend(first, second);
    Chained(Asked(a), Asked(b), Asked(c), Ordered(first), Ordered(second));
  }

  lemma Chained(a: seq<Step>, b: seq<Step>, c: seq<Step>, x: seq<Step>, y: seq<Step>)
    requires b == a + x && c == b + y
    ensures c == a + (x + y)
  {}

  /** One deed that is one step, and the rest of what it did. */
  lemma {:induction false} DidOne(script: seq<Deed>, from: nat, to: nat, a: seq<Step>, step: Step, b: seq<Step>)
    requires from < |script| && Ordered([script[from]]) == [step] && (step.Set? || step.CancelBegin?)
    requires Did(script, from + 1, to, a + [step], b)
    ensures Did(script, from, to, a, b)
  {
    AskedSnoc(a, step);
    assert script[from..to] == [script[from]] + script[from + 1..to];
    OrderedAppend([script[from]], script[from + 1..to]);
  }

  /** One deed that is no set and no cancel. */
  lemma {:induction false} DidOther(script: seq<Deed>, from: nat, a: seq<Step>, b: seq<Step>)
    requires from < |script| && Ordered([script[from]]) == []
    requires a == b || (|b| == |a| + 1 && b[..|a|] == a && Asked(b) == Asked(a))
    ensures Did(script, from, from + 1, a, b)
  {
    assert script[from..from + 1] == [script[from]];
  }

  class Timer {
    var handler: Callee
    var value: Timespec
    var interval: Timespec
    var ticks: nat
    /** What all callbacks will do, and how much of it is done. */
    const script: seq<Deed>
    var pos: nat
    /** Numbers the functions given to set, as each stands for itself. */
    var sets: nat
    ghost var calls: seq<Call>
    ghost var cancelling: nat
    ghost var oneShots: set<nat>
    /** All that happened so far. */
    ghost var steps: seq<Step>

    ghost function Current(): State
      reads this
    {
      State(handler, value, interval, ticks, sets, calls, cancelling, oneShots)
    }

    /** The object is where its steps lead the protocol to. */
    ghost predicate Valid()
      reads this
    {
      && pos <= |script|
      && RunOk(INIT, steps) && After(INIT, steps) == Current()
      && (handler.User? ==> handler.arming < sets)
    }

    constructor (deeds: seq<Deed>)
      ensures Valid() && Current() == INIT && steps == [] && script == deeds && pos == 0
    {
      handler, value, interval, ticks := Nop, ZERO, ZERO, 0;
      script, pos := deeds, 0;
      sets, calls, cancelling, oneShots, steps := 0, [], 0, {}, [];
    }

    /** The state after one more step of the protocol. */
    twostate predicate Took(step: Step)
      reads this
    {
      && Enabled(old(Current()), step) && Current() == Apply(old(Current()), step)
      && steps == old(steps) + [step] && pos == old(pos)
    }

    twostate lemma TookKeepsValid(step: Step)
      requires old(Valid()) && Took(step)
      ensures Valid()
    {
      AfterSnoc(INIT, old(steps), step);
    }

    /** -1 for a period of zero, which changes nothing; the handler given is numbered by this call. */
    method Set(periodMs: nat, repeated: bool, empty: bool) returns (ret: int)
      requires Valid()
      modifies this
      ensures Valid() && Took(Step.Set(periodMs, repeated, empty))
      ensures ret == if periodMs == 0 then -1 else 0
      ensures periodMs == 0 ==> Current() == old(Current())
      ensures periodMs != 0 ==>
        && Nanoseconds(value) == periodMs * NS_PER_MS
        && Nanoseconds(interval) == (if repeated then periodMs * NS_PER_MS else 0)
        && ticks == 0
        && handler == if old(handler).Empty? then Nop else if empty then Empty else User(old(sets))
    {
      SetArms(Current(), periodMs, repeated, empty);
      steps := steps + [Step.Set(periodMs, repeated, empty)];
      if periodMs == 0 {
        TookKeepsValid(Step.Set(periodMs, repeated, empty));
        return -1;
      }
      var period := PeriodSpec(periodMs);
      var next := ZERO;
      if repeated {
        next := period;
      } else {
        oneShots := oneShots + {sets};
      }
      if !handler.Empty? {
        handler := if empty then Empty else User(sets);
      } else {
        handler := Nop;
      }
      value, interval, ticks := period, next, 0;
      sets := sets + 1;
      TookKeepsValid(Step.Set(periodMs, repeated, empty));
      return 0;
    }

    /** Milliseconds as a signed number of 64 bits, cut down to an unsigned int. */
    method SetDuration(count: int, repeated: bool, empty: bool) returns (ret: int)
      requires Valid()
      modifies this
      ensures Valid() && Took(Step.Set(count % UINT_RANGE, repeated, empty))
      ensures ret == -1 <==> count % UINT_RANGE == 0
      ensures ret != -1 ==>
        && Nanoseconds(value) == count % UINT_RANGE * NS_PER_MS
        && Nanoseconds(interval) == (if repeated then count % UINT_RANGE * NS_PER_MS else 0)
    {
      ret := Set(count % UINT_RANGE, repeated, empty);
    }

    /** An expiration: the timerfd counts it and starts over with the interval. */
    method Expire()
      requires Valid() && value != ZERO
      modifies this
      ensures Valid() && Took(Step.Expire)
    {
      steps := steps + [Step.Expire];
      value, ticks := interval, ticks + 1;
      TookKeepsValid(Step.Expire);
    }

    /** The deeds of a callback: a set, */
    method RunSet()
      requires Valid() && pos < |script| && script[pos].SetAgain?
      modifies this
      ensures Valid() && old(steps) <= steps && pos > old(pos) && cancelling == old(cancelling)
      ensures old(calls) <= calls && Fired(calls) == old(Fired(calls))
      ensures Did(script, old(pos), pos, old(steps), steps)
    {
      ghost var from, before := pos, steps;
      var deed := script[pos];
      OrderedOne(deed);
      pos := pos + 1;
      var ret := Set(deed.periodMs, deed.repeated, deed.empty);
      DidNothing(script, pos, steps);
      DidOne(script, from, pos, before, Step.Set(deed.periodMs, deed.repeated, deed.empty), steps);
    }

    /** a cancel, */
    method RunCancel()
      requires Valid() && pos < |script| && script[pos].CancelAgain?
      modifies this
      ensures Valid() && old(steps) <= steps && pos > old(pos) && cancelling == old(cancelling)
      ensures old(calls) <= calls && Fired(calls) == old(Fired(calls))
      ensures Did(script, old(pos), pos, old(steps), steps)
      decreases |script| - pos, 1
    {
      ghost var from, before := pos, steps;
      var deed := script[pos];
      OrderedOne(deed);
      pos := pos + 1;
      var ret := Cancel(deed.fails);
      DidOne(script, from, pos, before, CancelBegin(deed.fails), steps);
    }

    /** and letting time pass. */
    method RunTime()
      requires Valid() && pos < |script| && script[pos].TimePasses?
      modifies this
      ensures Valid() && old(steps) <= steps && pos > old(pos) && cancelling == old(cancelling)
      ensures old(calls) <= calls && Fired(calls) == old(Fired(calls))
      ensures Did(script, old(pos), pos, old(steps), steps)
    {
      ghost var from, before := pos, steps;
      OrderedOne(script[pos]);
      pos := pos + 1;
      if value != ZERO {
        Expire();
        AskedSnoc(before, Step.Expire);
      }
      DidOther(script, from, before, steps);
    }

    method RunDeed()
      requires Valid() && pos < |script| && !script[pos].Return?
      modifies this
      ensures Valid() && old(steps) <= steps && pos > old(pos) && cancelling == old(cancelling)
      ensures old(calls) <= calls && Fired(calls) == old(Fired(calls))
      ensures Did(script, old(pos), pos, old(steps), steps)
      decreases |script| - pos, 2
    {
      if script[pos].SetAgain? {
        RunSet();
      } else if script[pos].CancelAgain? {
        RunCancel();
      } else {
        RunTime();
      }
    }

    /** What a callback does to this timer, all of it in its order, until it returns. */
    method RunDeeds()
      requires Valid()
      modifies this
      ensures Valid() && old(steps) <= steps && pos >= old(pos) && cancelling == old(cancelling)
      ensures old(calls) <= calls && Fired(calls) == old(Fired(calls))
      ensures Did(script, old(pos), pos, old(steps), steps)
      ensures pos < |script| ==> script[pos] == Return
      decreases |script| - pos, 3
    {
      ghost var from, before := pos, steps;
      DidNothing(script, from, before);
      while pos < |script| && !script[pos].Return?
        invariant Valid() && old(steps) <= steps && pos >= old(pos) && cancelling == old(cancelling)
        invariant old(calls) <= calls && Fired(calls) == old(Fired(calls))
        invariant Did(script, from, pos, before, steps)
        decreases |script| - pos
      {
        ghost var mid, now := pos, steps;
        RunDeed();
        DidMore(script, from, mid, pos, before, now, steps);
      }
    }

    /** The time a callback takes. */
    method RunCallback()
      requires Valid()
      modifies this
      ensures Valid() && old(steps) <= steps && pos >= old(pos) && cancelling == old(cancelling)
      ensures old(calls) <= calls && Fired(calls) == old(Fired(calls))
      ensures Did(script, old(pos), pos, old(steps), steps)
      ensures Returned(script, old(pos), pos)
      decreases |script| - pos, 4
    {
      ghost var from, before := pos, steps;
      RunDeeds();
      if pos < |script| {
        OrderedOne(Return);
        DidOther(script, pos, steps, steps);
        DidMore(script, from, pos, pos + 1, before, steps, steps);
        pos := pos + 1;
      }
    }

    method BeginCancel(fails: bool)
      requires Valid()
      modifies this
      ensures Valid() && Took(CancelBegin(fails)) && Fired(calls) == old(Fired(calls))
    {
      steps := steps + [CancelBegin(fails)];
      if !fails {
        if value != ZERO && handler.User? {
          FiredSnoc(calls, Call(handler.arming, false));
          calls := calls + [Call(handler.arming, false)];
        }
        cancelling := cancelling + 1;
      }
      handler := Nop;
      TookKeepsValid(CancelBegin(fails));
    }

    method EndCancel()
      requires Valid() && cancelling > 0
      modifies this
      ensures Valid() && Took(CancelEnd)
    {
      steps := steps + [CancelEnd];
      value, interval, ticks := ZERO, ZERO, 0;
      cancelling := cancelling - 1;
      TookKeepsValid(CancelEnd);
    }

    /**
     1 if the timer was running, whose function then has been called with false; 0 if not; -1 if the
     time left could not be read, with the function gone all the same.
     */
    method Cancel(fails: bool) returns (ret: int)
      requires Valid()
      modifies this
      ensures Valid() && old(steps) + [CancelBegin(fails)] <= steps
      ensures pos >= old(pos) && cancelling == old(cancelling)
      ensures old(calls) <= calls && Fired(calls) == old(Fired(calls))
      ensures ret == if fails then -1 else if old(value) != ZERO then 1 else 0
      ensures old(handler).User? && ret == 1 ==> old(calls) + [Call(old(handler).arming, false)] <= calls
      ensures !old(handler).User? || ret != 1 ==> calls == old(calls)
      ensures Did(script, old(pos), pos, old(steps) + [CancelBegin(fails)], steps)
      ensures if old(handler).User? && ret == 1 then Returned(script, old(pos), pos) else pos == old(pos)
      ensures fails ==> Took(CancelBegin(true)) && handler == Nop
      ensures !fails ==> value == ZERO && interval == ZERO && ticks == 0 && steps[|steps| - 1] == CancelEnd
      decreases |script| - pos, 5
    {
      var original := handler;
      ret := 0;
      BeginCancel(fails);
      DidNothing(script, pos, steps);
      if fails {
        return -1;
      }
      if value != ZERO {
        if original.User? {
          RunCallback();
        }
        ret := 1;
      }
      AskedSnoc(steps, CancelEnd);
      EndCancel();
    }

    /** Reads the timerfd once; calling an empty function throws. */
    method ProcessTicks() returns (fire: bool)
      requires Valid() && cancelling == 0
      modifies this
      ensures Valid() && Took(Step.Process) && handler == old(handler)
      ensures fire <==> old(ticks) > 0
      ensures Fired(calls) == old(Fired(calls)) + if fire && handler.User? then 1 else 0
    {
      FiredByProcess(Current());
      ghost var next := Apply(Current(), Step.Process);
      fire := ticks > 0;
      if fire && handler.User? {
        calls := calls + [Call(handler.arming, true)];
      }
      ticks := 0;
      steps := steps + [Step.Process];
      assert Current() == next;
      TookKeepsValid(Step.Process);
    }

    method Process() returns (result: int, threw: bool)
      requires Valid() && cancelling == 0
      modifies this
      ensures Valid() && old(steps) + [Step.Process] <= steps && cancelling == 0
      ensures threw <==> old(handler).Empty? && old(ticks) > 0
      ensures result == 0
      ensures old(handler).User? && old(ticks) > 0 ==> old(calls) + [Call(old(handler).arming, true)] <= calls
      ensures !old(handler).User? || old(ticks) == 0 ==> Took(Step.Process)
      ensures Fired(calls) == old(Fired(calls)) + if old(handler).User? && old(ticks) > 0 then 1 else 0
      ensures Did(script, old(pos), pos, old(steps), steps)
      ensures if old(handler).User? && old(ticks) > 0 then Returned(script, old(pos), pos) else pos == old(pos)
    {
      ghost var from, before := pos, steps;
      var callee := handler;
      var fire := ProcessTicks();
      AskedSnoc(before, Step.Process);
      assert Did(script, from, pos, before, steps);
      ghost var now := steps;
      if fire {
        if callee.Empty? {
          return 0, true;
        }
        if callee.User? {
          RunCallback();
          DidMore(script, from, from, pos, before, now, steps);
        }
      }
      return 0, false;
    }

    /** At any time each function has seen what the protocol allows. */
    lemma Traces(arming: nat)
      requires Valid()
      ensures FiresThenCancels(CallsOf(calls, arming))
      ensures arming in oneShots ==> |CallsOf(calls, arming)| <= 1
    {
      CallbackTraces(steps, arming);
    }
  }
}
