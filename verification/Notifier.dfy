/** The notifier: an eventfd whose counter is turned into that many callbacks. */
module NotifierObject {
  import opened Common
  import opened Registration
  import LoopSafety
  import LoopSystem
  import opened LoopWakeups
  import opened LoopFairness
  import opened LoopClient

  /** The largest value an eventfd counter holds; a write beyond it fails. */
  const COUNTER_MAX := 0xFFFF_FFFF_FFFF_FFFE

  /** What one callback does: notify the same notifier some times, and perhaps throw. */
  datatype Callback = Callback(notifies: nat, throws: bool)

  /** What fits into the counter. */
  function Capped(n: nat): nat {
    if n < COUNTER_MAX then n else COUNTER_MAX
  }

  /** How often the first n callbacks notify. */
  function Notifies(callbacks: seq<Callback>, n: nat): nat {
    if n == 0 then 0
    else Notifies(callbacks, n - 1) + if n <= |callbacks| then callbacks[n - 1].notifies else 0
  }

  /** The object and its eventfd. `notified`, `ran` and `dropped` count what happened so far. */
  class Notifier {
    var counter: nat
    var handler: Option<Handler>
    ghost var notified: nat
    ghost var ran: nat
    ghost var dropped: nat

    /** Every successful notify is a callback that ran, is still in the counter, or was dropped by a throw. */
    ghost predicate Conserved()
      reads this
    {
      counter <= COUNTER_MAX && notified == ran + counter + dropped
    }

    constructor ()
      ensures Conserved() && notified == 0 && counter == 0 && handler == None
    {
      counter, handler := 0, None;
      notified, ran, dropped := 0, 0, 0;
    }

    /** An empty callback stands for the one that does nothing. */
    method Set(eventHandler: Option<Handler>) returns (ret: int)
      modifies this`handler
      ensures ret == 0 && handler == eventHandler
    {
      handler := eventHandler;
      ret := 0;
    }

    /** write(1) to the eventfd: 8 bytes, or -1 when the counter is full. */
    method Notify() returns (ret: int)
      modifies this`counter, this`notified
      ensures ret == (if old(counter) < COUNTER_MAX then 8 else -1)
      ensures counter == old(counter) + (if ret == 8 then 1 else 0)
      ensures notified == old(notified) + (if ret == 8 then 1 else 0)
    {
      if counter >= COUNTER_MAX {
        return -1;
      }
      counter, notified := counter + 1, notified + 1;
      return 8;
    }

    /** One run of the callback, which may notify again. */
    method RunHandler(c: Callback)
      requires counter <= COUNTER_MAX
      modifies this`counter, this`notified, this`ran
      ensures ran == old(ran) + 1 && counter == Capped(old(counter) + c.notifies)
      ensures notified - old(notified) == counter - old(counter)
    {
      for i := 0 to c.notifies
        invariant counter == Capped(old(counter) + i)
        invariant notified - old(notified) == counter - old(counter) && ran == old(ran)
      {
        var ret := Notify();
      }
      ran := ran + 1;
    }

    /**
     Read the counter once and run the callback that many times. Notifications made meanwhile stay in
     the counter for the next time. The default callback, and those beyond `callbacks`, do nothing.
     */
    method Process(callbacks: seq<Callback>) returns (result: int, threw: bool)
      requires Conserved()
      modifies this`counter, this`notified, this`ran, this`dropped
      ensures Conserved() && dropped >= old(dropped)
      ensures result == (if old(counter) == 0 then -1 else 0)
      ensures !threw ==> ran == old(ran) + old(counter) && dropped == old(dropped)
      ensures !threw ==> counter == notified - old(notified)
      ensures threw ==> ran + dropped == old(ran) + old(dropped) + old(counter) && ran > old(ran)
      ensures threw <==> handler.Some? && exists i :: 0 <= i < old(counter) && i < |callbacks| && callbacks[i].throws
      ensures handler.Some? ==> counter == Capped(Notifies(callbacks, ran - old(ran)))
      ensures handler.None? ==> counter == 0
      ensures threw ==>
        && ran - old(ran) <= |callbacks| && callbacks[ran - old(ran) - 1].throws
        && forall i :: 0 <= i < ran - old(ran) - 1 ==> !callbacks[i].throws
    {
      threw := false;
      if counter == 0 {
        return -1, false;
      }
      var eventCount := counter;
      counter := 0;
      var i := 0;
      while i < eventCount
        invariant 0 <= i <= eventCount == old(counter) && counter <= COUNTER_MAX
        invariant ran == old(ran) + i && dropped == old(dropped)
        invariant counter == notified - old(notified)
        invariant counter == if handler.Some? then Capped(Notifies(callbacks, i)) else 0
        invariant handler.Some? ==> forall j :: 0 <= j < i && j < |callbacks| ==> !callbacks[j].throws
      {
        var c := if handler.Some? && i < |callbacks| then callbacks[i] else Callback(0, false);
        RunHandler(c);
        i := i + 1;
        if c.throws {
          dropped := dropped + (eventCount - i);
          return 0, true;
        }
      }
      return 0, false;
    }
  }

  // ---------------------------------------------------------------------------------------------
  // The notifier in the event loop
  // ---------------------------------------------------------------------------------------------

  /**
   The notifier as a client of the loop. `remaining` holds, for each call of process() in progress, what is
   left of its for loop: the dispatcher's call, and the drain of the registration in the constructor.
   */
  datatype Notifying = Notifying(client: Client, notified: nat, ran: nat, remaining: multiset<Who>)

  /**
   Notify and the callback runs may come at any time, from callbacks of this notifier too. ReadCounter
   starts the body of process().
   */
  datatype Action =
    | Meanwhile(step: LoopSystem.Step)
    | Notify
    | ReadCounter(who: Who)
    | RunCallback(who: Who)
    | ProcessReturns(who: Who)

  ghost function Counter(n: Notifying): nat
    requires IsHistory(n.client.history)
  {
    LoopSystem.Unread(Loop(n.client), n.client.src)
  }

  ghost predicate NotifyingOk(n: Notifying) {
    && ClientOk(n.client)
    && (forall who :: who in n.client.results ==> n.client.results[who].ret <= 0 && !n.client.results[who].gaveUp)
    && n.notified == n.ran + Counter(n) + |n.remaining|
    && (forall who :: who in n.remaining ==> who in n.client.results)
  }

  ghost predicate CanAct(n: Notifying, a: Action)
    requires NotifyingOk(n)
  {
    match a
    case Meanwhile(step) => CanMove(n.client, Elsewhere(step))
    case Notify => Counter(n) < COUNTER_MAX
    case ReadCounter(who) => InProgress(Loop(n.client), n.client.src, who) && who !in n.client.results
    case RunCallback(who) => who in n.remaining
    case ProcessReturns(who) => who !in n.remaining && CanMove(n.client, Return(who))
  }

  ghost function MoveOf(n: Notifying, a: Action): Move
    requires NotifyingOk(n) && CanAct(n, a) && !a.RunCallback?
  {
    match a
    case Meanwhile(step) => Elsewhere(step)
    case Notify => Produce(1)
    case ReadCounter(who) => Consume(who, Counter(n), Outcome(if Counter(n) == 0 then -1 else 0, false))
    case ProcessReturns(who) => Return(who)
  }

  ghost function Acted(n: Notifying, a: Action): Notifying
    requires NotifyingOk(n) && CanAct(n, a)
  {
    if a.RunCallback? then n.(ran := n.ran + 1, remaining := n.remaining[a.who := n.remaining[a.who] - 1])
    else
      Notifying(Moved(n.client, MoveOf(n, a)), n.notified + (if a.Notify? then 1 else 0), n.ran,
                if a.ReadCounter? then n.remaining[a.who := Counter(n)] else n.remaining)
  }

  lemma CounterAfter(n: Notifying, a: Action)
    requires NotifyingOk(n) && CanAct(n, a) && !a.RunCallback?
    ensures ClientOk(Acted(n, a).client)
    ensures Counter(Acted(n, a))
         == Counter(n) + (if a.Notify? then 1 else 0) - (if a.ReadCounter? then Counter(n) else 0)
  {
    MoveCounts(n.client, MoveOf(n, a));
  }

  lemma ActKeepsOk(n: Notifying, a: Action)
    requires NotifyingOk(n) && CanAct(n, a)
    ensures NotifyingOk(Acted(n, a))
  {
    if !a.RunCallback? {
      CounterAfter(n, a);
    }
  }

  ghost predicate Calm(n: Notifying, a: Action)
    requires NotifyingOk(n) && CanAct(n, a)
  {
    a.Meanwhile? ==> Blameless(Loop(n.client), a.step)
  }

  lemma CalmActIsBlameless(n: Notifying, a: Action)
    requires NotifyingOk(n) && CanAct(n, a) && Calm(n, a) && BlamelessRun(n.client.history)
    ensures NotifyingOk(Acted(n, a)) && BlamelessRun(Acted(n, a).client.history)
  {
    ActKeepsOk(n, a);
    if !a.RunCallback? {
      FineMoveIsBlameless(n.client, MoveOf(n, a));
    }
  }

  ghost predicate CalmRun(n: Notifying, acts: seq<Action>)
    decreases |acts|
  {
    && NotifyingOk(n)
    && (acts == [] || (CanAct(n, acts[0]) && Calm(n, acts[0]) && CalmRun(Acted(n, acts[0]), acts[1..])))
  }

  ghost function AfterAll(n: Notifying, acts: seq<Action>): Notifying
    requires CalmRun(n, acts)
    decreases |acts|
  {
    if acts == [] then n else AfterAll(Acted(n, acts[0]), acts[1..])
  }

  /**
   If notified n times the callback runs n times: over every run, notifications are callbacks run, the
   counter, and the rest of the loops in progress; and when the event loop is blocked with no edge to
   report and no drain under way, the callbacks run are the notifications made.
   */
  lemma {:induction false} NotificationsConserved(n: Notifying, acts: seq<Action>)
    requires CalmRun(n, acts) && BlamelessRun(n.client.history)
    ensures var e := AfterAll(n, acts);
      && NotifyingOk(e)
      && e.notified == e.ran + Counter(e) + |e.remaining|
      && (var s := Loop(e.client);
          s.pc.Waiting? && s.edges == {} && s.drains == map[] && Watched(s.reg, e.client.src) ==> e.ran == e.notified)
    decreases |acts|
  {
    if acts == [] {
      BlockedRanAll(n);
    } else {
      CalmActIsBlameless(n, acts[0]);
      NotificationsConserved(Acted(n, acts[0]), acts[1..]);
    }
  }

  lemma BlockedRanAll(n: Notifying)
    requires NotifyingOk(n) && BlamelessRun(n.client.history)
    ensures var s := Loop(n.client);
      s.pc.Waiting? && s.edges == {} && s.drains == map[] && Watched(s.reg, n.client.src) ==> n.ran == n.notified
  {
    var s := Loop(n.client);
    if s.pc.Waiting? && s.edges == {} && s.drains == map[] && Watched(s.reg, n.client.src) {
      BlockedMeansEmpty(n.client.history, n.client.src);
      forall who ensures who !in n.remaining {
        assert !InProgress(s, n.client.src, who) by { match who case Dispatcher => case InDrain(_) => }
      }
      assert n.remaining == multiset{};
    }
  }

  // ---------------------------------------------------------------------------------------------
  // From the construction on
  // ---------------------------------------------------------------------------------------------

  /** The constructor has its eventfd, which nobody knows yet, and the event loop may be anywhere. */
  ghost function Created(history: seq<LoopSystem.Step>, src: Source): Notifying {
    Notifying(Client(history, src, map[]), 0, 0, multiset{})
  }

  ghost predicate Creates(history: seq<LoopSystem.Step>, src: Source) {
    && IsHistory(history) && BlamelessRun(history)
    && LoopSystem.Unread(LoopSystem.After(LoopSystem.INIT, history), src) == 0
  }

  /**
   So from its construction on, whatever other threads and the dispatcher do between its registration and
   the end of the drain, a notifier that was notified n times has run its callback n times when all is quiet.
   */
  lemma {:induction false} NotifiedFromConstruction(history: seq<LoopSystem.Step>, src: Source, acts: seq<Action>)
    requires Creates(history, src) && CalmRun(Created(history, src), acts)
    ensures var e := AfterAll(Created(history, src), acts);
      && NotifyingOk(e)
      && e.notified == e.ran + Counter(e) + |e.remaining|
      && (var s := Loop(e.client);
          s.pc.Waiting? && s.edges == {} && s.drains == map[] && Watched(s.reg, e.client.src) ==> e.ran == e.notified)
  {
    NotificationsConserved(Created(history, src), acts);
  }

  lemma CreatedIsOk(history: seq<LoopSystem.Step>, src: Source)
    requires Creates(history, src)
    ensures NotifyingOk(Created(history, src)) && Counter(Created(history, src)) == 0
  {}

  /** The registration of the constructor: the eventfd is watched and a drain is due that has nothing to find. */
  lemma RegisteringIsCalm(n: Notifying, h: Handler, a: Addr, id: nat)
    requires NotifyingOk(n)
    requires LoopSystem.Enabled(Loop(n.client), Registers(n, h, a, id)) && n.client.src.fd !in Loop(n.client).reg.index
    ensures CanAct(n, Meanwhile(Registers(n, h, a, id))) && Calm(n, Meanwhile(Registers(n, h, a, id)))
    ensures var t := Acted(n, Meanwhile(Registers(n, h, a, id)));
      && NotifyingOk(t) && InProgress(Loop(t.client), n.client.src, InDrain(id))
      && Watched(Loop(t.client).reg, n.client.src)
      && t.client.results == n.client.results && t.remaining == n.remaining
  {
    var src := n.client.src;
    var s := Loop(n.client);
    LoopSafety.RunSafe(n.client.history);
    AddSucceedsExactly(s.reg, src.fd, src.dir, h, a, true);
    AddKeepsValid(s.reg, src.fd, src.dir, h, a, true);
    ActKeepsOk(n, Meanwhile(Registers(n, h, a, id)));
    MoveKeepsOk(n.client, Elsewhere(Registers(n, h, a, id)));
  }

  function Registers(n: Notifying, h: Handler, a: Addr, id: nat): LoopSystem.Step {
    LoopSystem.AddHandler(n.client.src.fd, n.client.src.dir, h, a, true, id)
  }

  /** A drain that has not read the counter yet can do so and, once its callbacks have run, end. */
  lemma DrainEnds(n: Notifying, id: nat)
    requires NotifyingOk(n) && InProgress(Loop(n.client), n.client.src, InDrain(id))
    requires InDrain(id) !in n.client.results && Counter(n) == 0
    ensures CanAct(n, ReadCounter(InDrain(id)))
    ensures var t := Acted(n, ReadCounter(InDrain(id)));
      NotifyingOk(t) && CanAct(t, ProcessReturns(InDrain(id)))
  {
    var read := ReadCounter(InDrain(id));
    ActKeepsOk(n, read);
    MoveKeepsOk(n.client, MoveOf(n, read));
  }

  /** The constructor undisturbed, action by action. */
  lemma ConstructorActs(n: Notifying, h: Handler, a: Addr, id: nat) returns (registered: Notifying, read: Notifying)
    requires NotifyingOk(n) && n.client.src.fd !in Loop(n.client).reg.index && Counter(n) == 0
    requires n.client.results == map[] && LoopSystem.Enabled(Loop(n.client), Registers(n, h, a, id))
    ensures CanAct(n, Meanwhile(Registers(n, h, a, id))) && Calm(n, Meanwhile(Registers(n, h, a, id)))
    ensures registered == Acted(n, Meanwhile(Registers(n, h, a, id))) && NotifyingOk(registered)
    ensures CanAct(registered, ReadCounter(InDrain(id))) && read == Acted(registered, ReadCounter(InDrain(id)))
    ensures NotifyingOk(read) && CanAct(read, ProcessReturns(InDrain(id)))
    ensures var e := Acted(read, ProcessReturns(InDrain(id)));
      && NotifyingOk(e) && Watched(Loop(e.client).reg, n.client.src) && Counter(e) == 0
      && Loop(e.client).drains.Keys == Loop(n.client).drains.Keys
  {
    RegisteringIsCalm(n, h, a, id);
    RegistersQuietly(n, h, a, id);
    registered := Acted(n, Meanwhile(Registers(n, h, a, id)));
    CounterAfter(n, Meanwhile(Registers(n, h, a, id)));
    DrainEnds(registered, id);
    ReadsQuietly(registered, id);
    read := Acted(registered, ReadCounter(InDrain(id)));
    CounterAfter(registered, ReadCounter(InDrain(id)));
    CounterAfter(read, ProcessReturns(InDrain(id)));
    ReturnsQuietly(read, id);
  }

  lemma CalmStep(n: Notifying, a: Action, rest: seq<Action>)
    requires NotifyingOk(n) && CanAct(n, a) && Calm(n, a) && (rest == [] ==> NotifyingOk(Acted(n, a)))
    requires rest != [] ==> CalmRun(Acted(n, a), rest)
    ensures CalmRun(Acted(n, a), rest) && CalmRun(n, [a] + rest)
    ensures AfterAll(n, [a] + rest) == AfterAll(Acted(n, a), rest)
  {
    assert ([a] + rest)[1..] == rest;
  }

  lemma ThreeSteps(n: Notifying, a: Action, m: Notifying, b: Action, k: Notifying, c: Action)
    requires NotifyingOk(n) && CanAct(n, a) && Calm(n, a) && m == Acted(n, a)
    requires NotifyingOk(m) && CanAct(m, b) && Calm(m, b) && k == Acted(m, b)
    requires NotifyingOk(k) && CanAct(k, c) && Calm(k, c) && NotifyingOk(Acted(k, c))
    ensures CalmRun(n, [a] + ([b] + [c])) && AfterAll(n, [a] + ([b] + [c])) == Acted(k, c)
  {
    CalmStep(k, c, []);
    assert [c] + [] == [c];
    CalmStep(m, b, [c]);
    CalmStep(n, a, [b] + [c]);
  }

  /**
   The constructor undisturbed, with an eventfd that nobody knows: afterwards it is watched, and no drain is
   left over.
   */
  lemma {:induction false} ConstructedIsOk(n: Notifying, h: Handler, a: Addr, id: nat)
    requires NotifyingOk(n) && n.client.src.fd !in Loop(n.client).reg.index && Counter(n) == 0
    requires n.client.results == map[] && LoopSystem.Enabled(Loop(n.client), Registers(n, h, a, id))
    ensures var acts :=
        [Meanwhile(Registers(n, h, a, id))] + ([ReadCounter(InDrain(id))] + [ProcessReturns(InDrain(id))]);
      && CalmRun(n, acts)
      && var e := AfterAll(n, acts);
      && NotifyingOk(e) && Watched(Loop(e.client).reg, n.client.src) && Counter(e) == 0
      && Loop(e.client).drains.Keys == Loop(n.client).drains.Keys
  {
    var registered, read := ConstructorActs(n, h, a, id);
    ThreeSteps(n, Meanwhile(Registers(n, h, a, id)), registered, ReadCounter(InDrain(id)), read,
               ProcessReturns(InDrain(id)));
  }

  lemma RegistersQuietly(n: Notifying, h: Handler, a: Addr, id: nat)
    requires NotifyingOk(n) && CanAct(n, Meanwhile(Registers(n, h, a, id)))
    requires n.client.src.fd !in Loop(n.client).reg.index
    ensures NotifyingOk(Acted(n, Meanwhile(Registers(n, h, a, id))))
    ensures var s, t := Loop(n.client), Loop(Acted(n, Meanwhile(Registers(n, h, a, id))).client);
      id !in s.drains && t.drains.Keys == s.drains.Keys + {id}
  {
    var s := Loop(n.client);
    var src := n.client.src;
    LoopSafety.RunSafe(n.client.history);
    AddSucceedsExactly(s.reg, src.fd, src.dir, h, a, true);
    ActKeepsOk(n, Meanwhile(Registers(n, h, a, id)));
    MoveKeepsOk(n.client, Elsewhere(Registers(n, h, a, id)));
  }

  lemma ReadsQuietly(n: Notifying, id: nat)
    requires NotifyingOk(n) && CanAct(n, ReadCounter(InDrain(id)))
    ensures NotifyingOk(Acted(n, ReadCounter(InDrain(id))))
    ensures var s, t := Loop(n.client), Loop(Acted(n, ReadCounter(InDrain(id))).client);
      t.reg == s.reg && t.drains.Keys == s.drains.Keys
  {
    ActKeepsOk(n, ReadCounter(InDrain(id)));
    MoveKeepsOk(n.client, MoveOf(n, ReadCounter(InDrain(id))));
  }

  lemma ReturnsQuietly(n: Notifying, id: nat)
    requires NotifyingOk(n) && CanAct(n, ProcessReturns(InDrain(id))) && n.client.results[InDrain(id)].ret <= 0
    ensures NotifyingOk(Acted(n, ProcessReturns(InDrain(id))))
    ensures var s, t := Loop(n.client), Loop(Acted(n, ProcessReturns(InDrain(id))).client);
      t.reg == s.reg && t.drains.Keys == s.drains.Keys - {id} && t.unread == s.unread
  {
    ActKeepsOk(n, ProcessReturns(InDrain(id)));
    MoveKeepsOk(n.client, Return(InDrain(id)));
  }
}
