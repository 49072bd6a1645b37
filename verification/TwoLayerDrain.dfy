/**
 A socket in the event loop: its unread work sits in two layers, the read-ahead buffer and the
 kernel's queue, and its handler returns the result of a non-empty receive.
 */
module TwoLayerDrain {
  import opened Connection
  import opened BufferedReading
  import opened Registration
  import LoopSystem
  import opened LoopWakeups
  import opened LoopFairness
  import opened LoopClient

  /** The event loop with the socket as a client, the bytes read ahead, and the kernel's end. */
  datatype Socket = Socket(client: Client, left: seq<byte>, kernel: Inbound)

  datatype Action =
    | Meanwhile(step: LoopSystem.Step)
    | Deliver(n: nat)
    | Receive(who: Who, len: nat)
    | HandlerReturns(who: Who)

  /** Bytes that arrive while a receive is in its readv. */
  function Arriving(left: seq<byte>, k: Inbound, len: nat): nat {
    if |left| == 0 && len > 0 && k.script != [] then Min(k.script[0].arrives, |k.future|) else 0
  }

  function Verdict(r: RecvResult): Outcome {
    Outcome(r.ret, r.ret < 0 && r.errno != Again)
  }

  /** What the action does to the bytes. */
  function BytesAfter(c: Socket, a: Action): (seq<byte>, Inbound)
    requires a.Deliver? ==> a.n <= |c.kernel.future|
  {
    match a
    case Deliver(n) =>
      (c.left, c.kernel.(queue := c.kernel.queue + c.kernel.future[..n], future := c.kernel.future[n..]))
    case Receive(_, len) =>
      var r := Received(c.left, c.kernel, len);
      (r.left, r.next)
    case _ => (c.left, c.kernel)
  }

  /** The unread work the event loop knows of is what the two layers hold. */
  ghost predicate SocketOk(c: Socket) {
    && ClientOk(c.client)
    && LoopSystem.Unread(Loop(c.client), c.client.src) == |c.left| + |c.kernel.queue|
  }

  /** Receiving is for the handler only, and never for zero bytes. */
  ghost predicate CanAct(c: Socket, a: Action)
    requires SocketOk(c)
  {
    match a
    case Meanwhile(step) => CanMove(c.client, Elsewhere(step))
    case Deliver(n) => 0 < n <= |c.kernel.future|
    case Receive(who, len) => len > 0 && InProgress(Loop(c.client), c.client.src, who)
    case HandlerReturns(who) => CanMove(c.client, Return(who))
  }

  ghost function Acted(c: Socket, a: Action): Socket
    requires SocketOk(c) && CanAct(c, a)
  {
    var (left, kernel) := BytesAfter(c, a);
    match a
    case Meanwhile(step) => Socket(Moved(c.client, Elsewhere(step)), left, kernel)
    case Deliver(n) => Socket(Moved(c.client, Produce(n)), left, kernel)
    case HandlerReturns(who) => Socket(Moved(c.client, Return(who)), left, kernel)
    case Receive(who, len) => Socket(ReceiveMoved(c, who, len), left, kernel)
  }

  /** The arrivals first, then the bytes taken. */
  ghost function ReceiveMoved(c: Socket, who: Who, len: nat): Client
    requires SocketOk(c) && CanAct(c, Receive(who, len))
  {
    var come := Arriving(c.left, c.kernel, len);
    var r := Received(c.left, c.kernel, len);
    ReceiveLegal(c, who, len);
    var d := if come > 0 then Moved(c.client, Produce(come)) else c.client;
    Moved(d, Consume(who, |r.data|, Verdict(r)))
  }

  /** A receive gives up exactly when it has to ask the kernel and readv fails, or its script is over. */
  lemma GivesUpExactly(left: seq<byte>, k: Inbound, len: nat)
    requires len > 0
    ensures Verdict(Received(left, k, len)).gaveUp <==> left == [] && (k.script == [] || k.script[0].fails)
    ensures Verdict(Received(left, k, len)).ret == Received(left, k, len).ret
  {
    if |left| == 0 {
      ReadvExactly(k, len + BUFFER_SIZE);
    }
  }

  /** Two layers, one count: what recv takes leaves exactly the rest, and nothing when it says so. */
  lemma ReceiveCounts(left: seq<byte>, k: Inbound, len: nat)
    requires len > 0
    ensures var come := Arriving(left, k, len);
      var r := Received(left, k, len);
      && |r.data| + |r.left| + |r.next.queue| == |left| + |k.queue| + come
      && (r.ret <= 0 && !Verdict(r).gaveUp ==> |r.data| == |left| + |k.queue| + come)
  {
    if |left| == 0 {
      NotPositiveMeansDrained(left, k, len);
      var v := Readv(k, len + BUFFER_SIZE);
      SharedConserves(v, len, []);
    }
  }

  lemma ProduceGrows(c: Client, n: nat)
    requires ClientOk(c) && n > 0
    ensures CanMove(c, Produce(n)) && ClientOk(Moved(c, Produce(n)))
    ensures LoopSystem.Unread(Loop(Moved(c, Produce(n))), c.src) == LoopSystem.Unread(Loop(c), c.src) + n
    ensures forall who :: InProgress(Loop(c), c.src, who) ==> InProgress(Loop(Moved(c, Produce(n))), c.src, who)
  {
    MoveKeepsOk(c, Produce(n));
  }

  lemma ConsumeShrinks(c: Client, who: Who, n: nat, outcome: Outcome)
    requires ClientOk(c) && CanMove(c, Consume(who, n, outcome))
    ensures ClientOk(Moved(c, Consume(who, n, outcome)))
    ensures LoopSystem.Unread(Loop(Moved(c, Consume(who, n, outcome))), c.src) == LoopSystem.Unread(Loop(c), c.src) - n
  {
    MoveKeepsOk(c, Consume(who, n, outcome));
  }

  lemma ReceiveLegal(c: Socket, who: Who, len: nat)
    requires SocketOk(c) && CanAct(c, Receive(who, len))
    ensures var come := Arriving(c.left, c.kernel, len);
      var r := Received(c.left, c.kernel, len);
      && (come > 0 ==> CanMove(c.client, Produce(come)))
      && var d := if come > 0 then Moved(c.client, Produce(come)) else c.client;
      && ClientOk(d) && d.src == c.client.src && CanMove(d, Consume(who, |r.data|, Verdict(r)))
      && LoopSystem.Unread(Loop(d), d.src) == |c.left| + |c.kernel.queue| + come
  {
    var come := Arriving(c.left, c.kernel, len);
    ReceiveCounts(c.left, c.kernel, len);
    if come > 0 {
      ProduceGrows(c.client, come);
    }
  }

  /** Reading is never to blame; only returning is. */
  lemma ReadIsBlameless(c: Client, m: Move)
    requires ClientOk(c) && CanMove(c, m) && (m.Consume? || m.Produce?) && BlamelessRun(c.history)
    ensures ClientOk(Moved(c, m)) && BlamelessRun(Moved(c, m).history)
  {
    MoveEnabled(c, m);
    MoveKeepsOk(c, m);
    RunSnoc(c.history, LoopStep(c, m));
  }

  lemma ReceiveKeepsOk(c: Socket, who: Who, len: nat)
    requires SocketOk(c) && CanAct(c, Receive(who, len))
    ensures SocketOk(Acted(c, Receive(who, len)))
  {
    ReceiveLegal(c, who, len);
    ReceiveCounts(c.left, c.kernel, len);
    var come := Arriving(c.left, c.kernel, len);
    var d := if come > 0 then Moved(c.client, Produce(come)) else c.client;
    var r := Received(c.left, c.kernel, len);
    ConsumeShrinks(d, who, |r.data|, Verdict(r));
  }

  lemma ReceiveIsBlameless(c: Socket, who: Who, len: nat)
    requires SocketOk(c) && CanAct(c, Receive(who, len)) && BlamelessRun(c.client.history)
    ensures ClientOk(ReceiveMoved(c, who, len)) && BlamelessRun(ReceiveMoved(c, who, len).history)
  {
    ReceiveLegal(c, who, len);
    var come := Arriving(c.left, c.kernel, len);
    if come > 0 {
      ReadIsBlameless(c.client, Produce(come));
    }
    var d := if come > 0 then Moved(c.client, Produce(come)) else c.client;
    ReadIsBlameless(d, Consume(who, |Received(c.left, c.kernel, len).data|, Verdict(Received(c.left, c.kernel, len))));
  }

  /** The three other actions are moves of the client that leave the bytes alone or add to the queue. */
  lemma PlainActKeepsOk(c: Socket, a: Action)
    requires SocketOk(c) && CanAct(c, a) && !a.Receive?
    ensures SocketOk(Acted(c, a))
  {
    match a
    case Meanwhile(step) =>
      MoveKeepsOk(c.client, Elsewhere(step));
      ForeignKeepsUnread(Loop(c.client), c.client.src, step);
    case Deliver(n) =>
      ProduceGrows(c.client, n);
    case HandlerReturns(who) =>
      MoveKeepsOk(c.client, Return(who));
  }

  lemma ActKeepsOk(c: Socket, a: Action)
    requires SocketOk(c) && CanAct(c, a)
    ensures SocketOk(Acted(c, a))
  {
    if a.Receive? {
      ReceiveKeepsOk(c, a.who, a.len);
    } else {
      PlainActKeepsOk(c, a);
    }
  }

  /** No hard error is returned to the loop, and the rest of the program forfeits nothing. */
  ghost predicate Smooth(c: Socket, a: Action)
    requires SocketOk(c) && CanAct(c, a)
  {
    (a.Meanwhile? ==> Blameless(Loop(c.client), a.step)) &&
    (a.HandlerReturns? ==> !c.client.results[a.who].gaveUp)
  }

  lemma SmoothActIsBlameless(c: Socket, a: Action)
    requires SocketOk(c) && CanAct(c, a) && Smooth(c, a) && BlamelessRun(c.client.history)
    ensures SocketOk(Acted(c, a)) && BlamelessRun(Acted(c, a).client.history)
  {
    ActKeepsOk(c, a);
    match a
    case Meanwhile(step) => FineMoveIsBlameless(c.client, Elsewhere(step));
    case Deliver(n) => ReadIsBlameless(c.client, Produce(n));
    case HandlerReturns(who) => FineMoveIsBlameless(c.client, Return(who));
    case Receive(who, len) => ReceiveIsBlameless(c, who, len);
  }

  // ---------------------------------------------------------------------------------------------
  // Runs
  // ---------------------------------------------------------------------------------------------

  ghost predicate SmoothRun(c: Socket, acts: seq<Action>)
    decreases |acts|
  {
    && SocketOk(c)
    && (acts == [] ||
        (CanAct(c, acts[0]) && Smooth(c, acts[0]) && SmoothRun(Acted(c, acts[0]), acts[1..])))
  }

  ghost function AfterAll(c: Socket, acts: seq<Action>): Socket
    requires SmoothRun(c, acts)
    decreases |acts|
  {
    if acts == [] then c else AfterAll(Acted(c, acts[0]), acts[1..])
  }

  /** Before anything happened: nothing is read ahead or queued, and the loop has not started. */
  lemma StartIsOk(src: Source, kernel: Inbound)
    requires kernel.queue == []
    ensures var c := Socket(Client([], src, map[]), [], kernel);
      SocketOk(c) && BlamelessRun(c.client.history) && SmoothRun(c, [])
  {
    assert LoopSystem.RunOk(LoopSystem.INIT, []);
  }

  /**
   The two-layer drain: over every run of the socket in the loop, bytes left in the read-ahead buffer
   or in the kernel's queue mean that the handler will be called again.
   */
  lemma {:induction false} BytesLeftAreCovered(c: Socket, acts: seq<Action>)
    requires SmoothRun(c, acts) && BlamelessRun(c.client.history)
    ensures var e := AfterAll(c, acts);
      && SocketOk(e) && e.client.src == c.client.src
      && (Watched(Loop(e.client).reg, e.client.src) && |e.left| + |e.kernel.queue| > 0 ==>
            Covered(Loop(e.client), e.client.src))
    decreases |acts|
  {
    if acts == [] {
      if Watched(Loop(c.client).reg, c.client.src) && |c.left| + |c.kernel.queue| > 0 {
        WorkIsCovered(c.client);
      }
    } else {
      SmoothActIsBlameless(c, acts[0]);
      BytesLeftAreCovered(Acted(c, acts[0]), acts[1..]);
    }
  }
}
