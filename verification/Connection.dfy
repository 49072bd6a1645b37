/** The kernel's two ends of a connection, as finite scripts of what each system call comes back with. */
module Connection {

  newtype byte = x: int | 0 <= x < 256

  /** The errno values the library tells apart. */
  datatype Errno = Again | Interrupted | Other

  /**
   One readv: how many more bytes have arrived by then, whether the peer has closed after its last
   byte, whether the call fails with a hard error, and how much the kernel hands over at most.
   */
  datatype ReadCall = ReadCall(arrives: nat, closes: bool, fails: bool, limit: nat)

  /** The bytes in the socket's queue, those the peer sends later, and what the calls come back with. */
  datatype Inbound = Inbound(queue: seq<byte>, future: seq<byte>, closed: bool, script: seq<ReadCall>)

  datatype PollOutcome = Ready | TimedOut | PollInterrupted | PollFailed

  /** One send or sendmsg: accept at most `limit` bytes, or fail. */
  datatype SendCall = Accept(limit: nat) | Refuse(errno: Errno)

  /** All bytes of the connection that the process has not taken from the kernel yet. */
  function Stream(k: Inbound): seq<byte> {
    k.queue + k.future
  }

  datatype ReadResult = ReadResult(ret: int, errno: Errno, data: seq<byte>, next: Inbound)

  function Min(a: nat, b: nat): nat {
    if a < b then a else b
  }

  /** readv into `room` bytes of buffer space. */
  function Readv(k: Inbound, room: nat): (r: ReadResult)
    requires room > 0
    ensures r.ret >= 0 ==> r.ret == |r.data| <= room
    ensures r.ret < 0 ==> r.ret == -1 && r.data == []
  {
    if k.script == [] then ReadResult(-1, Other, [], k)
    else
      var c := k.script[0];
      var come := Min(c.arrives, |k.future|);
      var queue, future := k.queue + k.future[..come], k.future[come..];
      var closed := k.closed || c.closes;
      var rest := k.script[1..];
      if c.fails then ReadResult(-1, Other, [], Inbound(queue, future, closed, rest))
      else if |queue| > 0 then
        var n := Min(Min(if c.limit == 0 then 1 else c.limit, room), |queue|);
        ReadResult(n, Other, queue[..n], Inbound(queue[n..], future, closed, rest))
      else if closed && future == [] then ReadResult(0, Other, [], Inbound(queue, future, closed, rest))
      else ReadResult(-1, Again, [], Inbound(queue, future, closed, rest))
  }

  /** A read takes a prefix of the stream; end of file and EAGAIN mean the kernel holds nothing. */
  lemma ReadvTakesPrefix(k: Inbound, room: nat)
    requires room > 0
    ensures var r := Readv(k, room);
      && r.data + Stream(r.next) == Stream(k)
      && (r.ret == 0 ==> Stream(r.next) == [])
      && (r.ret == -1 && r.errno == Again ==> r.next.queue == [] && |r.next.script| < |k.script|)
      && (r.ret >= 0 ==> |r.next.script| < |k.script|)
  {
    if k.script != [] {
      var come := Min(k.script[0].arrives, |k.future|);
      var r := Readv(k, room);
      var queue := k.queue + k.future[..come];
      Regroup(k.queue, k.future, come);
      if r.ret > 0 {
        Cut(queue, r.ret, k.future[come..]);
      }
    }
  }

  /** When it returns bytes, the end of the stream, or that there is nothing for now; otherwise it fails. */
  lemma ReadvExactly(k: Inbound, room: nat)
    requires room > 0
    ensures var r := Readv(k, room);
      if k.script == [] || k.script[0].fails then r.ret == -1 && r.errno == Other
      else
        var closed, arrives := k.closed || k.script[0].closes, k.script[0].arrives > 0 && k.future != [];
        && r.next.closed == closed
        && (r.ret > 0 <==> k.queue != [] || arrives)
        && (r.ret == 0 <==> closed && Stream(k) == [])
        && (r.ret < 0 <==> k.queue == [] && !arrives && !(closed && k.future == []))
        && (r.ret < 0 ==> r.errno == Again)
  {}

  lemma Regroup(a: seq<byte>, b: seq<byte>, n: nat)
    requires n <= |b|
    ensures (a + b[..n]) + b[n..] == a + b
  {}

  lemma Cut(a: seq<byte>, n: nat, b: seq<byte>)
    requires n <= |a|
    ensures a[..n] + (a[n..] + b) == a + b
  {}
}
