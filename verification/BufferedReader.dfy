/** The read-ahead buffer: recv answers from it first, and refills it with one readv. */
module BufferedReading {
  import opened Connection

  const BUFFER_SIZE := 65536

  datatype RecvResult = RecvResult(ret: int, errno: Errno, data: seq<byte>, left: seq<byte>, next: Inbound)

  /** What recv does to the bytes read ahead (`left`) and the kernel, for `len` bytes asked for. */
  function Received(left: seq<byte>, k: Inbound, len: nat): RecvResult {
    if |left| >= len then RecvResult(len, Other, left[..len], left[len..], k)
    else if |left| > 0 then RecvResult(|left|, Other, left, [], k)
    else Shared(Readv(k, len + BUFFER_SIZE), len)
  }

  /** A readv result shared out: the first `len` bytes to the caller, the others to the buffer. */
  function Shared(r: ReadResult, len: nat): RecvResult
    requires r.ret > len ==> |r.data| == r.ret
  {
    if r.ret > len then RecvResult(len, Other, r.data[..len], r.data[len..], r.next)
    else RecvResult(r.ret, r.errno, r.data, [], r.next)
  }

  lemma SharedConserves(r: ReadResult, len: nat, rest: seq<byte>)
    requires r.ret >= 0 ==> r.ret == |r.data|
    requires r.ret < 0 ==> r.data == []
    ensures var s := Shared(r, len); s.data + (s.left + rest) == r.data + rest && |s.data| + |s.left| == |r.data|
  {
    var s := Shared(r, len);
    assert s.data + s.left == r.data;
  }

  /** While there is something ahead, or nothing is asked for, the kernel is not. */
  lemma FromAhead(left: seq<byte>, k: Inbound, len: nat)
    requires |left| > 0 || len == 0
    ensures var n := Min(|left|, len);
      Received(left, k, len) == RecvResult(n, Other, left[..n], left[n..], k)
  {}

  /** Otherwise one readv serves both. */
  lemma FromKernel(k: Inbound, len: nat)
    requires len > 0
    ensures var v := Readv(k, len + BUFFER_SIZE);
      var n := Min(len, |v.data|);
      && Received([], k, len)
         == RecvResult(if v.ret > len then len else v.ret, if v.ret > len then Other else v.errno,
                       v.data[..n], v.data[n..], v.next)
  {}

  /** Nothing is lost, invented or reordered between the kernel and the caller. */
  lemma RecvConserves(left: seq<byte>, k: Inbound, len: nat)
    ensures var r := Received(left, k, len);
      && r.data + (r.left + Stream(r.next)) == left + Stream(k)
      && (r.ret >= 0 ==> r.ret == |r.data| <= len)
      && (r.ret < 0 ==> r.ret == -1 && r.data == [])
      && (|left| <= BUFFER_SIZE ==> |r.left| <= BUFFER_SIZE)
  {
    var r := Received(left, k, len);
    if |left| >= len {
      assert r.data + r.left == left;
    } else if |left| == 0 {
      var v := Readv(k, len + BUFFER_SIZE);
      ReadvTakesPrefix(k, len + BUFFER_SIZE);
      SharedConserves(v, len, Stream(v.next));
    }
  }

  /**
   The two-layer drain: for a non-empty request a result that is not positive comes only after the
   read-ahead buffer is empty and, unless the call failed for good, the kernel's queue too. For an
   empty request 0 says nothing: it is the answer even with bytes at hand.
   */
  lemma NotPositiveMeansDrained(left: seq<byte>, k: Inbound, len: nat)
    ensures var r := Received(left, k, len);
      && (len > 0 && r.ret <= 0 ==>
            left == [] && r.left == [] && (r.ret == 0 || r.errno == Again ==> r.next.queue == []))
      && (len == 0 ==> r.ret == 0 && r.left == left && r.next == k)
  {
    if |left| == 0 && len > 0 {
      ReadvTakesPrefix(k, len + BUFFER_SIZE);
    }
  }

  /** How many: what is read ahead, without a system call, as far as it goes; and else what one readv brings. */
  lemma RecvTakes(left: seq<byte>, k: Inbound, len: nat)
    ensures var r := Received(left, k, len);
      if left != [] || len == 0 then r.ret == |r.data| == Min(len, |left|) && r.next == k
      else
        var v := Readv(k, len + BUFFER_SIZE);
        && r.next == v.next
        && r.ret == (if v.ret > 0 then Min(len, v.ret) else v.ret)
        && |r.data| + |r.left| == |v.data|
        && (r.ret < 0 ==> r.errno == v.errno)
  {
    if left == [] && len > 0 {
      SharedConserves(Readv(k, len + BUFFER_SIZE), len, []);
    }
  }

  /** Any number of recv calls with the given lengths, successful or not. */
  function ReceivedAll(left: seq<byte>, k: Inbound, lens: seq<nat>): (seq<byte>, seq<byte>, Inbound)
    decreases |lens|
  {
    if lens == [] then ([], left, k)
    else
      var r := Received(left, k, lens[0]);
      var (data, left', k') := ReceivedAll(r.left, r.next, lens[1..]);
      (r.data + data, left', k')
  }

  /** Read-ahead agrees with the plain stream over any sequence of calls. */
  lemma {:induction false} ReadAheadAgrees(left: seq<byte>, k: Inbound, lens: seq<nat>)
    ensures var (data, left', k') := ReceivedAll(left, k, lens);
      && data + (left' + Stream(k')) == left + Stream(k)
      && (|left| <= BUFFER_SIZE ==> |left'| <= BUFFER_SIZE)
    decreases |lens|
  {
    if lens != [] {
      var r := Received(left, k, lens[0]);
      RecvConserves(left, k, lens[0]);
      ReadAheadAgrees(r.left, r.next, lens[1..]);
      var (data, left', k') := ReceivedAll(r.left, r.next, lens[1..]);
      assert r.data + data + (left' + Stream(k')) == r.data + (data + (left' + Stream(k')));
    }
  }

  /** The receiving half of a descriptor. */
  class Channel {
    var inbound: Inbound
    var errno: Errno

    constructor (k: Inbound)
      ensures inbound == k
    {
      inbound := k;
      errno := Other;
    }

    /** The network: what the peer sent is on its way. */
    method Deliver(data: seq<byte>)
      modifies this`inbound
      ensures Stream(inbound) == old(Stream(inbound)) + data
      ensures inbound.script == old(inbound).script
    {
      inbound := inbound.(future := inbound.future + data);
    }

    /** readv with two buffers: `buf[pos..pos + len]` first, then `ahead`. */
    method Readv2(buf: array<byte>, pos: nat, len: nat, ahead: array<byte>) returns (ret: int)
      requires buf != ahead && pos + len <= buf.Length && len + ahead.Length > 0
      modifies this, buf, ahead
      ensures var r := Readv(old(inbound), len + ahead.Length);
        && ret == r.ret && errno == r.errno && inbound == r.next
        && buf[..] == old(buf[..pos]) + r.data[..Min(len, |r.data|)] + old(buf[pos + Min(len, |r.data|)..])
        && (|r.data| > len ==> |r.data| - len <= ahead.Length && ahead[..|r.data| - len] == r.data[len..])
    {
      var r := Readv(inbound, len + ahead.Length);
      ret, errno, inbound := r.ret, r.errno, r.next;
      var first := Min(len, |r.data|);
      forall i | 0 <= i < first {
        buf[pos + i] := r.data[i];
      }
      forall i | 0 <= i < |r.data| - first {
        ahead[i] := r.data[first + i];
      }
    }
  }

  class BufferedReader {
    const buffer: array<byte>
    var fillLevel: nat
    var alreadyRead: nat

    predicate Valid()
      reads this
    {
      buffer.Length == BUFFER_SIZE && alreadyRead <= fillLevel <= BUFFER_SIZE
    }

    /** What has been read ahead and not been handed out. */
    function Left(): seq<byte>
      requires Valid()
      reads this, buffer
    {
      buffer[alreadyRead..fillLevel]
    }

    constructor ()
      ensures Valid() && Left() == [] && fresh(buffer)
    {
      buffer := new byte[BUFFER_SIZE](_ => 0);
      fillLevel, alreadyRead := 0, 0;
    }

    /** Hand out `n` bytes that were read ahead. */
    method TakeAhead(buf: array<byte>, pos: nat, n: nat)
      requires Valid() && buf != buffer && pos + n <= buf.Length && alreadyRead + n <= fillLevel
      modifies this`alreadyRead, buf
      ensures Valid() && Left() == old(Left())[n..]
      ensures buf[..] == old(buf[..pos]) + old(Left())[..n] + old(buf[pos + n..])
    {
      forall i | 0 <= i < n {
        buf[pos + i] := buffer[alreadyRead + i];
      }
      alreadyRead := alreadyRead + n;
    }

    /** Nothing is read ahead: fill the caller's buffer, and this one with what is there beyond that. */
    method Refill(sock: Channel, buf: array<byte>, pos: nat, desiredLen: nat) returns (ret: int)
      requires Valid() && buf != buffer && pos + desiredLen <= buf.Length
      modifies this, buffer, buf, sock
      ensures Valid()
      ensures var r := Readv(old(sock.inbound), desiredLen + BUFFER_SIZE);
        var n := Min(desiredLen, |r.data|);
        && ret == (if r.ret > desiredLen then desiredLen else r.ret)
        && sock.inbound == r.next && sock.errno == r.errno
        && Left() == r.data[n..]
        && buf[..] == old(buf[..pos]) + r.data[..n] + old(buf[pos + n..])
    {
      ret := sock.Readv2(buf, pos, desiredLen, buffer);
      alreadyRead := 0;
      if ret > desiredLen {
        fillLevel := ret - desiredLen;
        return desiredLen;
      }
      fillLevel := 0;
    }

    method Recv(sock: Channel, buf: array<byte>, pos: nat, desiredLen: nat) returns (ret: int)
      requires Valid() && buf != buffer && pos + desiredLen <= buf.Length
      modifies this, buffer, buf, sock
      ensures Valid()
      ensures var r := Received(old(Left()), old(sock.inbound), desiredLen);
        && ret == r.ret && Left() == r.left && sock.inbound == r.next
        && (ret < 0 ==> sock.errno == r.errno)
        && |r.data| <= desiredLen
        && buf[..] == old(buf[..pos]) + r.data + old(buf[pos + |r.data|..])
    {
      var bytesLeft := fillLevel - alreadyRead;
      if bytesLeft >= desiredLen {
        FromAhead(Left(), sock.inbound, desiredLen);
        TakeAhead(buf, pos, desiredLen);
        return desiredLen;
      } else if bytesLeft > 0 {
        FromAhead(Left(), sock.inbound, desiredLen);
        TakeAhead(buf, pos, bytesLeft);
        return bytesLeft;
      }
      FromKernel(sock.inbound, desiredLen);
      assert Left() == [];
      ret := Refill(sock, buf, pos, desiredLen);
    }
  }
}
