/** The blocking transfers of SocketNonblocking: receiveComplete, sendBlock and sendBlocks. */
module SocketTransfers {
  import opened Common
  import opened Connection
  import opened BufferedReading
  import opened Scripts

  // ---------------------------------------------------------------------------------------------
  // What the transfers promise
  // ---------------------------------------------------------------------------------------------

  /** static_cast<int> of a size. */
  function ToInt(n: nat): int {
    var m := n % UINT_RANGE;
    if m < UINT_RANGE / 2 then m else m - UINT_RANGE
  }

  /**
   `data` was stored and the stream went from `before` to `after`: all that was asked for, or all there
   was before the end of the stream, or an error. The early return converts the count to int.
   */
  ghost predicate Completed(size: nat, ret: int, data: seq<byte>, before: seq<byte>, after: seq<byte>) {
    && data + after == before
    && |data| <= size
    && ((ret == size && |data| == size)
        || (ret == ToInt(|data|) && |data| < size && after == [])
        || (ret == -1 && |data| < size))
  }

  ghost predicate SameBytes(a: seq<byte>, b: seq<byte>) {
    a == b
  }

  lemma CompletedWith(size: nat, ret: int, data: seq<byte>, before: seq<byte>, after: seq<byte>)
    requires data + after == before && |data| <= size
    requires if |data| == size then ret == size else ret == -1 || (ret == ToInt(|data|) && after == [])
    ensures Completed(size, ret, data, before, after)
  {}

  /** The wire got a prefix of the payload, all of it when the result is its length. */
  ghost predicate Sent(wire: seq<byte>, wire': seq<byte>, payload: seq<byte>, ret: int) {
    exists n: nat :: SentPrefix(wire, wire', payload, ret, n)
  }

  ghost predicate SentPrefix(wire: seq<byte>, wire': seq<byte>, payload: seq<byte>, ret: int, n: nat) {
    && n <= |payload|
    && wire' == wire + payload[..n]
    && (ret == |payload| || ret == 0 || ret == -1)
    && (ret == |payload| ==> n == |payload|)
    && (ret != |payload| ==> n < |payload| || payload == [])
  }

  /** What poll returns for a single descriptor, once it is not interrupted. */
  function PollCode(outcome: PollOutcome): int {
    match outcome
    case Ready => 1
    case TimedOut => 0
    case _ => -1
  }

  /** After n interruptions the next outcome decided; without one poll failed. */
  ghost predicate DecidedAt(before: seq<PollOutcome>, after: seq<PollOutcome>, ret: int, n: nat) {
    && n <= |before|
    && (forall i :: 0 <= i < n ==> before[i] == PollInterrupted)
    && if n < |before| then before[n] != PollInterrupted && ret == PollCode(before[n]) && after == before[n + 1..]
       else ret == -1 && after == []
  }

  ghost predicate PollDecided(before: seq<PollOutcome>, after: seq<PollOutcome>, ret: int) {
    exists n: nat :: DecidedAt(before, after, ret, n)
  }

  /** The same in outcomes. */
  lemma DecidedMeans(before: seq<PollOutcome>, after: seq<PollOutcome>, ret: int, n: nat)
    requires DecidedAt(before, after, ret, n)
    ensures Rest(before, after)
    ensures ret == 1 <==> Waited(Used(before, after), Ready)
    ensures ret != 1 <==> GaveUp(Used(before, after), after)
    ensures -1 <= ret <= 1 && (ret == 0 <==> Waited(Used(before, after), TimedOut))
  {
    if n < |before| {
      assert Used(before, after) == before[..n + 1];
    } else {
      assert Used(before, after) == before;
    }
  }

  /** The recv of a transfer fails for good: nothing is read ahead, and readv fails or its script is over. */
  ghost predicate HardError(left: seq<byte>, k: Inbound) {
    left == [] && (k.script == [] || k.script[0].fails)
  }

  /** It would block. */
  ghost predicate WouldBlock(left: seq<byte>, k: Inbound, len: nat) {
    Received(left, k, len).ret < 0 && Received(left, k, len).errno == Again
  }

  /** What a recv uses up of its script. */
  ghost predicate ReadUsed(left: seq<byte>, k: Inbound, after: seq<ReadCall>) {
    && Rest(k.script, after)
    && if HardError(left, k) then
         if k.script == [] then after == [] else Used(k.script, after) == [k.script[0]]
       else NoneFails(Used(k.script, after))
  }

  /** What a recv returns, with errno in hand: which failures are for good, and what it uses up. */
  ghost predicate RecvEnded(ret: int, again: bool, left: seq<byte>, k: Inbound, len: nat, after: seq<ReadCall>) {
    && ret == Received(left, k, len).ret
    && (ret < 0 && !again <==> HardError(left, k))
    && (ret < 0 && again <==> WouldBlock(left, k, len))
    && ReadUsed(left, k, after)
    && |after| <= |k.script|
    && (ret < 0 && again ==> |after| < |k.script|)
  }

  lemma RecvStores(left: seq<byte>, k: Inbound, len: nat)
    requires len > 0
    ensures var r := Received(left, k, len);
      && |r.data| == (if r.ret > 0 then r.ret else 0) && |r.data| <= len
      && r.data + (r.left + Stream(r.next)) == left + Stream(k)
      && (r.ret == 0 ==> r.left + Stream(r.next) == [])
  {
    RecvConserves(left, k, len);
    ReceivedMeans(left, k, len);
  }

  lemma StoredBetween(now: seq<byte>, before: seq<byte>, piece: seq<byte>, behind: seq<byte>)
    requires now == before + piece + behind
    ensures now[..|before|] == before && now[|before|..|before| + |piece|] == piece
    ensures now[|before| + |piece|..] == behind
  {}

  lemma RecvEndedBy(left: seq<byte>, k: Inbound, len: nat, again: bool)
    requires len > 0 && var r := Received(left, k, len); r.ret < 0 ==> again == (r.errno == Again)
    ensures var r := Received(left, k, len); RecvEnded(r.ret, again, left, k, len, r.next.script)
  {
    ReceivedScript(left, k, len);
    ReceivedMeans(left, k, len);
  }

  /**
   How a turn of receiveComplete ends: it fails exactly for a recv that fails for good, or one that would
   block and a wait that gives up; it goes on with nothing stored exactly after a wait that ended ready.
   */
  ghost predicate TurnEnded(turn: Turn, got: nat, left: seq<byte>, k: Inbound, len: nat, after: seq<ReadCall>,
                            polls: seq<PollOutcome>, pollsAfter: seq<PollOutcome>) {
    && ReadUsed(left, k, after) && Rest(polls, pollsAfter)
    && (turn == Failed <==>
          HardError(left, k) || (WouldBlock(left, k, len) && GaveUp(Used(polls, pollsAfter), pollsAfter)))
    && (turn == More && got == 0 <==> WouldBlock(left, k, len) && Waited(Used(polls, pollsAfter), Ready))
    && (turn == End <==> Received(left, k, len).ret == 0)
    && got == (if Received(left, k, len).ret > 0 then Received(left, k, len).ret else 0)
    && (!WouldBlock(left, k, len) ==> pollsAfter == polls)
  }

  /** Reads that did not fail and waits that ended ready. */
  ghost predicate OnTrack(script: seq<ReadCall>, after: seq<ReadCall>, polls: seq<PollOutcome>,
                          pollsAfter: seq<PollOutcome>) {
    && Rest(script, after) && NoneFails(Used(script, after))
    && Rest(polls, pollsAfter) && ReadyTimes(Used(polls, pollsAfter), Readies(Used(polls, pollsAfter)))
  }

  /** How a transfer ends: it fails only after a read that failed for good, or a wait that gave up. */
  ghost predicate ReceiveEnded(how: Turn, script: seq<ReadCall>, after: seq<ReadCall>, polls: seq<PollOutcome>,
                               pollsAfter: seq<PollOutcome>) {
    && Rest(script, after) && Rest(polls, pollsAfter)
    && if how == Failed then
         || (ReadStopped(Used(script, after), after) && Agreeable(Used(polls, pollsAfter)))
         || (NoneFails(Used(script, after)) && PollStopped(Used(polls, pollsAfter), pollsAfter))
       else NoneFails(Used(script, after)) && Agreeable(Used(polls, pollsAfter))
  }

  /** No read fails and no wait gives up, and neither script comes to its end. */
  ghost predicate Willing(script: seq<ReadCall>, after: seq<ReadCall>, polls: seq<PollOutcome>,
                          pollsAfter: seq<PollOutcome>) {
    NoneFails(script) && Agreeable(polls) && after != [] && pollsAfter != []
  }

  lemma HonestNeverFails(how: Turn, script: seq<ReadCall>, after: seq<ReadCall>, polls: seq<PollOutcome>,
                         pollsAfter: seq<PollOutcome>)
    requires ReceiveEnded(how, script, after, polls, pollsAfter)
    ensures Willing(script, after, polls, pollsAfter) ==> how != Failed
  {
    if Willing(script, after, polls, pollsAfter) {
      HonestNeverStops(script, after);
      AgreeableNeverStops(polls, pollsAfter);
    }
  }

  lemma OnTrackYet(script: seq<ReadCall>, polls: seq<PollOutcome>)
    ensures OnTrack(script, script, polls, polls)
  {
    UsedNothing(script);
    UsedNothing(polls);
  }

  lemma OnTrackEnds(script: seq<ReadCall>, after: seq<ReadCall>, polls: seq<PollOutcome>,
                    pollsAfter: seq<PollOutcome>)
    requires OnTrack(script, after, polls, pollsAfter)
    ensures ReceiveEnded(More, script, after, polls, pollsAfter)
  {}

  /** What a turn adds to it. */
  lemma TurnTracked(script: seq<ReadCall>, polls: seq<PollOutcome>, turn: Turn, got: nat, left: seq<byte>, k: Inbound,
                    len: nat, after: seq<ReadCall>, pollsBefore: seq<PollOutcome>, pollsAfter: seq<PollOutcome>)
    requires OnTrack(script, k.script, polls, pollsBefore)
    requires TurnEnded(turn, got, left, k, len, after, pollsBefore, pollsAfter)
    ensures turn != Failed ==> OnTrack(script, after, polls, pollsAfter)
    ensures ReceiveEnded(turn, script, after, polls, pollsAfter)
  {
    if turn == Failed {
      TurnFailed(script, polls, left, k, len, after, pollsBefore, pollsAfter);
    } else {
      UsedOnward(script, k.script, after);
      TurnWaited(polls, turn, got, left, k, len, after, pollsBefore, pollsAfter);
    }
  }

  lemma TurnWaited(polls: seq<PollOutcome>, turn: Turn, got: nat, left: seq<byte>, k: Inbound, len: nat,
                   after: seq<ReadCall>, pollsBefore: seq<PollOutcome>, pollsAfter: seq<PollOutcome>)
    requires Rest(polls, pollsBefore) && ReadyTimes(Used(polls, pollsBefore), Readies(Used(polls, pollsBefore)))
    requires turn != Failed && TurnEnded(turn, got, left, k, len, after, pollsBefore, pollsAfter)
    ensures Rest(polls, pollsAfter) && ReadyTimes(Used(polls, pollsAfter), Readies(Used(polls, pollsAfter)))
  {
    UsedOnward(polls, pollsBefore, pollsAfter);
    if WouldBlock(left, k, len) {
      assert turn == More && got == 0;
      ReadyOnceMore(Used(polls, pollsBefore), Used(pollsBefore, pollsAfter), Readies(Used(polls, pollsBefore)));
    }
  }

  lemma TurnFailed(script: seq<ReadCall>, polls: seq<PollOutcome>, left: seq<byte>, k: Inbound, len: nat,
                   after: seq<ReadCall>, pollsBefore: seq<PollOutcome>, pollsAfter: seq<PollOutcome>)
    requires OnTrack(script, k.script, polls, pollsBefore)
    requires TurnEnded(Failed, 0, left, k, len, after, pollsBefore, pollsAfter)
    ensures ReceiveEnded(Failed, script, after, polls, pollsAfter)
  {
    UsedOnward(script, k.script, after);
    UsedOnward(polls, pollsBefore, pollsAfter);
    if HardError(left, k) {
      UsedNothing(pollsBefore);
      if k.script == [] {
        UsedNothing(after);
      }
      assert Used(pollsBefore, pollsAfter) == [] || WouldBlock(left, k, len);
      ReadStoppedAfter(Used(script, k.script), Used(k.script, after), after);
    } else {
      StoppedAfter(Used(polls, pollsBefore), Used(pollsBefore, pollsAfter), Readies(Used(polls, pollsBefore)),
                   pollsAfter);
    }
  }

  lemma ReceivedScript(left: seq<byte>, k: Inbound, len: nat)
    requires len > 0
    ensures var r := Received(left, k, len);
      && (r.ret < 0 && r.errno != Again <==> HardError(left, k))
      && ReadUsed(left, k, r.next.script)
  {
    if |left| > 0 || k.script == [] {
      UsedNothing(k.script);
    } else {
      UsedOne(k.script);
    }
  }

  // ---------------------------------------------------------------------------------------------
  // How sends end
  // ---------------------------------------------------------------------------------------------

  /** What a send or sendmsg returns in an outcome, with errno after a failure. */
  ghost predicate Answered(call: SendCall, size: nat, ret: int, errno: Errno) {
    match call
    case Accept(limit) => ret == Min(limit, size)
    case Refuse(e) => ret == -1 && errno == e
  }

  /** One sendmsg, in the outcome its script has for it. */
  ghost predicate SomeSent(sends: seq<SendCall>, after: seq<SendCall>, size: nat, turn: Turn, written: nat) {
    if sends == [] then after == [] && turn == Failed && written == 0
    else
      && Rest(sends, after) && Used(sends, after) == [sends[0]]
      && match sends[0]
         case Accept(limit) => written == Min(limit, size) && turn == if limit == 0 || size == 0 then End else More
         case Refuse(errno) => written == 0 && turn == if errno == Other then Failed else More
  }

  /** One send of a flat write with the wait that may follow. */
  ghost predicate OnceSent(sends: seq<SendCall>, after: seq<SendCall>, polls: seq<PollOutcome>,
                           pollsAfter: seq<PollOutcome>, size: nat, turn: Turn, written: nat) {
    && Rest(polls, pollsAfter)
    && if sends == [] then after == [] && turn == Failed && written == 0 && pollsAfter == polls
       else
         && Rest(sends, after) && Used(sends, after) == [sends[0]]
         && match sends[0]
            case Accept(limit) =>
              && written == Min(limit, size) && pollsAfter == polls
              && turn == if limit == 0 || size == 0 then Failed else More
            case Refuse(errno) =>
              && written == 0
              && if errno == Again then
                   && (turn == More <==> Waited(Used(polls, pollsAfter), Ready))
                   && (turn == Failed <==> GaveUp(Used(polls, pollsAfter), pollsAfter))
                 else pollsAfter == polls && turn == if errno == Interrupted then More else Failed
  }

  /** How a flat write ends, in the outcomes it used up. */
  ghost predicate BlockEnded(complete: bool, sends: seq<SendCall>, after: seq<SendCall>, polls: seq<PollOutcome>,
                             pollsAfter: seq<PollOutcome>) {
    && Rest(sends, after) && Rest(polls, pollsAfter)
    && if complete then
         AllTolerable(Used(sends, after)) && ReadyTimes(Used(polls, pollsAfter), Blocked(Used(sends, after)))
       else
         || ((SendStopped(Used(sends, after), after) || EndsWith(Used(sends, after), Accept(0)))
             && Agreeable(Used(polls, pollsAfter)))
         || (AllTolerable(Used(sends, after)) && PollStopped(Used(polls, pollsAfter), pollsAfter))
  }

  /** No send is refused for good or takes nothing, no wait gives up, and neither script comes to its end. */
  ghost predicate SendWilling(sends: seq<SendCall>, after: seq<SendCall>, polls: seq<PollOutcome>,
                              pollsAfter: seq<PollOutcome>) {
    AllTolerable(sends) && Agreeable(polls) && after != [] && pollsAfter != []
  }

  lemma BlockOnTrackYet(sends: seq<SendCall>, polls: seq<PollOutcome>)
    ensures BlockEnded(true, sends, sends, polls, polls)
  {
    UsedNothing(sends);
    UsedNothing(polls);
  }

  lemma WillingNeverFails(complete: bool, sends: seq<SendCall>, after: seq<SendCall>, polls: seq<PollOutcome>,
                          pollsAfter: seq<PollOutcome>)
    requires BlockEnded(complete, sends, after, polls, pollsAfter)
    ensures SendWilling(sends, after, polls, pollsAfter) ==> complete
  {
    if SendWilling(sends, after, polls, pollsAfter) {
      TolerableNeverStops(sends, after);
      AgreeableNeverStops(polls, pollsAfter);
    }
  }

  lemma OnceTracked(sends: seq<SendCall>, sendsBefore: seq<SendCall>, after: seq<SendCall>, polls: seq<PollOutcome>,
                    pollsBefore: seq<PollOutcome>, pollsAfter: seq<PollOutcome>, size: nat, turn: Turn, written: nat)
    requires BlockEnded(true, sends, sendsBefore, polls, pollsBefore) && size > 0
    requires OnceSent(sendsBefore, after, pollsBefore, pollsAfter, size, turn, written) && turn != End
    ensures BlockEnded(turn == More, sends, after, polls, pollsAfter)
  {
    var s0, p0 := Used(sends, sendsBefore), Used(polls, pollsBefore);
    UsedOnward(polls, pollsBefore, pollsAfter);
    UsedNothing(pollsBefore);
    assert p0 + [] == p0;
    if sendsBefore == [] {
      assert Used(sends, after) == s0;
    } else {
      UsedOnward(sends, sendsBefore, after);
      EndsAfter(s0, sendsBefore[0]);
      BlockedSnoc(s0, sendsBefore[0]);
      if sendsBefore[0] == Refuse(Again) {
        if turn == More {
          ReadyOnceMore(p0, Used(pollsBefore, pollsAfter), Blocked(s0));
        } else {
          StoppedAfter(p0, Used(pollsBefore, pollsAfter), Blocked(s0), pollsAfter);
        }
      }
    }
  }

  /** Sends that were tolerable, each followed by a wait that ended ready. */
  ghost predicate GatherOnTrack(sends: seq<SendCall>, after: seq<SendCall>, polls: seq<PollOutcome>,
                                pollsAfter: seq<PollOutcome>) {
    && Rest(sends, after) && AllTolerable(Used(sends, after))
    && Rest(polls, pollsAfter) && ReadyTimes(Used(polls, pollsAfter), |Used(sends, after)|)
  }

  /** A wait that ended ready between any two sends. */
  ghost predicate ReadyBetween(sends: seq<SendCall>, polls: seq<PollOutcome>) {
    sends != [] && ReadyTimes(polls, |sends| - 1)
  }

  /** A send that took nothing, or all of nothing. */
  ghost predicate TookNothing(used: seq<SendCall>, nothing: bool) {
    EndsWith(used, Accept(0)) || (nothing && |used| == 1 && used[0].Accept?)
  }

  /**
   How a gather write ends: complete after tolerable sends with a ready wait between any two; at the end after
   a send that took nothing; failed only after a send refused for good, or a wait that gave up.
   */
  ghost predicate GatherEnded(how: Turn, nothing: bool, sends: seq<SendCall>, after: seq<SendCall>,
                              polls: seq<PollOutcome>, pollsAfter: seq<PollOutcome>) {
    && Rest(sends, after) && Rest(polls, pollsAfter)
    && match how
       case More =>
         AllTolerable(Used(sends, after)) && ReadyBetween(Used(sends, after), Used(polls, pollsAfter))
       case End =>
         TookNothing(Used(sends, after), nothing) && ReadyBetween(Used(sends, after), Used(polls, pollsAfter))
       case Failed =>
         || (SendStopped(Used(sends, after), after) && Agreeable(Used(polls, pollsAfter)))
         || (AllTolerable(Used(sends, after)) && PollStopped(Used(polls, pollsAfter), pollsAfter))
  }

  lemma GatherOnTrackYet(sends: seq<SendCall>, polls: seq<PollOutcome>)
    ensures GatherOnTrack(sends, sends, polls, polls)
  {
    UsedNothing(sends);
    UsedNothing(polls);
  }

  /** The result of a gather write of `total` bytes: how it ends, and that it sends everything when it can. */
  ghost predicate GatherResult(how: Turn, total: nat, ret: int, sends: seq<SendCall>, after: seq<SendCall>,
                               polls: seq<PollOutcome>, pollsAfter: seq<PollOutcome>) {
    && ret == (match how case More => total case End => 0 case Failed => -1)
    && GatherEnded(how, total == 0, sends, after, polls, pollsAfter)
    && (SendWilling(sends, after, polls, pollsAfter) ==> ret == total)
  }

  lemma GatherReturns(how: Turn, total: nat, sends: seq<SendCall>, after: seq<SendCall>, polls: seq<PollOutcome>,
                      pollsAfter: seq<PollOutcome>)
    requires GatherEnded(how, total == 0, sends, after, polls, pollsAfter)
    ensures GatherResult(how, total, match how case More => total case End => 0 case Failed => -1, sends, after,
                         polls, pollsAfter)
  {
    if SendWilling(sends, after, polls, pollsAfter) {
      TolerableNeverStops(sends, after);
      AgreeableNeverStops(polls, pollsAfter);
    }
  }

  /** What one sendmsg adds. */
  lemma GatherTurn(sends: seq<SendCall>, now: seq<SendCall>, after: seq<SendCall>, polls: seq<PollOutcome>,
                   pollsNow: seq<PollOutcome>, size: nat, turn: Turn, written: nat)
    requires GatherOnTrack(sends, now, polls, pollsNow) && SomeSent(now, after, size, turn, written)
    requires size > 0 || now == sends
    ensures GatherEnded(turn, size == 0, sends, after, polls, pollsNow)
  {
    if now == [] {
      assert Used(sends, after) == Used(sends, now);
    } else {
      UsedOnward(sends, now, after);
      GatherStep(Used(sends, now), now[0], Used(polls, pollsNow), size == 0);
    }
  }

  lemma GatherStep(used: seq<SendCall>, c: SendCall, polls: seq<PollOutcome>, nothing: bool)
    requires AllTolerable(used) && ReadyTimes(polls, |used|) && (nothing ==> used == [])
    ensures ReadyBetween(used + [c], polls) && EndsWith(used + [c], c)
    ensures Tolerable(c) ==> AllTolerable(used + [c])
    ensures c.Accept? && (c.limit == 0 || nothing) ==> TookNothing(used + [c], nothing)
  {
    EndsAfter(used, c);
  }

  /** What the wait after it adds. */
  lemma GatherWait(nothing: bool, sends: seq<SendCall>, after: seq<SendCall>, polls: seq<PollOutcome>,
                   pollsNow: seq<PollOutcome>, pollsAfter: seq<PollOutcome>)
    requires GatherEnded(More, nothing, sends, after, polls, pollsNow) && Rest(pollsNow, pollsAfter)
    ensures Waited(Used(pollsNow, pollsAfter), Ready) ==> GatherOnTrack(sends, after, polls, pollsAfter)
    ensures GaveUp(Used(pollsNow, pollsAfter), pollsAfter) ==>
      GatherEnded(Failed, nothing, sends, after, polls, pollsAfter)
  {
    var n := |Used(sends, after)| - 1;
    UsedOnward(polls, pollsNow, pollsAfter);
    if Waited(Used(pollsNow, pollsAfter), Ready) {
      ReadyOnceMore(Used(polls, pollsNow), Used(pollsNow, pollsAfter), n);
    }
    if GaveUp(Used(pollsNow, pollsAfter), pollsAfter) {
      StoppedAfter(Used(polls, pollsNow), Used(pollsNow, pollsAfter), n, pollsAfter);
    }
  }

  /** One iovec: a piece of a memory region. */
  datatype Block = Block(region: seq<byte>, start: nat, size: nat)

  predicate InRegion(b: Block) {
    b.start + b.size <= |b.region|
  }

  function Bytes(b: Block): seq<byte>
    requires InRegion(b)
  {
    b.region[b.start..b.start + b.size]
  }

  predicate AllInRegion(blocks: seq<Block>) {
    forall i :: 0 <= i < |blocks| ==> InRegion(blocks[i])
  }

  /** The blocks one after the other, as one flat payload. */
  function Flat(blocks: seq<Block>): seq<byte>
    requires AllInRegion(blocks)
  {
    if blocks == [] then [] else Bytes(blocks[0]) + Flat(blocks[1..])
  }

  /** From some block on the array holds exactly what is missing on the wire. */
  ghost predicate Unsent(blocks: seq<Block>, wire: seq<byte>, all: seq<byte>) {
    exists pos :: 0 <= pos <= |blocks| && UnsentFrom(blocks[pos..], wire, all)
  }

  ghost predicate UnsentFrom(blocks: seq<Block>, wire: seq<byte>, all: seq<byte>) {
    AllInRegion(blocks) && wire + Flat(blocks) == all
  }

  // ---------------------------------------------------------------------------------------------
  // The object
  // ---------------------------------------------------------------------------------------------

  datatype Turn = More | End | Failed

  class SocketNonblocking {
    const channel: Channel
    const reader: BufferedReader
    // the sending half of the descriptor
    var wire: seq<byte>
    var sendScript: seq<SendCall>
    var pollScript: seq<PollOutcome>
    var errno: Errno

    predicate Valid()
      reads this, reader
    {
      reader.Valid()
    }

    /** All bytes of the connection that no receive call has returned yet. */
    function Pending(): seq<byte>
      requires Valid()
      reads this, reader, reader.buffer, channel
    {
      reader.Left() + Stream(channel.inbound)
    }

    constructor (k: Inbound, sends: seq<SendCall>, polls: seq<PollOutcome>)
      ensures Valid() && fresh(channel) && fresh(reader) && fresh(reader.buffer)
      ensures Pending() == Stream(k) && wire == [] && sendScript == sends && pollScript == polls
    {
      channel := new Channel(k);
      reader := new BufferedReader();
      wire, sendScript, pollScript, errno := [], sends, polls, Other;
    }

    /** poll, repeated while it is interrupted: the first outcome that is not decides. */
    method Poll() returns (ret: int)
      modifies this`pollScript
      ensures PollDecided(old(pollScript), pollScript, ret)
      ensures Rest(old(pollScript), pollScript)
      ensures ret == 1 <==> Waited(Used(old(pollScript), pollScript), Ready)
      ensures ret != 1 <==> GaveUp(Used(old(pollScript), pollScript), pollScript)
      ensures -1 <= ret <= 1 && (ret == 0 <==> Waited(Used(old(pollScript), pollScript), TimedOut))
    {
      ghost var interruptions := 0;
      while |pollScript| > 0
        invariant interruptions <= |old(pollScript)| && pollScript == old(pollScript)[interruptions..]
        invariant forall i :: 0 <= i < interruptions ==> old(pollScript)[i] == PollInterrupted
        decreases |pollScript|
      {
        var outcome := pollScript[0];
        pollScript := pollScript[1..];
        if outcome != PollInterrupted {
          ret := PollCode(outcome);
          assert DecidedAt(old(pollScript), pollScript, ret, interruptions);
          DecidedMeans(old(pollScript), pollScript, ret, interruptions);
          return;
        }
        interruptions := interruptions + 1;
      }
      ret := -1;
      assert DecidedAt(old(pollScript), pollScript, ret, interruptions);
      DecidedMeans(old(pollScript), pollScript, ret, interruptions);
    }

    method Receive(block: array<byte>, size: nat) returns (ret: int)
      requires Valid() && block != reader.buffer && size <= block.Length
      modifies reader, reader.buffer, channel, block
      ensures Valid()
      ensures var r := Received(old(reader.Left()), old(channel.inbound), size);
        && ret == r.ret && reader.Left() == r.left && channel.inbound == r.next
        && block[..] == r.data + old(block[|r.data|..])
    {
      RecvConserves(reader.Left(), channel.inbound, size);
      ret := reader.Recv(channel, block, 0, size);
    }

    /** One recv of receiveComplete: the bytes it stores are the next of the connection. */
    method ReceiveSome(block: array<byte>, pos: nat, sizeLeft: nat) returns (retVal: int, ghost got: nat)
      requires Valid() && block != reader.buffer && pos + sizeLeft <= block.Length && sizeLeft > 0
      modifies reader, reader.buffer, channel, block
      ensures Valid() && got <= sizeLeft && got == (if retVal > 0 then retVal else 0)
      ensures block[..pos] == old(block[..pos]) && block[pos + got..] == old(block[pos + got..])
      ensures block[pos..pos + got] + Pending() == old(Pending())
      ensures retVal == 0 ==> Pending() == []
      ensures RecvEnded(retVal, channel.errno == Again, old(reader.Left()), old(channel.inbound), sizeLeft,
                        channel.inbound.script)
    {
      ghost var left, k, was := reader.Left(), channel.inbound, block[..];
      ghost var r := Received(left, k, sizeLeft);
      RecvStores(left, k, sizeLeft);
      retVal := reader.Recv(channel, block, pos, sizeLeft);
      RecvEndedBy(left, k, sizeLeft, channel.errno == Again);
      got := |r.data|;
      StoredBetween(block[..], was[..pos], r.data, was[pos + got..]);
    }

    /** One turn of receiveComplete: more was stored, or nothing for now, or it is over. */
    method ReceiveTurn(block: array<byte>, pos: nat, sizeLeft: nat, ghost all: seq<byte>) returns (turn: Turn, got: nat)
      requires Valid() && block != reader.buffer && pos + sizeLeft <= block.Length && sizeLeft > 0
      requires block[..pos] + Pending() == all
      modifies this`pollScript, reader, reader.buffer, channel, block
      ensures Valid() && got <= sizeLeft && (turn != More ==> got == 0)
      ensures block[..pos + got] + Pending() == all
      ensures block[pos + got..] == old(block[pos + got..])
      ensures turn == End ==> Pending() == []
      ensures turn == More ==> |channel.inbound.script| <= |old(channel.inbound).script|
      ensures turn == More && got == 0 ==> |channel.inbound.script| < |old(channel.inbound).script|
      ensures TurnEnded(turn, got, old(reader.Left()), old(channel.inbound), sizeLeft, channel.inbound.script,
                        old(pollScript), pollScript)
    {
      UsedNothing(pollScript);
      ghost var filled := block[..pos];
      ghost var stored;
      var retVal;
      retVal, stored := ReceiveSome(block, pos, sizeLeft);
      ghost var piece := block[pos..pos + stored];
      assert block[..pos + stored] == filled + piece;
      Assoc(filled, piece, Pending());
      if retVal > 0 {
        return More, retVal;
      } else if retVal == 0 {
        return End, 0;
      } else if channel.errno == Again {
        var nfds := Poll();
        return if nfds != 1 then Failed else More, 0;
      }
      return Failed, 0;
    }

    /**
     `pos` bytes are stored which with the pending ones make up `all`, and the rest of the block is as it
     was `first`. The quantifier keeps this folded except where SameBytes is mentioned.
     */
    ghost predicate Progress(block: array<byte>, pos: nat, all: seq<byte>, first: seq<byte>)
      reads this, reader, reader.buffer, channel, block
    {
      && Valid() && pos <= block.Length == |first|
      && forall b :: SameBytes(b, all) ==> block[..pos] + Pending() == b && block[pos..] == first[pos..]
    }

    lemma ProgressMeans(block: array<byte>, pos: nat, all: seq<byte>, first: seq<byte>)
      requires Progress(block, pos, all, first)
      ensures block[..pos] + Pending() == all && block[pos..] == first[pos..]
    {
      assert SameBytes(all, all);
    }

    lemma NoProgressYet(block: array<byte>)
      requires Valid()
      ensures Progress(block, 0, Pending(), block[..])
    {
      assert block[..0] + Pending() == Pending();
    }

    /** What the block and the connection hold in the end. */
    lemma Concluded(block: array<byte>, pos: nat, all: seq<byte>, first: seq<byte>, size: nat, ret: int)
      requires Progress(block, pos, all, first) && pos <= size
      requires if pos == size then ret == size else ret == -1 || (ret == ToInt(pos) && Pending() == [])
      ensures Completed(size, ret, block[..pos], all, Pending()) && block[pos..] == first[pos..]
    {
      ProgressMeans(block, pos, all, first);
      CompletedWith(size, ret, block[..pos], all, Pending());
    }

    /** The same turn as progress. */
    method ReceiveStored(block: array<byte>, pos: nat, sizeLeft: nat, ghost all: seq<byte>, ghost first: seq<byte>)
      returns (turn: Turn, got: nat)
      requires block != reader.buffer && pos + sizeLeft <= block.Length && sizeLeft > 0
      requires Progress(block, pos, all, first)
      modifies this`pollScript, reader, reader.buffer, channel, block
      ensures got <= sizeLeft && (turn != More ==> got == 0)
      ensures Progress(block, pos + got, all, first)
      ensures turn == End ==> Pending() == []
      ensures turn == More ==> |channel.inbound.script| <= |old(channel.inbound).script|
      ensures turn == More && got == 0 ==> |channel.inbound.script| < |old(channel.inbound).script|
      ensures TurnEnded(turn, got, old(reader.Left()), old(channel.inbound), sizeLeft, channel.inbound.script,
                        old(pollScript), pollScript)
    {
      ghost var before := block[..];
      ProgressMeans(block, pos, all, first);
      turn, got := ReceiveTurn(block, pos, sizeLeft, all);
      SameTail(first, before, block[..], pos, pos + got);
    }

    /** And as a step of a transfer. */
    method ReceiveNext(block: array<byte>, pos: nat, sizeLeft: nat, ghost all: seq<byte>, ghost first: seq<byte>,
                       ghost script: seq<ReadCall>, ghost polls: seq<PollOutcome>)
      returns (turn: Turn, got: nat)
      requires block != reader.buffer && pos + sizeLeft <= block.Length && sizeLeft > 0
      requires Progress(block, pos, all, first)
      requires OnTrack(script, channel.inbound.script, polls, pollScript)
      modifies this`pollScript, reader, reader.buffer, channel, block
      ensures got <= sizeLeft && (turn != More ==> got == 0)
      ensures Progress(block, pos + got, all, first)
      ensures turn == End ==> Pending() == []
      ensures turn == More ==> |channel.inbound.script| <= |old(channel.inbound).script|
      ensures turn == More && got == 0 ==> |channel.inbound.script| < |old(channel.inbound).script|
      ensures if turn == More then OnTrack(script, channel.inbound.script, polls, pollScript)
              else ReceiveEnded(turn, script, channel.inbound.script, polls, pollScript)
    {
      ghost var left, k, pollsBefore := reader.Left(), channel.inbound, pollScript;
      turn, got := ReceiveStored(block, pos, sizeLeft, all, first);
      TurnTracked(script, polls, turn, got, left, k, sizeLeft, channel.inbound.script, pollsBefore, pollScript);
    }

    /** The loop of receiveComplete: it ends with the size (More), the end of the stream, or an error. */
    method ReceiveLoop(block: array<byte>, size: nat) returns (turn: Turn, sizeLeft: nat)
      requires Valid() && block != reader.buffer && size <= block.Length
      modifies this`pollScript, reader, reader.buffer, channel, block
      ensures sizeLeft <= size && (sizeLeft == 0 <==> turn == More)
      ensures Progress(block, size - sizeLeft, old(Pending()), old(block[..]))
      ensures turn == End ==> Pending() == []
      ensures ReceiveEnded(turn, old(channel.inbound.script), channel.inbound.script, old(pollScript), pollScript)
    {
      var pos: nat := 0;
      sizeLeft := size;
      ghost var all, first := Pending(), block[..];
      ghost var script, polls := channel.inbound.script, pollScript;
      NoProgressYet(block);
      OnTrackYet(script, polls);
      while sizeLeft > 0
        invariant pos + sizeLeft == size && Progress(block, pos, all, first)
        invariant OnTrack(script, channel.inbound.script, polls, pollScript)
        decreases |channel.inbound.script|, sizeLeft
      {
        var n;
        turn, n := ReceiveNext(block, pos, sizeLeft, all, first, script, polls);
        if turn != More {
          return;
        }
        sizeLeft := sizeLeft - n;
        pos := pos + n;
      }
      turn := More;
      OnTrackEnds(script, channel.inbound.script, polls, pollScript);
    }

    /**
     Whatever the fragmentation, the block gets exactly the next bytes of the stream. It fails only after a
     read that failed for good or a wait that gave up, so that it returns the size when none does and the
     stream has enough.
     */
    method ReceiveComplete(block: array<byte>, size: nat) returns (ret: int, ghost got: nat, ghost how: Turn)
      requires Valid() && block != reader.buffer && size <= block.Length
      modifies this`pollScript, reader, reader.buffer, channel, block
      ensures Valid() && got <= size
      ensures Completed(size, ret, block[..got], old(Pending()), Pending())
      ensures block[got..] == old(block[got..])
      ensures ret == match how case More => size case End => ToInt(got) case Failed => -1
      ensures (how == More <==> got == size) && (how == End ==> Pending() == [])
      ensures ReceiveEnded(how, old(channel.inbound.script), channel.inbound.script, old(pollScript), pollScript)
      ensures Willing(old(channel.inbound.script), channel.inbound.script, old(pollScript), pollScript) ==>
        ret == if |old(Pending())| >= size then size else ToInt(got)
    {
      ghost var all, first := Pending(), block[..];
      ghost var script, polls := channel.inbound.script, pollScript;
      var turn, sizeLeft := ReceiveLoop(block, size);
      got, how := size - sizeLeft, turn;
      HonestNeverFails(how, script, channel.inbound.script, polls, pollScript);
      match turn {
        case More => ret := size;
        case End => ret := ToInt(size - sizeLeft);
        case Failed => ret := -1;
      }
      Concluded(block, got, all, first, size, ret);
    }

    // -------------------------------------------------------------------------------------------
    // Sending
    // -------------------------------------------------------------------------------------------

    /** send or sendmsg of `payload`. Once the script is over every call fails. */
    method Transmit(payload: seq<byte>) returns (ret: int)
      modifies this`wire, this`sendScript, this`errno
      ensures -1 <= ret <= |payload|
      ensures ret >= 0 ==> wire == old(wire) + payload[..ret]
      ensures ret == -1 ==> wire == old(wire)
      ensures if |old(sendScript)| == 0 then sendScript == [] && ret == -1 && errno == Other
              else sendScript == old(sendScript)[1..] && Answered(old(sendScript)[0], |payload|, ret, errno)
    {
      if |sendScript| == 0 {
        errno := Other;
        return -1;
      }
      var call := sendScript[0];
      sendScript := sendScript[1..];
      match call
      case Accept(limit) =>
        ret := Min(limit, |payload|);
        wire := wire + payload[..ret];
      case Refuse(e) =>
        errno := e;
        ret := -1;
    }

    /** One sendmsg of sendBlocks: what was written, nothing for now, or the end. */
    method SendSome(payload: seq<byte>) returns (turn: Turn, bytesWritten: nat)
      modifies this`wire, this`sendScript, this`errno
      ensures bytesWritten <= |payload| && wire == old(wire) + payload[..bytesWritten]
      ensures if turn == More then |sendScript| < |old(sendScript)| else bytesWritten == 0
      ensures old(sendScript) == [] ==> turn == Failed
      ensures SomeSent(old(sendScript), sendScript, |payload|, turn, bytesWritten)
    {
      if sendScript != [] {
        UsedOne(sendScript);
      }
      var retVal := Transmit(payload);
      if retVal == 0 {
        return End, 0;
      } else if retVal == -1 {
        return if errno == Other then Failed else More, 0;
      }
      return More, retVal;
    }

    /** One send of sendBlock, and the wait when it would block. */
    method SendOnce(payload: seq<byte>) returns (turn: Turn, numBytes: nat)
      modifies this`wire, this`sendScript, this`pollScript, this`errno
      ensures numBytes <= |payload| && wire == old(wire) + payload[..numBytes]
      ensures if turn == More then |sendScript| < |old(sendScript)| else turn == Failed && numBytes == 0
      ensures OnceSent(old(sendScript), sendScript, old(pollScript), pollScript, |payload|, turn, numBytes)
    {
      UsedNothing(pollScript);
      if sendScript != [] {
        UsedOne(sendScript);
      }
      var sent := Transmit(payload);
      if sent > 0 {
        return More, sent;
      } else if sent == 0 {
        // connection lost
        return Failed, 0;
      }
      if errno == Again {
        var err := Poll();
        return if err != 1 then Failed else More, 0;
      }
      return if errno == Interrupted then More else Failed, 0;
    }

    method SendPart(payload: seq<byte>, ghost sends: seq<SendCall>, ghost polls: seq<PollOutcome>)
      returns (turn: Turn, numBytes: nat)
      requires payload != [] && BlockEnded(true, sends, sendScript, polls, pollScript)
      modifies this`wire, this`sendScript, this`pollScript, this`errno
      ensures numBytes <= |payload| && wire == old(wire) + payload[..numBytes]
      ensures if turn == More then |sendScript| < |old(sendScript)| else turn == Failed && numBytes == 0
      ensures BlockEnded(turn == More, sends, sendScript, polls, pollScript)
    {
      ghost var sendsBefore, pollsBefore := sendScript, pollScript;
      turn, numBytes := SendOnce(payload);
      OnceTracked(sends, sendsBefore, sendScript, polls, pollsBefore, pollScript, |payload|, turn, numBytes);
    }

    /**
     One flat write. It fails only after a send refused for good or that took nothing, or a wait that gave up;
     it waits exactly when a send would block.
     */
    method SendBlock(payload: seq<byte>) returns (retVal: int)
      modifies this`wire, this`sendScript, this`pollScript, this`errno
      ensures Sent(old(wire), wire, payload, retVal)
      ensures retVal == |payload| || retVal == -1
      ensures BlockEnded(retVal != -1, old(sendScript), sendScript, old(pollScript), pollScript)
      ensures SendWilling(old(sendScript), sendScript, old(pollScript), pollScript) ==> retVal == |payload|
    {
      var dat: nat := 0;
      var bytesLeft: nat := |payload|;
      retVal := |payload|;
      ghost var sends, polls := sendScript, pollScript;
      BlockOnTrackYet(sends, polls);
      while bytesLeft > 0
        invariant dat <= |payload| && wire == old(wire) + payload[..dat]
        invariant (retVal == |payload| && dat + bytesLeft == |payload|)
               || (retVal == -1 && bytesLeft == 0 && dat < |payload|)
        invariant BlockEnded(retVal != -1, sends, sendScript, polls, pollScript)
        decreases bytesLeft, |sendScript|
      {
        var turn, numBytes := SendPart(payload[dat..dat + bytesLeft], sends, polls);
        if turn == More {
          assert payload[..dat + numBytes] == payload[..dat] + payload[dat..dat + bytesLeft][..numBytes];
          dat := dat + numBytes;
          bytesLeft := bytesLeft - numBytes;
        } else {
          bytesLeft := 0;
          retVal := -1;
        }
      }
      assert SentPrefix(old(wire), wire, payload, retVal, dat);
      WillingNeverFails(retVal != -1, sends, sendScript, polls, pollScript);
    }

    /** Drop the first `offset` bytes of a block that is longer than that. */
    method CutBlock(blocks: array<Block>, pos: nat, left: nat, offset: nat)
      requires left > 0 && pos + left <= blocks.Length && AllInRegion(blocks[pos..pos + left])
      requires offset < blocks[pos].size
      modifies blocks
      ensures AllInRegion(blocks[pos..pos + left])
      ensures Flat(blocks[pos..pos + left]) == old(Flat(blocks[pos..pos + left]))[offset..]
      ensures forall i :: 0 <= i < blocks.Length && i != pos ==> blocks[i] == old(blocks[i])
    {
      ghost var rest := blocks[pos..pos + left];
      FlatHead(rest);
      CutStep(rest, offset);
      var b := blocks[pos];
      blocks[pos] := Block(b.region, b.start + offset, b.size - offset);
      assert blocks[pos..pos + left] == rest[0 := blocks[pos]];
    }

    /** The block in which the first `written` bytes of the blocks from `from` on end, and how far into it. */
    method Locate(blocks: array<Block>, from: nat, count: nat, written: nat) returns (pos: nat, left: nat, offset: nat)
      requires from + count <= blocks.Length && AllInRegion(blocks[from..from + count])
      requires written < |Flat(blocks[from..from + count])|
      ensures from <= pos && pos + left == from + count && left > 0 && AllInRegion(blocks[pos..pos + left])
      ensures offset < blocks[pos].size && offset < |Flat(blocks[pos..pos + left])|
      ensures Flat(blocks[pos..pos + left])[offset..] == Flat(blocks[from..from + count])[written..]
    {
      pos, left, offset := from, count, written;
      ghost var goal := Flat(blocks[from..from + count])[written..];
      while true
        invariant from <= pos && pos + left == from + count
        invariant Remains(blocks[pos..pos + left], offset, goal)
        decreases left
      {
        StepOn(blocks[..], pos, left, offset, goal);
        if offset < blocks[pos].size {
          return;
        }
        offset := offset - blocks[pos].size;
        pos := pos + 1;
        left := left - 1;
      }
    }

    /** Step over `written` bytes of the blocks from `from` on, cutting into the block they end in. */
    method Skip(blocks: array<Block>, from: nat, count: nat, written: nat) returns (pos: nat, left: nat)
      requires from + count <= blocks.Length && AllInRegion(blocks[from..from + count])
      requires written < |Flat(blocks[from..from + count])|
      modifies blocks
      ensures from <= pos && pos + left == from + count && left > 0
      ensures AllInRegion(blocks[pos..pos + left])
      ensures Flat(blocks[pos..pos + left]) == old(Flat(blocks[from..from + count]))[written..]
      ensures forall i :: 0 <= i < blocks.Length && i != pos ==> blocks[i] == old(blocks[i])
    {
      var offset;
      pos, left, offset := Locate(blocks, from, count, written);
      CutBlock(blocks, pos, left, offset);
    }

    /** The total length of the payload. */
    method SumSizes(blocks: array<Block>, blockCount: nat) returns (totalLength: nat)
      requires blockCount <= blocks.Length && AllInRegion(blocks[..blockCount])
      ensures totalLength == |Flat(blocks[..blockCount])|
    {
      totalLength := 0;
      for i := 0 to blockCount
        invariant AllInRegion(blocks[..i]) && totalLength == |Flat(blocks[..i])|
      {
        assert InRegion(blocks[..blockCount][i]);
        FlatSnoc(blocks[..i], blocks[i]);
        assert blocks[..i + 1] == blocks[..i] + [blocks[i]];
        totalLength := totalLength + blocks[i].size;
      }
    }

    /** One turn of the gather write: send, and rewrite the array to hold what is still to be sent. */
    method SendTurn(blocks: array<Block>, from: nat, count: nat, ghost all: seq<byte>, ghost sends: seq<SendCall>,
                    ghost polls: seq<PollOutcome>)
      returns (turn: Turn, pos: nat, left: nat, written: nat)
      requires from + count <= blocks.Length && UnsentFrom(blocks[from..from + count], wire, all)
      requires GatherOnTrack(sends, sendScript, polls, pollScript)
      requires Flat(blocks[from..from + count]) != [] || sendScript == sends
      modifies this`wire, this`sendScript, this`errno, blocks
      ensures pos + left == from + count && written <= old(|Flat(blocks[from..from + count])|)
      ensures if written < old(|Flat(blocks[from..from + count])|) || turn != More then
                UnsentFrom(blocks[pos..pos + left], wire, all)
                && |Flat(blocks[pos..pos + left])| == old(|Flat(blocks[from..from + count])|) - written
              else wire == all
      ensures if turn == More then |sendScript| < |old(sendScript)| else written == 0
      ensures GatherEnded(turn, old(Flat(blocks[from..from + count])) == [], sends, sendScript, polls, pollScript)
    {
      pos, left := from, count;
      ghost var now := sendScript;
      ghost var rest, before := Flat(blocks[from..from + count]), wire;
      turn, written := SendSome(Flat(blocks[from..from + count]));
      GatherTurn(sends, now, sendScript, polls, pollScript, |rest|, turn, written);
      Advance(before, rest, wire, written);
      if turn == More && written < |Flat(blocks[from..from + count])| {
        pos, left := Skip(blocks, from, count, written);
      }
    }

    /** The wait between two sends of a gather write. */
    method WaitForWritable(ghost nothing: bool, ghost sends: seq<SendCall>, ghost polls: seq<PollOutcome>)
      returns (writable: bool)
      requires GatherEnded(More, nothing, sends, sendScript, polls, pollScript)
      modifies this`pollScript
      ensures if writable then GatherOnTrack(sends, sendScript, polls, pollScript)
              else GatherEnded(Failed, nothing, sends, sendScript, polls, pollScript)
    {
      ghost var pollsNow := pollScript;
      var err := Poll();
      GatherWait(nothing, sends, sendScript, polls, pollsNow, pollScript);
      return err == 1;
    }

    /** The loop of sendBlocks: it ends with everything sent (More), after a send that took nothing, or failed. */
    method SendLoop(blocks: array<Block>, blockCount: nat, totalLength: nat)
      returns (turn: Turn, ghost pos: nat, ghost count: nat)
      requires blockCount <= blocks.Length && AllInRegion(blocks[..blockCount])
      requires totalLength == |Flat(blocks[..blockCount])|
      modifies this`wire, this`sendScript, this`pollScript, this`errno, blocks
      ensures pos + count == blockCount
      ensures var all := old(wire) + old(Flat(blocks[..blockCount]));
        if turn == More then wire == all
        else UnsentFrom(blocks[pos..pos + count], wire, all)
             && |Flat(blocks[pos..pos + count])| <= totalLength
             && (Flat(blocks[pos..pos + count]) == [] ==> totalLength == 0)
      ensures GatherEnded(turn, totalLength == 0, old(sendScript), sendScript, old(pollScript), pollScript)
    {
      ghost var all := wire + Flat(blocks[..blockCount]);
      ghost var sends, polls := sendScript, pollScript;
      var totalBytesRemaining: nat := totalLength;
      var from: nat, left: nat := 0, blockCount;
      assert blocks[0..blockCount] == blocks[..blockCount];
      GatherOnTrackYet(sends, polls);
      while true
        invariant from + left == blockCount && UnsentFrom(blocks[from..from + left], wire, all)
        invariant |Flat(blocks[from..from + left])| == totalBytesRemaining <= totalLength
        invariant totalBytesRemaining == 0 ==> totalLength == 0 && sendScript == sends
        invariant GatherOnTrack(sends, sendScript, polls, pollScript)
        decreases |sendScript|
      {
        var written;
        turn, from, left, written := SendTurn(blocks, from, left, all, sends, polls);
        pos, count := from, left;
        if turn != More {
          return;
        }
        totalBytesRemaining := totalBytesRemaining - written;
        if totalBytesRemaining == 0 {
          return;
        }
        var writable := WaitForWritable(totalLength == 0, sends, polls);
        if !writable {
          return Failed, pos, count;
        }
      }
    }

    /**
     The gather write. It rewrites the caller's array to hold what is still to be sent. It ends with the total
     length, with 0 only after a send that took nothing, and with -1 only after a send refused for good or a
     wait that gave up.
     */
    method SendBlocks(blocks: array<Block>, blockCount: nat) returns (ret: int, ghost how: Turn)
      requires blockCount <= blocks.Length && AllInRegion(blocks[..blockCount])
      modifies this`wire, this`sendScript, this`pollScript, this`errno, blocks
      ensures Sent(old(wire), wire, old(Flat(blocks[..blockCount])), ret)
      ensures ret == |old(Flat(blocks[..blockCount]))|
           || Unsent(blocks[..blockCount], wire, old(wire) + old(Flat(blocks[..blockCount])))
      ensures GatherResult(how, |old(Flat(blocks[..blockCount]))|, ret, old(sendScript), sendScript, old(pollScript),
                           pollScript)
    {
      ghost var payload := Flat(blocks[..blockCount]);
      ghost var wire0, sends, polls := wire, sendScript, pollScript;
      var totalLength := SumSizes(blocks, blockCount);
      var turn;
      ghost var pos, count;
      turn, pos, count := SendLoop(blocks, blockCount, totalLength);
      how := turn;
      GatherReturns(turn, totalLength, sends, sendScript, polls, pollScript);
      if turn == More {
        OnTheWire(wire0, wire, payload, [], totalLength);
        return totalLength, how;
      }
      ret := if turn == End then 0 else -1;
      GivenUp(blocks[..], pos, count, wire0, wire, payload, ret);
    }

    /** The overload for a list copies it into an array of its own. */
    method SendBlockList(list: seq<Block>) returns (ret: int, ghost how: Turn)
      requires list != [] && AllInRegion(list)
      modifies this`wire, this`sendScript, this`pollScript, this`errno
      ensures Sent(old(wire), wire, Flat(list), ret)
      ensures GatherResult(how, |Flat(list)|, ret, old(sendScript), sendScript, old(pollScript), pollScript)
    {
      var blocks := new Block[|list|](i requires 0 <= i < |list| => list[i]);
      assert blocks[..|list|] == list;
      ret, how := SendBlocks(blocks, |list|);
    }
  }

  /** Giving up with the blocks from `pos` on still to be sent. */
  lemma GivenUp(blocks: seq<Block>, pos: nat, count: nat, wire: seq<byte>, wire': seq<byte>, payload: seq<byte>,
                ret: int)
    requires pos + count <= |blocks| && UnsentFrom(blocks[pos..pos + count], wire', wire + payload)
    requires |Flat(blocks[pos..pos + count])| <= |payload| && (ret == 0 || ret == -1)
    requires Flat(blocks[pos..pos + count]) != [] || payload == []
    ensures Sent(wire, wire', payload, ret)
    ensures Unsent(blocks[..pos + count], wire', wire + payload)
  {
    OnTheWire(wire, wire', payload, Flat(blocks[pos..pos + count]), ret);
    assert blocks[..pos + count][pos..] == blocks[pos..pos + count];
  }

  lemma FlatHead(blocks: seq<Block>)
    requires AllInRegion(blocks)
    ensures blocks != [] ==>
      Flat(blocks) == Bytes(blocks[0]) + Flat(blocks[1..]) && |Bytes(blocks[0])| == blocks[0].size
  {}

  /** Stepping over a whole block leaves the same bytes to go. */
  lemma StepOver(blocks: seq<Block>, offset: nat)
    requires AllInRegion(blocks) && offset < |Flat(blocks)|
    ensures blocks != []
    ensures offset >= blocks[0].size ==>
      && AllInRegion(blocks[1..]) && offset - blocks[0].size < |Flat(blocks[1..])|
      && Flat(blocks[1..])[offset - blocks[0].size..] == Flat(blocks)[offset..]
  {
    FlatHead(blocks);
    if offset >= blocks[0].size {
      DropBehind(Bytes(blocks[0]), Flat(blocks[1..]), offset);
    }
  }

  /** Behind the first `offset` bytes of the blocks is `goal`. */
  ghost predicate Remains(blocks: seq<Block>, offset: nat, goal: seq<byte>) {
    AllInRegion(blocks) && offset < |Flat(blocks)| && Flat(blocks)[offset..] == goal
  }

  lemma StepOn(blocks: seq<Block>, pos: nat, left: nat, offset: nat, goal: seq<byte>)
    requires pos + left <= |blocks| && Remains(blocks[pos..pos + left], offset, goal)
    ensures left > 0
    ensures offset >= blocks[pos].size ==>
      Remains(blocks[pos + 1..pos + left], offset - blocks[pos].size, goal)
  {
    var rest := blocks[pos..pos + left];
    StepOver(rest, offset);
    assert rest[0] == blocks[pos] && rest[1..] == blocks[pos + 1..pos + left];
  }

  lemma DropBehind(a: seq<byte>, b: seq<byte>, n: nat)
    requires |a| <= n <= |a| + |b|
    ensures (a + b)[n..] == b[n - |a|..]
  {}

  /** Cutting into a block leaves the same bytes to go. */
  lemma CutStep(blocks: seq<Block>, offset: nat)
    requires blocks != [] && AllInRegion(blocks) && offset < blocks[0].size
    ensures var b := blocks[0];
      var cut := blocks[0 := Block(b.region, b.start + offset, b.size - offset)];
      AllInRegion(cut) && Flat(cut) == Flat(blocks)[offset..]
  {
    FlatHead(blocks);
    var b := blocks[0];
    var cut := blocks[0 := Block(b.region, b.start + offset, b.size - offset)];
    assert cut[1..] == blocks[1..];
    FlatHead(cut);
    assert Bytes(cut[0]) == Bytes(b)[offset..];
  }

  lemma {:induction false} FlatSnoc(blocks: seq<Block>, b: Block)
    requires AllInRegion(blocks) && InRegion(b)
    ensures AllInRegion(blocks + [b]) && Flat(blocks + [b]) == Flat(blocks) + Bytes(b)
    decreases |blocks|
  {
    FlatHead(blocks + [b]);
    if blocks == [] {
      assert (blocks + [b])[1..] == [];
    } else {
      FlatHead(blocks);
      FlatSnoc(blocks[1..], b);
      assert (blocks + [b])[1..] == blocks[1..] + [b];
      Assoc(Bytes(blocks[0]), Flat(blocks[1..]), Bytes(b));
    }
  }

  /** Moving bytes from the blocks to the wire leaves what both hold together as it is. */
  lemma Advance(before: seq<byte>, rest: seq<byte>, wire: seq<byte>, n: nat)
    requires n <= |rest| && wire == before + rest[..n]
    ensures wire + rest[n..] == before + rest
  {
    assert rest == rest[..n] + rest[n..];
  }

  /** What is on the wire when `rest` of the payload is not. */
  lemma OnTheWire(wire: seq<byte>, wire': seq<byte>, payload: seq<byte>, rest: seq<byte>, ret: int)
    requires wire' + rest == wire + payload && |rest| <= |payload|
    requires ret == |payload| || ret == 0 || ret == -1
    requires ret == |payload| ==> rest == []
    requires ret != |payload| ==> rest != [] || payload == []
    ensures Sent(wire, wire', payload, ret)
  {
    var n := |payload| - |rest|;
    assert wire' == (wire' + rest)[..|wire'|];
    assert wire + payload[..n] == (wire + payload)[..|wire| + n];
    assert SentPrefix(wire, wire', payload, ret, n);
  }

  lemma SameTail(a: seq<byte>, b: seq<byte>, c: seq<byte>, from: nat, to: nat)
    requires |a| == |b| == |c| && from <= to <= |a| && b[from..] == a[from..] && c[to..] == b[to..]
    ensures c[to..] == a[to..]
  {
    assert a[from..][to - from..] == a[to..] && b[from..][to - from..] == b[to..];
  }

  lemma Assoc(a: seq<byte>, b: seq<byte>, c: seq<byte>)
    ensures a + b + c == a + (b + c)
  {}

  /** The three outcomes of a recv for a non-empty request. */
  lemma ReceivedMeans(left: seq<byte>, k: Inbound, len: nat)
    requires len > 0
    ensures var r := Received(left, k, len);
      && (r.ret > 0 ==> |r.data| == r.ret)
      && (r.ret <= 0 ==> r.data == [])
      && (r.ret == 0 ==> r.left + Stream(r.next) == [])
      && |r.next.script| <= |k.script|
      && (r.ret < 0 && r.errno == Again ==> |r.next.script| < |k.script|)
  {
    ReadvTakesPrefix(k, len + BUFFER_SIZE);
  }

  // ---------------------------------------------------------------------------------------------
  // End to end
  // ---------------------------------------------------------------------------------------------

  /** One receiveComplete call that returned the size it was asked for. */
  datatype Delivery = Delivery(size: nat, data: seq<byte>, before: seq<byte>, after: seq<byte>)

  ghost predicate Deliveries(ds: seq<Delivery>, first: seq<byte>) {
    ds == [] ||
    (&& ds[0].before == first
     && Completed(ds[0].size, ds[0].size, ds[0].data, ds[0].before, ds[0].after)
     && |ds[0].data| == ds[0].size
     && Deliveries(ds[1..], ds[0].after))
  }

  function TotalSize(ds: seq<Delivery>): nat {
    if ds == [] then 0 else ds[0].size + TotalSize(ds[1..])
  }

  function AllData(ds: seq<Delivery>): seq<byte> {
    if ds == [] then [] else ds[0].data + AllData(ds[1..])
  }

  lemma {:induction false} DeliveriesArePrefix(ds: seq<Delivery>, first: seq<byte>)
    requires Deliveries(ds, first)
    ensures AllData(ds) <= first && |AllData(ds)| == TotalSize(ds)
    decreases |ds|
  {
    if ds != [] {
      DeliveriesArePrefix(ds[1..], ds[0].after);
      assert first == ds[0].data + ds[0].after;
    }
  }

  /**
   Over a connection that delivers what the wire got, in order: when a gather write, the first or a later
   one, returned the total length, the receiveComplete calls that follow what was on the wire before,
   succeed and add up to that length return the blocks, however either side was fragmented.
   */
  lemma RoundTrip(blocks: seq<Block>, wire0: seq<byte>, wire: seq<byte>, ds: seq<Delivery>, arriving: seq<byte>)
    requires AllInRegion(blocks) && Sent(wire0, wire, Flat(blocks), |Flat(blocks)|)
    requires wire0 + arriving <= wire || wire <= wire0 + arriving
    requires Deliveries(ds, arriving) && TotalSize(ds) == |Flat(blocks)|
    ensures AllData(ds) == Flat(blocks)
  {
    DeliveriesArePrefix(ds, arriving);
    var n: nat :| SentPrefix(wire0, wire, Flat(blocks), |Flat(blocks)|, n);
    assert Flat(blocks)[..n] == Flat(blocks);
    SameBehind(wire0, Flat(blocks), arriving);
  }

  lemma SameBehind(before: seq<byte>, a: seq<byte>, b: seq<byte>)
    requires before + a <= before + b || before + b <= before + a
    ensures a <= b || b <= a
  {
    assert (before + a)[|before|..] == a && (before + b)[|before|..] == b;
    if before + a <= before + b {
      assert (before + b)[..|before + a|][|before|..] == b[..|a|];
    } else {
      assert (before + a)[..|before + b|][|before|..] == a[..|b|];
    }
  }

  function EndOf(ds: seq<Delivery>, first: seq<byte>): seq<byte> {
    if ds == [] then first else ds[|ds| - 1].after
  }

  lemma {:induction false} DeliveriesSnoc(ds: seq<Delivery>, d: Delivery, first: seq<byte>)
    requires Deliveries(ds, first) && d.before == EndOf(ds, first)
    requires Completed(d.size, d.size, d.data, d.before, d.after) && |d.data| == d.size
    ensures Deliveries(ds + [d], first) && AllData(ds + [d]) == AllData(ds) + d.data
    ensures TotalSize(ds + [d]) == TotalSize(ds) + d.size
    decreases |ds|
  {
    var all := ds + [d];
    if ds == [] {
      assert all[1..] == [];
    } else {
      assert all[1..] == ds[1..] + [d];
      DeliveriesSnoc(ds[1..], d, ds[0].after);
      Assoc(ds[0].data, AllData(ds[1..]), d.data);
    }
  }

  function Total(sizes: seq<nat>): nat {
    if sizes == [] then 0 else Total(sizes[..|sizes| - 1]) + sizes[|sizes| - 1]
  }

  lemma {:induction false} TotalUpTo(sizes: seq<nat>, i: nat)
    requires i < |sizes|
    ensures Total(sizes[..i + 1]) == Total(sizes[..i]) + sizes[i] <= Total(sizes)
    decreases |sizes|
  {
    assert sizes[..i + 1][..i] == sizes[..i];
    var front := sizes[..|sizes| - 1];
    if i < |front| {
      TotalUpTo(front, i);
      assert front[..i + 1] == sizes[..i + 1] && front[..i] == sizes[..i];
    } else {
      assert sizes[..i + 1] == sizes;
    }
  }

  /** The scripts let every transfer up to now go well. */
  ghost predicate ReadsWell(receiver: SocketNonblocking, script: seq<ReadCall>, polls: seq<PollOutcome>)
    reads receiver, receiver.channel
  {
    Willing(script, receiver.channel.inbound.script, polls, receiver.pollScript)
  }

  lemma WillingSince(script: seq<ReadCall>, now: seq<ReadCall>, after: seq<ReadCall>, polls: seq<PollOutcome>,
                     pollsNow: seq<PollOutcome>, pollsAfter: seq<PollOutcome>)
    requires Rest(script, now) && Rest(now, after) && Rest(polls, pollsNow) && Rest(pollsNow, pollsAfter)
    ensures Rest(script, after) && Rest(polls, pollsAfter)
    ensures Willing(script, after, polls, pollsAfter) ==> Willing(now, after, pollsNow, pollsAfter)
  {
    UsedOnward(script, now, after);
    UsedOnward(polls, pollsNow, pollsAfter);
  }

  /** One call of receiveComplete with a buffer of its own. */
  method ReceiveOne(receiver: SocketNonblocking, size: nat) returns (complete: bool, data: seq<byte>)
    requires receiver.Valid()
    modifies receiver`pollScript, receiver.reader, receiver.reader.buffer, receiver.channel
    ensures receiver.Valid()
    ensures complete ==>
      Completed(size, size, data, old(receiver.Pending()), receiver.Pending()) && |data| == size
    ensures Rest(old(receiver.channel.inbound.script), receiver.channel.inbound.script)
    ensures Rest(old(receiver.pollScript), receiver.pollScript)
    ensures (size <= |old(receiver.Pending())|
             && ReadsWell(receiver, old(receiver.channel.inbound.script), old(receiver.pollScript))) ==> complete
  {
    ghost var before := receiver.Pending();
    var buffer := new byte[size](_ => 0);
    var ret;
    ghost var got, how;
    ret, got, how := receiver.ReceiveComplete(buffer, size);
    complete, data := ret == size, buffer[..];
    if complete {
      WholeBlock(size, buffer[..got], before, receiver.Pending());
      assert buffer[..got] == buffer[..];
    }
  }

  /**
   Calls of receiveComplete with these sizes, one after the other, up to the first that does not return
   its size. `data` is all that the buffers hold.
   */
  method ReceiveAll(receiver: SocketNonblocking, sizes: seq<nat>)
    returns (complete: bool, data: seq<byte>, ghost ds: seq<Delivery>)
    requires receiver.Valid()
    modifies receiver`pollScript, receiver.reader, receiver.reader.buffer, receiver.channel
    ensures receiver.Valid()
    ensures complete ==>
      Deliveries(ds, old(receiver.Pending())) && TotalSize(ds) == Total(sizes) && data == AllData(ds)
    ensures (Total(sizes) <= |old(receiver.Pending())|
             && ReadsWell(receiver, old(receiver.channel.inbound.script), old(receiver.pollScript))) ==> complete
  {
    data, ds := [], [];
    ghost var first, script, polls := receiver.Pending(), receiver.channel.inbound.script, receiver.pollScript;
    for i := 0 to |sizes|
      invariant receiver.Valid() && EndOf(ds, first) == receiver.Pending()
      invariant |receiver.Pending()| + Total(sizes[..i]) == |first|
      invariant Rest(script, receiver.channel.inbound.script) && Rest(polls, receiver.pollScript)
      invariant Deliveries(ds, first) && TotalSize(ds) == Total(sizes[..i]) && data == AllData(ds)
    {
      ghost var before, now, pollsNow := receiver.Pending(), receiver.channel.inbound.script, receiver.pollScript;
      TotalUpTo(sizes, i);
      var piece;
      complete, piece := ReceiveOne(receiver, sizes[i]);
      WillingSince(script, now, receiver.channel.inbound.script, polls, pollsNow, receiver.pollScript);
      if !complete {
        return;
      }
      DeliveriesSnoc(ds, Delivery(sizes[i], piece, before, receiver.Pending()), first);
      ds := ds + [Delivery(sizes[i], piece, before, receiver.Pending())];
      data := data + piece;
    }
    assert sizes[..|sizes|] == sizes;
    complete := true;
  }

  /** A result equal to the size means that the size was stored. */
  lemma WholeBlock(size: nat, data: seq<byte>, before: seq<byte>, after: seq<byte>)
    requires Completed(size, size, data, before, after)
    ensures |data| == size
  {}

  /**
   One object sends blocks and another, connected to it and with nothing pending, receives them in
   buffers of any sizes that add up: if all calls succeed, the buffers hold the blocks, and they do when
   nothing fails and no wait gives up on either side.
   */
  method Transfer(sender: SocketNonblocking, receiver: SocketNonblocking, blocks: array<Block>, blockCount: nat,
                  sizes: seq<nat>)
    returns (complete: bool, data: seq<byte>)
    requires sender != receiver && receiver.Valid() && receiver.Pending() == []
    requires blockCount <= blocks.Length && AllInRegion(blocks[..blockCount])
    requires Total(sizes) == |Flat(blocks[..blockCount])|
    modifies sender`wire, sender`sendScript, sender`pollScript, sender`errno, blocks
    modifies receiver`pollScript, receiver.reader, receiver.reader.buffer, receiver.channel
    ensures complete ==> data == old(Flat(blocks[..blockCount]))
    ensures (SendWilling(old(sender.sendScript), sender.sendScript, old(sender.pollScript), sender.pollScript)
             && ReadsWell(receiver, old(receiver.channel.inbound.script), old(receiver.pollScript))) ==> complete
  {
    ghost var list, wire0 := blocks[..blockCount], sender.wire;
    var sent := |sender.wire|;
    var ret;
    ghost var how;
    ret, how := sender.SendBlocks(blocks, blockCount);
    if ret != Total(sizes) {
      return false, [];
    }
    assert sender.wire[..sent] == wire0 by { SentExtends(wire0, sender.wire, Flat(list), ret); }
    ghost var arriving := sender.wire[sent..];
    receiver.channel.Deliver(sender.wire[sent..]);
    assert receiver.Pending() == arriving;
    ghost var ds;
    complete, data, ds := ReceiveAll(receiver, sizes);
    if complete {
      assert wire0 + arriving == sender.wire;
      RoundTrip(list, wire0, sender.wire, ds, arriving);
    }
  }

  lemma SentExtends(wire: seq<byte>, wire': seq<byte>, payload: seq<byte>, ret: int)
    requires Sent(wire, wire', payload, ret)
    ensures wire <= wire'
  {}

  /** The int conversion at the end of the stream is exact up to 2^31 - 1 bytes, and only then. */
  lemma EarlyEndExact(n: nat)
    ensures ToInt(n) == n <==> n < UINT_RANGE / 2
  {}

  /**
   Such an end: a stream of 2^31 bytes or more, fewer than 2^32, that was closed after them and is read at
   once. The next recv reports the end, and the count returned is negative.
   */
  lemma EarlyEndRun(data: seq<byte>, size: nat)
    requires UINT_RANGE / 2 <= |data| < UINT_RANGE && |data| < size
    ensures var k := Inbound(data, [], true, [ReadCall(0, true, false, |data|), ReadCall(0, true, false, 1)]);
      var first := Received([], k, size);
      var second := Received(first.left, first.next, size - |data|);
      && first.ret == |data| && first.data == data && second.ret == 0
      && ToInt(|data|) == |data| - UINT_RANGE < 0
  {
    var k := Inbound(data, [], true, [ReadCall(0, true, false, |data|), ReadCall(0, true, false, 1)]);
    assert k.queue + k.future[..0] == data;
    var first := Readv(k, size + BUFFER_SIZE);
    assert first.data == data && first.next == Inbound([], [], true, [ReadCall(0, true, false, 1)]);
    FromKernel(k, size);
    FromKernel(first.next, size - |data|);
  }
}
