/** What the finite scripts of system calls say about how a transfer ends, in terms of their outcomes. */
module Scripts {
  import opened Connection

  // ---------------------------------------------------------------------------------------------
  // What was used up
  // ---------------------------------------------------------------------------------------------

  /** `after` is what is left of a script. */
  ghost predicate Rest<T>(before: seq<T>, after: seq<T>) {
    |after| <= |before| && after == before[|before| - |after|..]
  }

  /** The outcomes used up meanwhile. */
  ghost function Used<T>(before: seq<T>, after: seq<T>): seq<T>
    requires |after| <= |before|
  {
    before[..|before| - |after|]
  }

  lemma UsedNothing<T>(before: seq<T>)
    ensures Rest(before, before) && Used(before, before) == []
  {}

  lemma UsedOne<T>(before: seq<T>)
    requires before != []
    ensures Rest(before, before[1..]) && Used(before, before[1..]) == [before[0]]
  {}

  lemma UsedOnward<T>(a: seq<T>, b: seq<T>, c: seq<T>)
    requires Rest(a, b) && Rest(b, c)
    ensures Rest(a, c) && Used(a, c) == Used(a, b) + Used(b, c)
  {}

  // ---------------------------------------------------------------------------------------------
  // poll
  // ---------------------------------------------------------------------------------------------

  /** Interruptions, and then this outcome. */
  ghost predicate Waited(used: seq<PollOutcome>, last: PollOutcome) {
    && used != [] && used[|used| - 1] == last
    && forall i :: 0 <= i < |used| - 1 ==> used[i] == PollInterrupted
  }

  /** The wait ended with a time-out or a failure, or its script was over. */
  ghost predicate GaveUp(used: seq<PollOutcome>, after: seq<PollOutcome>) {
    || Waited(used, TimedOut)
    || Waited(used, PollFailed)
    || (after == [] && forall i :: 0 <= i < |used| ==> used[i] == PollInterrupted)
  }

  ghost predicate Agreeable(polls: seq<PollOutcome>) {
    forall i :: 0 <= i < |polls| ==> polls[i] == Ready || polls[i] == PollInterrupted
  }

  function Readies(polls: seq<PollOutcome>): nat {
    if polls == [] then 0 else Readies(polls[..|polls| - 1]) + if polls[|polls| - 1] == Ready then 1 else 0
  }

  lemma {:induction false} ReadiesAppend(a: seq<PollOutcome>, b: seq<PollOutcome>)
    ensures Readies(a + b) == Readies(a) + Readies(b)
    decreases |b|
  {
    if b == [] {
      assert a + b == a;
    } else {
      assert (a + b)[..|a + b| - 1] == a + b[..|b| - 1];
      ReadiesAppend(a, b[..|b| - 1]);
    }
  }

  lemma {:induction false} NoReadies(polls: seq<PollOutcome>)
    requires forall i :: 0 <= i < |polls| ==> polls[i] == PollInterrupted
    ensures Readies(polls) == 0
    decreases |polls|
  {
    if polls != [] {
      NoReadies(polls[..|polls| - 1]);
    }
  }

  /** `n` waits, all of which ended ready. */
  ghost predicate ReadyTimes(used: seq<PollOutcome>, n: nat) {
    Agreeable(used) && Readies(used) == n && (used == [] || used[|used| - 1] == Ready)
  }

  /** Waits that ended ready, and then one that gave up. */
  ghost predicate PollStopped(used: seq<PollOutcome>, after: seq<PollOutcome>) {
    || (used != [] && (used[|used| - 1] == TimedOut || used[|used| - 1] == PollFailed) && Agreeable(used[..|used| - 1]))
    || (after == [] && Agreeable(used))
  }

  lemma ReadyOnceMore(a: seq<PollOutcome>, b: seq<PollOutcome>, n: nat)
    requires ReadyTimes(a, n) && Waited(b, Ready)
    ensures ReadyTimes(a + b, n + 1)
  {
    ReadiesAppend(a, b);
    NoReadies(b[..|b| - 1]);
    assert (a + b)[|a + b| - 1] == b[|b| - 1];
  }

  lemma StoppedAfter(a: seq<PollOutcome>, b: seq<PollOutcome>, n: nat, after: seq<PollOutcome>)
    requires ReadyTimes(a, n) && GaveUp(b, after)
    ensures PollStopped(a + b, after)
  {
    if b != [] {
      assert (a + b)[..|a + b| - 1] == a + b[..|b| - 1];
    }
  }

  /** Waits do not stop a transfer while their script goes on and has only interruptions and readiness. */
  lemma AgreeableNeverStops(before: seq<PollOutcome>, after: seq<PollOutcome>)
    requires Rest(before, after) && Agreeable(before) && after != []
    ensures !PollStopped(Used(before, after), after)
  {}

  // ---------------------------------------------------------------------------------------------
  // readv
  // ---------------------------------------------------------------------------------------------

  ghost predicate NoneFails(calls: seq<ReadCall>) {
    forall i :: 0 <= i < |calls| ==> !calls[i].fails
  }

  /** Reads that did not fail, and then one that did, or a script that was over. */
  ghost predicate ReadStopped(used: seq<ReadCall>, after: seq<ReadCall>) {
    || (used != [] && used[|used| - 1].fails && NoneFails(used[..|used| - 1]))
    || (after == [] && NoneFails(used))
  }

  lemma ReadStoppedAfter(a: seq<ReadCall>, b: seq<ReadCall>, after: seq<ReadCall>)
    requires NoneFails(a) && ((|b| == 1 && b[0].fails) || (b == [] && after == []))
    ensures ReadStopped(a + b, after)
  {
    if b != [] {
      assert (a + b)[..|a + b| - 1] == a;
    }
  }

  lemma HonestNeverStops(before: seq<ReadCall>, after: seq<ReadCall>)
    requires Rest(before, after) && NoneFails(before) && after != []
    ensures !ReadStopped(Used(before, after), after)
  {}

  // ---------------------------------------------------------------------------------------------
  // send and sendmsg
  // ---------------------------------------------------------------------------------------------

  /** A call that takes something, or is to be tried again. */
  predicate Tolerable(c: SendCall) {
    match c
    case Accept(limit) => limit > 0
    case Refuse(errno) => errno == Again || errno == Interrupted
  }

  ghost predicate AllTolerable(sends: seq<SendCall>) {
    forall i :: 0 <= i < |sends| ==> Tolerable(sends[i])
  }

  /** Tolerable calls, and then this one. */
  ghost predicate EndsWith(used: seq<SendCall>, last: SendCall) {
    used != [] && used[|used| - 1] == last && AllTolerable(used[..|used| - 1])
  }

  /** Tolerable calls, and then one refused for good, or a script that was over. */
  ghost predicate SendStopped(used: seq<SendCall>, after: seq<SendCall>) {
    EndsWith(used, Refuse(Other)) || (after == [] && AllTolerable(used))
  }

  lemma EndsAfter(a: seq<SendCall>, c: SendCall)
    requires AllTolerable(a)
    ensures EndsWith(a + [c], c)
  {
    assert (a + [c])[..|a|] == a;
  }

  lemma TolerableNeverStops(before: seq<SendCall>, after: seq<SendCall>)
    requires Rest(before, after) && AllTolerable(before) && after != []
    ensures !SendStopped(Used(before, after), after)
    ensures !EndsWith(Used(before, after), Accept(0))
  {
    var used := Used(before, after);
    if used != [] {
      assert Tolerable(before[|used| - 1]);
    }
  }

  /** How often a call would have blocked. */
  function Blocked(sends: seq<SendCall>): nat {
    if sends == [] then 0 else Blocked(sends[..|sends| - 1]) + if sends[|sends| - 1] == Refuse(Again) then 1 else 0
  }

  lemma BlockedSnoc(a: seq<SendCall>, c: SendCall)
    ensures Blocked(a + [c]) == Blocked(a) + if c == Refuse(Again) then 1 else 0
  {
    assert (a + [c])[..|a|] == a;
  }
}
