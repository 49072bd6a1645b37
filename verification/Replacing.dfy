/** replace: what the in-place loop does, when it ends, and when it is the replacement documented. */
module Replacing {
  import opened Common
  import opened Splitting

  /** The text with the `n` characters at `position` exchanged for `substitute`. */
  function Spliced(text: string, position: nat, n: nat, substitute: string): string
    requires position + n <= |text|
  {
    text[..position] + substitute + text[position + n..]
  }

  /** The loop from `position` on, for at most `turns` replacements; None when it is not over by then. */
  function Loop(text: string, search: string, substitute: string, position: nat, turns: nat): Option<string>
    decreases turns
  {
    match Find(text, search, position)
    case None => Some(text)
    case Some(p) =>
      if turns == 0 then None
      else Loop(Spliced(text, p, |search|, substitute), search, substitute, p + |search|, turns - 1)
  }

  /** replace for strings, stopped after `turns` replacements since it need not end. */
  method Replace(original: string, search: string, substitute: string, turns: nat) returns (result: Option<string>)
    ensures result == Loop(original, search, substitute, 0, turns)
  {
    var text := original;
    var position: nat := 0;
    var left := turns;
    while true
      invariant Loop(text, search, substitute, position, left) == Loop(original, search, substitute, 0, turns)
      decreases left
    {
      var found := Find(text, search, position);
      if found.None? {
        return Some(text);
      }
      if left == 0 {
        return None;
      }
      text := Spliced(text, found.value, |search|, substitute);
      position := found.value + |search|;
      left := left - 1;
    }
  }

  // ---------------------------------------------------------------------------------------------
  // Termination
  // ---------------------------------------------------------------------------------------------

  /** The loop ends for every text when the substitute is shorter than twice the search string. */
  lemma {:induction false} Ends(text: string, search: string, substitute: string, position: nat, turns: nat)
    requires search != "" && |substitute| < 2 * |search|
    requires |text| - position < turns
    ensures Loop(text, search, substitute, position, turns).Some?
    decreases turns
  {
    match Find(text, search, position)
    case None =>
    case Some(p) =>
      Ends(Spliced(text, p, |search|, substitute), search, substitute, p + |search|, turns - 1);
  }

  /** For an empty search string it never does. */
  lemma {:induction false} EmptySearchNeverEnds(text: string, substitute: string, position: nat, turns: nat)
    requires position <= |text|
    ensures Loop(text, "", substitute, position, turns) == None
    decreases turns
  {
    FindFirst(text, "", position);
    assert Occurs(text, "", position);
    if turns > 0 {
      EmptySearchNeverEnds(Spliced(text, position, 0, substitute), substitute, position, turns - 1);
    }
  }

  // ---------------------------------------------------------------------------------------------
  // Replacing every occurrence
  // ---------------------------------------------------------------------------------------------

  /** What the documentation says: each occurrence in the text exchanged. */
  function Expected(text: string, search: string, substitute: string): string
    requires search != ""
  {
    Join(Tokens(text, search), substitute)
  }

  ghost predicate Replaces(text: string, search: string, substitute: string)
    requires search != ""
  {
    exists turns: nat :: Loop(text, search, substitute, 0, turns) == Some(Expected(text, search, substitute))
  }

  /** Some text that begins with `u` has an occurrence of `search` at its start. */
  predicate Compatible(u: string, search: string) {
    u <= search || search <= u
  }

  /**
   The condition on the two strings: they are equally long, or the substitute is longer and nothing
   that the loop looks at again can begin with the search string.
   */
  predicate Exchangeable(search: string, substitute: string) {
    || |substitute| == |search|
    || (|substitute| > |search|
        && forall i :: |search| <= i < |substitute| ==> !Compatible(substitute[i..], search))
  }

  /** No occurrence begins in `out` at `from` or later, whatever follows. */
  predicate Quiet(out: string, from: nat, search: string) {
    from <= |out| && forall j :: from <= j < |out| ==> !Compatible(out[j..], search)
  }

  lemma OccursCompatible(out: string, rest: string, search: string, j: nat)
    requires j < |out|
    ensures Occurs(out + rest, search, j) ==> Compatible(out[j..], search)
  {
    var text := out + rest;
    assert text[j..] == out[j..] + rest;
    if Occurs(text, search, j) {
      assert search == text[j..][..|search|];
      if |search| <= |out| - j {
        assert search == out[j..][..|search|];
      } else {
        assert out[j..] == search[..|out| - j];
      }
    }
  }

  /** After an exchange nothing in the part of the substitute that is looked at again begins an occurrence. */
  lemma QuietAfter(before: string, search: string, substitute: string)
    requires Exchangeable(search, substitute)
    ensures Quiet(before + substitute, |before| + |search|, search)
  {
    var out := before + substitute;
    forall j | |before| + |search| <= j < |out| ensures !Compatible(out[j..], search) {
      assert out[j..] == substitute[j - |before|..];
    }
  }

  /** The same from left to right. */
  function Exchanged(text: string, search: string, substitute: string): string
    requires search != ""
    decreases |text|
  {
    match Find(text, search, 0)
    case None => text
    case Some(i) => text[..i] + substitute + Exchanged(text[i + |search|..], search, substitute)
  }

  lemma {:induction false} ExchangedIsExpected(text: string, search: string, substitute: string)
    requires search != ""
    ensures Expected(text, search, substitute) == Exchanged(text, search, substitute)
    decreases |text|
  {
    TokensHead(text, search);
    match Find(text, search, 0)
    case None =>
    case Some(i) =>
      ExchangedIsExpected(text[i + |search|..], search, substitute);
      assert Tokens(text, search)[1..] == Tokens(text[i + |search|..], search);
  }

  lemma {:induction false} QuietFind(out: string, from: nat, rest: string, search: string)
    requires search != "" && Quiet(out, from, search)
    ensures Find(out + rest, search, from)
         == match Find(rest, search, 0) case None => None case Some(i) => Some(|out| + i)
    decreases |out| - from
  {
    var text := out + rest;
    if from == |out| {
      assert text[|out|..] == rest;
      FindInSuffix(text, search, |out|);
    } else {
      OccursCompatible(out, rest, search, from);
      QuietFind(out, from + 1, rest, search);
    }
  }

  lemma LoopTurn(text: string, search: string, substitute: string, position: nat, turns: nat, f: Option<nat>)
    requires f == Find(text, search, position)
    ensures f.None? ==> Loop(text, search, substitute, position, turns) == Some(text)
    ensures f.Some? && turns == 0 ==> Loop(text, search, substitute, position, turns) == None
    ensures f.Some? && turns > 0 ==> (
      Loop(text, search, substitute, position, turns)
      == Loop(Spliced(text, f.value, |search|, substitute), search, substitute, f.value + |search|, turns - 1))
  {}

  lemma SplicedAfter(out: string, rest: string, i: nat, n: nat, substitute: string)
    requires i + n <= |rest|
    ensures Spliced(out + rest, |out| + i, n, substitute) == out + rest[..i] + substitute + rest[i + n..]
  {}

  lemma LoopGoesOn(text: string, search: string, substitute: string, position: nat, turns: nat, p: nat, text': string)
    requires turns > 0 && Find(text, search, position) == Some(p) && text' == Spliced(text, p, |search|, substitute)
    ensures Loop(text, search, substitute, position, turns)
         == Loop(text', search, substitute, p + |search|, turns - 1)
  {}

  // The three relations below say what find, the loop and the exchange come to. Their quantifiers keep the
  // recursive definitions folded except where SameText is mentioned.

  ghost predicate SameText(a: string, b: string) {
    a == b
  }

  ghost predicate Finds(text: string, pattern: string, pos: nat, f: Option<nat>) {
    (f.Some? ==> f.value + |pattern| <= |text|) && forall t :: SameText(t, text) ==> Find(t, pattern, pos) == f
  }

  ghost predicate Gives(text: string, search: string, substitute: string, position: nat, turns: nat,
                        result: Option<string>) {
    forall t :: SameText(t, text) ==> Loop(t, search, substitute, position, turns) == result
  }

  ghost predicate Becomes(text: string, search: string, substitute: string, result: string)
    requires search != ""
  {
    forall t :: SameText(t, text) ==> Exchanged(t, search, substitute) == result
  }

  lemma Searching(text: string, pattern: string, pos: nat) returns (f: Option<nat>)
    ensures Finds(text, pattern, pos, f)
  {
    f := Find(text, pattern, pos);
  }

  lemma FindsMeans(text: string, pattern: string, pos: nat, f: Option<nat>)
    requires Finds(text, pattern, pos, f)
    ensures Find(text, pattern, pos) == f
  {
    assert SameText(text, text);
  }

  lemma GivesMeans(text: string, search: string, substitute: string, position: nat, turns: nat, result: Option<string>)
    requires Gives(text, search, substitute, position, turns, result)
    ensures Loop(text, search, substitute, position, turns) == result
  {
    assert SameText(text, text);
  }

  lemma BecomesMeans(text: string, search: string, substitute: string, result: string)
    requires search != "" && Becomes(text, search, substitute, result)
    ensures Exchanged(text, search, substitute) == result
  {
    assert SameText(text, text);
  }

  /** The loop is over, or out of turns. */
  lemma GivesAtOnce(text: string, search: string, substitute: string, position: nat, turns: nat, f: Option<nat>)
    requires Finds(text, search, position, f) && (f.None? || turns == 0)
    ensures Gives(text, search, substitute, position, turns, if f.None? then Some(text) else None)
  {
    FindsMeans(text, search, position, f);
    LoopTurn(text, search, substitute, position, turns, f);
  }

  /** The loop goes on with `text'`. */
  lemma GivesLater(text: string, search: string, substitute: string, position: nat, turns: nat, p: nat, text': string,
                   result: Option<string>)
    requires turns > 0 && Finds(text, search, position, Some(p)) && text' == Spliced(text, p, |search|, substitute)
    requires Gives(text', search, substitute, p + |search|, turns - 1, result)
    ensures Gives(text, search, substitute, position, turns, result)
  {
    FindsMeans(text, search, position, Some(p));
    GivesMeans(text', search, substitute, p + |search|, turns - 1, result);
    LoopGoesOn(text, search, substitute, position, turns, p, text');
  }

  lemma BecomesItself(text: string, search: string, substitute: string)
    requires search != "" && Finds(text, search, 0, None)
    ensures Becomes(text, search, substitute, text)
  {
    FindsMeans(text, search, 0, None);
    ExchangedNothing(text, search, substitute);
  }

  lemma BecomesFrom(text: string, search: string, substitute: string, i: nat, rest: string, result: string)
    requires search != "" && Finds(text, search, 0, Some(i)) && rest == text[i + |search|..]
    requires Becomes(rest, search, substitute, result)
    ensures Becomes(text, search, substitute, text[..i] + substitute + result)
  {
    FindsMeans(text, search, 0, Some(i));
    BecomesMeans(rest, search, substitute, result);
    ExchangedTurn(text, search, substitute, i, rest);
  }

  lemma FindsQuietly(out: string, from: nat, rest: string, search: string, f: Option<nat>)
    requires search != "" && Quiet(out, from, search) && Finds(rest, search, 0, f)
    ensures Finds(out + rest, search, from, if f.None? then None else Some(|out| + f.value))
  {
    FindsMeans(rest, search, 0, f);
    QuietFind(out, from, rest, search);
  }

  /** The loop with `out` done and `rest` to come exchanges all there is in the rest. */
  lemma {:induction false} ExchangesAll(out: string, from: nat, rest: string, search: string, substitute: string,
                                        turns: nat)
    returns (result: string)
    requires search != "" && Exchangeable(search, substitute) && Quiet(out, from, search) && |rest| < turns
    ensures Becomes(rest, search, substitute, result)
    ensures Gives(out + rest, search, substitute, from, turns, Some(out + result))
    decreases |rest|
  {
    var f := Searching(rest, search, 0);
    FindsQuietly(out, from, rest, search, f);
    if f.None? {
      result := rest;
      BecomesItself(rest, search, substitute);
      GivesAtOnce(out + rest, search, substitute, from, turns, None);
    } else {
      var i := f.value;
      var before, rest' := out + rest[..i], rest[i + |search|..];
      QuietAfter(before, search, substitute);
      var last := ExchangesAll(before + substitute, |before| + |search|, rest', search, substitute, turns - 1);
      result := rest[..i] + substitute + last;
      BecomesFrom(rest, search, substitute, i, rest', last);
      SplicedAfter(out, rest, i, |search|, substitute);
      Regroup(out, rest[..i], substitute, last);
      GivesLater(out + rest, search, substitute, from, turns, |out| + i, before + substitute + rest',
                 Some(before + substitute + last));
    }
  }

  lemma Regroup(a: string, b: string, c: string, d: string)
    ensures a + b + c + d == a + (b + c + d)
  {}

  /** Once it replaces by something not shorter the text never shrinks. */
  lemma {:induction false} NeverShrinks(text: string, search: string, substitute: string, position: nat, turns: nat)
    requires |substitute| >= |search|
    ensures var r := Loop(text, search, substitute, position, turns); r.Some? ==> |r.value| >= |text|
    decreases turns
  {
    match Find(text, search, position)
    case None =>
    case Some(p) =>
      if turns > 0 {
        NeverShrinks(Spliced(text, p, |search|, substitute), search, substitute, p + |search|, turns - 1);
      }
  }

  lemma FindAtStart(search: string, w: string)
    ensures Find(search + w, search, 0) == Some(0)
  {
    assert Occurs(search + w, search, 0);
  }

  lemma ExchangedTurn(text: string, search: string, substitute: string, i: nat, rest: string)
    requires search != "" && Find(text, search, 0) == Some(i) && rest == text[i + |search|..]
    ensures Exchanged(text, search, substitute) == text[..i] + substitute + Exchanged(rest, search, substitute)
  {}

  lemma ExchangedNothing(text: string, search: string, substitute: string)
    requires search != "" && Find(text, search, 0) == None
    ensures Exchanged(text, search, substitute) == text
  {}

  /** A text that starts with the search string, with nothing to find after it. */
  lemma OneOccurrence(search: string, w: string, substitute: string)
    requires search != "" && |w| < |search|
    ensures Find(search + w, search, 0) == Some(0)
    ensures Exchanged(search + w, search, substitute) == substitute + w
  {
    var text := search + w;
    FindAtStart(search, w);
    ExchangedTurn(text, search, substitute, 0, w);
    ExchangedNothing(w, search, substitute);
  }

  lemma TailOccurs(search: string, substitute: string, i: nat, w: string)
    requires i < |substitute| && Compatible(substitute[i..], search)
    requires w == if |substitute| - i < |search| then search[|substitute| - i..] else ""
    ensures Occurs(substitute + w, search, i)
  {
    var text := substitute + w;
    assert text[i..] == substitute[i..] + w;
    if |substitute| - i < |search| {
      assert substitute[i..] == search[..|substitute| - i];
      assert text[i..] == search;
    } else {
      assert search == substitute[i..][..|search|];
    }
    assert text[i..i + |search|] == text[i..][..|search|];
  }

  /** With something left to find and a longer substitute the loop does not leave the text as it is. */
  lemma Grows(text: string, search: string, substitute: string, position: nat, turns: nat)
    requires |substitute| > |search| && Find(text, search, position).Some?
    ensures Loop(text, search, substitute, position, turns) != Some(text)
  {
    var f := Find(text, search, position);
    LoopTurn(text, search, substitute, position, turns, f);
    if turns > 0 {
      NeverShrinks(Spliced(text, f.value, |search|, substitute), search, substitute, f.value + |search|, turns - 1);
    }
  }

  /** The text on which a substitute fails whose tail, from i on, may begin an occurrence. */
  function Witness(search: string, substitute: string, i: nat): string
    requires i <= |substitute|
  {
    search + if |substitute| - i < |search| then search[|substitute| - i..] else ""
  }

  lemma {:induction false} FindsSome(text: string, pattern: string, pos: nat, i: nat)
    requires pos <= i && Occurs(text, pattern, i)
    ensures Find(text, pattern, pos).Some?
    decreases i - pos
  {
    if pos < i {
      FindsSome(text, pattern, pos + 1, i);
    }
  }

  /** After the first exchange there is something left to find, so the loop goes on. */
  lemma GoesOn(search: string, substitute: string, i: nat, w: string, turns: nat)
    requires search != "" && |search| <= i < |substitute| && Compatible(substitute[i..], search)
    requires w == if |substitute| - i < |search| then search[|substitute| - i..] else ""
    ensures Loop(substitute + w, search, substitute, |search|, turns) != Some(substitute + w)
  {
    TailOccurs(search, substitute, i, w);
    FindsSome(substitute + w, search, |search|, i);
    Grows(substitute + w, search, substitute, |search|, turns);
  }

  /** A longer substitute whose tail may start an occurrence replaces too often. */
  lemma TooOften(search: string, substitute: string, i: nat, turns: nat)
    requires search != "" && |search| <= i < |substitute| && Compatible(substitute[i..], search)
    ensures var text := Witness(search, substitute, i);
      Loop(text, search, substitute, 0, turns) != Some(Exchanged(text, search, substitute))
  {
    var w := if |substitute| - i < |search| then search[|substitute| - i..] else "";
    var text := search + w;
    OneOccurrence(search, w, substitute);
    if turns == 0 {
      LoopTurn(text, search, substitute, 0, turns, Some(0));
    } else {
      assert Spliced(text, 0, |search|, substitute) == substitute + w;
      LoopGoesOn(text, search, substitute, 0, turns, 0, substitute + w);
      GoesOn(search, substitute, i, w, turns - 1);
    }
  }

  lemma FindTooShort(text: string, pattern: string, pos: nat)
    requires pos + |pattern| > |text|
    ensures Find(text, pattern, pos) == None
  {}

  /** A shorter substitute makes the loop step over the next occurrence. */
  lemma StepsOver(search: string, substitute: string, turns: nat)
    requires |substitute| < |search|
    ensures var r := Loop(search + search, search, substitute, 0, turns);
      r == if turns == 0 then None else Some(substitute + search)
  {
    var text, text' := search + search, substitute + search;
    FindAtStart(search, search);
    LoopTurn(text, search, substitute, 0, turns, Some(0));
    if turns > 0 {
      assert Spliced(text, 0, |search|, substitute) == text';
      FindTooShort(text', search, |search|);
      LoopTurn(text', search, substitute, |search|, turns - 1, None);
    }
  }

  lemma TwoOccurrences(search: string, substitute: string)
    requires search != ""
    ensures Exchanged(search + search, search, substitute) == substitute + substitute
  {
    FindAtStart(search, search);
    OneOccurrence(search, "", substitute);
    assert search + "" == search && substitute + "" == substitute;
    ExchangedTurn(search + search, search, substitute, 0, search);
  }

  lemma TooSeldom(search: string, substitute: string)
    requires |substitute| < |search|
    ensures !Replaces(search + search, search, substitute)
  {
    TwoOccurrences(search, substitute);
    ExchangedIsExpected(search + search, search, substitute);
    forall turns: nat
      ensures Loop(search + search, search, substitute, 0, turns) != Some(substitute + substitute)
    {
      StepsOver(search, substitute, turns);
      if turns > 0 {
        assert |substitute + search| != |substitute + substitute|;
      }
    }
  }

  lemma FailsAt(search: string, substitute: string, i: nat)
    requires search != "" && |search| <= i < |substitute| && Compatible(substitute[i..], search)
    ensures !Replaces(Witness(search, substitute, i), search, substitute)
  {
    var text := Witness(search, substitute, i);
    ExchangedIsExpected(text, search, substitute);
    forall turns: nat
      ensures Loop(text, search, substitute, 0, turns) != Some(Exchanged(text, search, substitute))
    {
      TooOften(search, substitute, i, turns);
    }
  }

  lemma ReplacesAll(text: string, search: string, substitute: string)
    requires search != "" && Exchangeable(search, substitute)
    ensures Replaces(text, search, substitute)
  {
    var result := ExchangesAll("", 0, text, search, substitute, |text| + 1);
    assert "" + text == text && "" + result == result;
    GivesMeans(text, search, substitute, 0, |text| + 1, Some(result));
    BecomesMeans(text, search, substitute, result);
    ExchangedIsExpected(text, search, substitute);
  }

  /** replace does what is documented, for every text, exactly for exchangeable strings. */
  lemma ReplaceExact(search: string, substitute: string)
    requires search != ""
    ensures (forall text :: Replaces(text, search, substitute)) <==> Exchangeable(search, substitute)
  {
    if Exchangeable(search, substitute) {
      forall text ensures Replaces(text, search, substitute) {
        ReplacesAll(text, search, substitute);
      }
    } else if |substitute| < |search| {
      TooSeldom(search, substitute);
    } else {
      var i :| |search| <= i < |substitute| && Compatible(substitute[i..], search);
      FailsAt(search, substitute, i);
    }
  }

  // ---------------------------------------------------------------------------------------------
  // Termination for every text
  // ---------------------------------------------------------------------------------------------

  /** The substitute holds no search string that the loop comes across when it goes on. */
  predicate Consumes(search: string, substitute: string) {
    search != "" && Find(substitute, search, |search|) == None
  }

  lemma FindOccurs(text: string, pattern: string, pos: nat)
    ensures var f := Find(text, pattern, pos); f.Some? ==> Occurs(text, pattern, f.value)
  {
    FindFirst(text, pattern, pos);
  }

  /** An occurrence found with more text behind reaches beyond a text that has none. */
  lemma Crosses(out: string, rest: string, search: string, position: nat, p: nat)
    requires Finds(out, search, position, None) && Finds(out + rest, search, position, Some(p))
    ensures p + |search| > |out|
  {
    FindsMeans(out, search, position, None);
    FindsMeans(out + rest, search, position, Some(p));
    if p + |search| <= |out| {
      FindOccurs(out + rest, search, position);
      assert out == (out + rest)[..|out|];
      SamePlace(out, out + rest, search, p);
      FindsSome(out, search, position, p);
    }
  }

  lemma FindBehind(before: string, text: string, pattern: string, pos: nat)
    requires pos <= |text|
    ensures Find(text, pattern, pos) == None <==> Find(before + text, pattern, |before| + pos) == None
  {
    FindInSuffix(text, pattern, pos);
    FindInSuffix(before + text, pattern, |before| + pos);
    assert (before + text)[|before| + pos..] == text[pos..];
  }

  lemma SplicedCrossing(out: string, rest: string, p: nat, n: nat, substitute: string)
    requires |out| < p + n <= |out| + |rest|
    ensures Spliced(out + rest, p, n, substitute) == (out + rest)[..p] + substitute + rest[p + n - |out|..]
  {}

  lemma NothingBehind(before: string, search: string, substitute: string)
    requires Consumes(search, substitute) && |search| <= |substitute|
    ensures Finds(before + substitute, search, |before| + |search|, None)
  {
    FindBehind(before, substitute, search, |search|);
  }

  /** Every turn takes some of the text that has not been looked at yet. */
  lemma {:induction false} ConsumesRest(out: string, rest: string, search: string, substitute: string,
                                        position: nat, turns: nat)
    returns (result: string)
    requires Consumes(search, substitute) && |search| <= |substitute| && |rest| < turns
    requires Finds(out, search, position, None)
    ensures Gives(out + rest, search, substitute, position, turns, Some(result))
    decreases |rest|
  {
    var f := Searching(out + rest, search, position);
    if f.None? {
      result := out + rest;
      GivesAtOnce(out + rest, search, substitute, position, turns, None);
    } else {
      var p := f.value;
      Crosses(out, rest, search, position, p);
      var before, rest' := (out + rest)[..p], rest[p + |search| - |out|..];
      NothingBehind(before, search, substitute);
      result := ConsumesRest(before + substitute, rest', search, substitute, p + |search|, turns - 1);
      SplicedCrossing(out, rest, p, |search|, substitute);
      GivesLater(out + rest, search, substitute, position, turns, p, before + substitute + rest', Some(result));
    }
  }

  lemma OccursBetween(before: string, text: string, after: string, pattern: string, i: nat)
    requires Occurs(text, pattern, i)
    ensures Occurs(before + text + after, pattern, |before| + i)
  {
    var all := before + text + after;
    forall k | |before| <= k < |before| + |text| ensures all[k] == text[k - |before|] {}
  }

  lemma FoundAgain(text: string, search: string, substitute: string, p: nat) returns (q: nat)
    requires p + |search| <= |text| && Find(substitute, search, |search|).Some?
    ensures Finds(Spliced(text, p, |search|, substitute), search, p + |search|, Some(q))
  {
    var i := Find(substitute, search, |search|).value;
    FindOccurs(substitute, search, |search|);
    OccursBetween(text[..p], substitute, text[p + |search|..], search, i);
    FindsSome(Spliced(text, p, |search|, substitute), search, p + |search|, p + i);
    q := Find(Spliced(text, p, |search|, substitute), search, p + |search|).value;
  }

  /** With something to find each turn leaves something to find. */
  lemma {:induction false} NeverEnds(text: string, search: string, substitute: string, position: nat, p: nat,
                                     turns: nat)
    requires Finds(text, search, position, Some(p)) && Find(substitute, search, |search|).Some?
    ensures Gives(text, search, substitute, position, turns, None)
    decreases turns
  {
    if turns == 0 {
      GivesAtOnce(text, search, substitute, position, 0, Some(p));
    } else {
      var q := FoundAgain(text, search, substitute, p);
      NeverEnds(Spliced(text, p, |search|, substitute), search, substitute, p + |search|, q, turns - 1);
      GivesLater(text, search, substitute, position, turns, p, Spliced(text, p, |search|, substitute), None);
    }
  }

  ghost predicate Terminates(text: string, search: string, substitute: string) {
    exists turns: nat :: Loop(text, search, substitute, 0, turns).Some?
  }

  lemma TerminatesOn(text: string, search: string, substitute: string)
    requires Consumes(search, substitute)
    ensures Terminates(text, search, substitute)
  {
    if |substitute| < |search| {
      Ends(text, search, substitute, 0, |text| + 1);
    } else {
      assert "" + text == text;
      FindTooShort("", search, 0);
      var result := ConsumesRest("", text, search, substitute, 0, |text| + 1);
      GivesMeans(text, search, substitute, 0, |text| + 1, Some(result));
    }
  }

  lemma Diverges(search: string, substitute: string)
    requires !Consumes(search, substitute)
    ensures !Terminates(search, search, substitute)
  {
    forall turns: nat ensures Loop(search, search, substitute, 0, turns) == None {
      if search == "" {
        EmptySearchNeverEnds(search, substitute, 0, turns);
      } else {
        assert search + "" == search;
        FindAtStart(search, "");
        NeverEnds(search, search, substitute, 0, 0, turns);
        GivesMeans(search, search, substitute, 0, turns, None);
      }
    }
  }

  /**
   The loop ends for every text exactly when the search string is not empty and does not occur in the
   substitute from the position on at which the loop goes on.
   */
  lemma TerminatesExactly(search: string, substitute: string)
    ensures (forall text :: Terminates(text, search, substitute)) <==> Consumes(search, substitute)
  {
    if Consumes(search, substitute) {
      forall text ensures Terminates(text, search, substitute) {
        TerminatesOn(text, search, substitute);
      }
    } else {
      Diverges(search, substitute);
    }
  }

  // ---------------------------------------------------------------------------------------------
  // One character
  // ---------------------------------------------------------------------------------------------

  /** replace for characters: std::replace over a copy of the text. */
  method ReplaceChar(original: string, search: char, substitute: char) returns (text: string)
    ensures |text| == |original|
    ensures forall i :: 0 <= i < |text| ==> text[i] == if original[i] == search then substitute else original[i]
    ensures text == Join(Tokens(original, [search]), [substitute])
  {
    text := original;
    for i := 0 to |original|
      invariant |text| == |original|
      invariant forall j :: 0 <= j < i ==> text[j] == if original[j] == search then substitute else original[j]
      invariant forall j :: i <= j < |text| ==> text[j] == original[j]
    {
      if text[i] == search {
        text := text[i := substitute];
      }
    }
    CharwiseIsExpected(original, text, search, substitute);
  }

  lemma {:induction false} CharwiseIsExpected(original: string, text: string, search: char, substitute: char)
    requires |text| == |original|
    requires forall i :: 0 <= i < |text| ==> text[i] == if original[i] == search then substitute else original[i]
    ensures text == Join(Tokens(original, [search]), [substitute])
    decreases |original|
  {
    FindChar(original, search);
    match Find(original, [search], 0)
    case None => assert text == original;
    case Some(i) =>
      CharwiseIsExpected(original[i + 1..], text[i + 1..], search, substitute);
      assert text[..i] == original[..i];
      assert text == text[..i] + [text[i]] + text[i + 1..];
      assert Tokens(original, [search])[1..] == Tokens(original[i + 1..], [search]);
  }
}
