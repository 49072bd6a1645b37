/** split, and what it inverts. */
module Splitting {
  import opened Common

  predicate Occurs(text: string, pattern: string, i: int) {
    0 <= i && i + |pattern| <= |text| && forall k :: 0 <= k < |pattern| ==> text[i + k] == pattern[k]
  }

  /** std::string::find: the first occurrence that starts at `pos` or later. */
  function Find(text: string, pattern: string, pos: nat): (r: Option<nat>)
    ensures r.Some? ==> pos <= r.value && r.value + |pattern| <= |text|
    decreases |text| - pos
  {
    if pos + |pattern| > |text| then None
    else if Occurs(text, pattern, pos) then Some(pos)
    else Find(text, pattern, pos + 1)
  }

  /** The result is an occurrence, and there is none before it. */
  lemma {:induction false} FindFirst(text: string, pattern: string, pos: nat)
    ensures match Find(text, pattern, pos)
      case None => forall j :: pos <= j ==> !Occurs(text, pattern, j)
      case Some(i) => Occurs(text, pattern, i) && forall j :: pos <= j < i ==> !Occurs(text, pattern, j)
    decreases |text| - pos
  {
    if pos + |pattern| <= |text| && !Occurs(text, pattern, pos) {
      FindFirst(text, pattern, pos + 1);
    }
  }

  /** The tokens between the separators, found from left to right. */
  function Tokens(text: string, separator: string): (r: seq<string>)
    requires separator != ""
    ensures r != []
    decreases |text|
  {
    match Find(text, separator, 0)
    case None => [text]
    case Some(i) => [text[..i]] + Tokens(text[i + |separator|..], separator)
  }

  function Join(tokens: seq<string>, separator: string): string
    requires tokens != []
  {
    if |tokens| == 1 then tokens[0] else tokens[0] + separator + Join(tokens[1..], separator)
  }

  /** Searching a suffix is searching from its start. */
  lemma {:induction false} FindInSuffix(text: string, pattern: string, pos: nat)
    requires pos <= |text|
    ensures Find(text, pattern, pos)
         == match Find(text[pos..], pattern, 0) case None => None case Some(i) => Some(pos + i)
    decreases |text| - pos
  {
    var n := |pattern|;
    if pos + n <= |text| {
      assert text[pos..][0..n] == text[pos..pos + n];
      if text[pos..pos + n] != pattern {
        FindInSuffix(text, pattern, pos + 1);
        assert text[pos..][1..] == text[pos + 1..];
        FindInSuffix(text[pos..], pattern, 1);
      }
    }
  }

  lemma TokensHead(text: string, separator: string)
    requires separator != ""
    ensures match Find(text, separator, 0)
      case None => Tokens(text, separator) == [text]
      case Some(i) => Tokens(text, separator) == [text[..i]] + Tokens(text[i + |separator|..], separator)
  {}

  lemma SuffixSlices(text: string, pos: nat, a: nat, b: nat)
    requires pos + a + b <= |text|
    ensures text[pos..][..a] == text[pos..pos + a] && text[pos..][a + b..] == text[pos + a + b..]
  {}

  /** One turn of the split loops: `end` is found in what is left of the text. */
  lemma NextToken(text: string, separator: string, pos: nat, left: string, end: Option<nat>)
    requires separator != "" && pos <= |text| && left == text[pos..] && end == Find(text, separator, pos)
    ensures match end
      case None => Tokens(left, separator) == [left]
      case Some(e) => Tokens(left, separator) == [text[pos..e]] + Tokens(text[e + |separator|..], separator)
  {
    FindInSuffix(text, separator, pos);
    TokensHead(left, separator);
    var f := Find(left, separator, 0);
    if f.Some? {
      SuffixSlices(text, pos, f.value, |separator|);
    }
  }

  /** The same with the tokens so far before it. */
  lemma SplitTurn(text: string, separator: string, pos: nat, result: seq<string>, end: Option<nat>, all: seq<string>)
    requires separator != "" && pos <= |text| && end == Find(text, separator, pos)
    requires result + Tokens(text[pos..], separator) == all
    ensures match end
      case None => result + [text[pos..]] == all
      case Some(e) => result + [text[pos..e]] + Tokens(text[e + |separator|..], separator) == all
  {
    NextToken(text, separator, pos, text[pos..], end);
  }

  /** split by a string; an empty separator splits nothing. */
  method Split(text: string, separator: string) returns (result: seq<string>)
    ensures result == if separator == "" then [text] else Tokens(text, separator)
  {
    result := [];
    if |separator| == 0 {
      return [text];
    }
    var posStart: nat := 0;
    ghost var all := Tokens(text, separator);
    assert text[0..] == text && [] + all == all;
    while true
      invariant posStart <= |text| && result + Tokens(text[posStart..], separator) == all
      decreases |text| - posStart
    {
      var posEnd := Find(text, separator, posStart);
      SplitTurn(text, separator, posStart, result, posEnd, all);
      if posEnd.None? {
        return result + [text[posStart..]];
      }
      result := result + [text[posStart..posEnd.value]];
      posStart := posEnd.value + |separator|;
    }
  }

  /** split by a character. */
  method SplitChar(text: string, separator: char) returns (result: seq<string>)
    ensures result == Tokens(text, [separator])
  {
    result := [];
    var posStart: nat := 0;
    ghost var all := Tokens(text, [separator]);
    assert text[0..] == text && [] + all == all;
    while true
      invariant posStart <= |text| && result + Tokens(text[posStart..], [separator]) == all
      decreases |text| - posStart
    {
      var posEnd := Find(text, [separator], posStart);
      SplitTurn(text, [separator], posStart, result, posEnd, all);
      if posEnd.None? {
        return result + [text[posStart..]];
      }
      result := result + [text[posStart..posEnd.value]];
      posStart := posEnd.value + 1;
    }
  }

  /** Joining the tokens gives the text back. */
  lemma {:induction false} JoinTokens(text: string, separator: string)
    requires separator != ""
    ensures Join(Tokens(text, separator), separator) == text
    decreases |text|
  {
    FindFirst(text, separator, 0);
    match Find(text, separator, 0)
    case None =>
    case Some(i) =>
      var rest := text[i + |separator|..];
      JoinTokens(rest, separator);
      var tokens := Tokens(text, separator);
      assert tokens[1..] == Tokens(rest, separator);
      assert text == text[..i] + separator + rest;
  }

  /** In `token + separator` nothing looks like the separator before the separator itself. */
  predicate EndsAt(token: string, separator: string) {
    Find(token + separator, separator, 0) == Some(|token|)
  }

  predicate Separable(tokens: seq<string>, separator: string) {
    && tokens != []
    && (forall i :: 0 <= i < |tokens| - 1 ==> EndsAt(tokens[i], separator))
    && Find(tokens[|tokens| - 1], separator, 0) == None
  }

  lemma SamePlace(short: string, long: string, pattern: string, pos: nat)
    requires |short| <= |long| && short == long[..|short|] && pos + |pattern| <= |short|
    ensures Occurs(short, pattern, pos) <==> Occurs(long, pattern, pos)
  {
    assert forall k :: pos <= k < pos + |pattern| ==> short[k] == long[k];
  }

  /** A search that ends within a prefix sees no more than the prefix. */
  lemma {:induction false} FindInPrefix(short: string, long: string, pattern: string, pos: nat, t: nat)
    requires |short| <= |long| && short == long[..|short|] && pos <= t && t + |pattern| == |short|
    ensures Find(short, pattern, pos) == Some(t) <==> Find(long, pattern, pos) == Some(t)
    decreases t - pos
  {
    SamePlace(short, long, pattern, pos);
    if pos < t {
      FindInPrefix(short, long, pattern, pos + 1, t);
    }
  }

  /** The first separator found is the one after the first token exactly when that token ends there. */
  lemma FirstToken(token: string, separator: string, rest: string)
    requires separator != ""
    ensures Find(token + separator + rest, separator, 0) == Some(|token|) <==> EndsAt(token, separator)
  {
    FindInPrefix(token + separator, token + separator + rest, separator, 0, |token|);
  }

  /** It comes out as the first token, before those of the rest, exactly then. */
  lemma FirstTokenOut(token: string, separator: string, rest: string)
    requires separator != ""
    ensures var tokens := Tokens(token + separator + rest, separator);
      if EndsAt(token, separator) then tokens == [token] + Tokens(rest, separator) else tokens[0] != token
  {
    var text := token + separator + rest;
    FirstToken(token, separator, rest);
    TokensHead(text, separator);
    if EndsAt(token, separator) {
      assert text[..|token|] == token && text[|token| + |separator|..] == rest;
    } else {
      match Find(text, separator, 0)
      case None => assert |text| > |token|;
      case Some(i) => assert |text[..i]| != |token|;
    }
  }

  lemma SeparableTail(tokens: seq<string>, separator: string)
    requires |tokens| > 1
    ensures Separable(tokens, separator) <==> EndsAt(tokens[0], separator) && Separable(tokens[1..], separator)
  {
    var tail := tokens[1..];
    if EndsAt(tokens[0], separator) && Separable(tail, separator) {
      forall i | 0 <= i < |tokens| - 1 ensures EndsAt(tokens[i], separator) {
        if i > 0 {
          assert tail[i - 1] == tokens[i];
        }
      }
    }
    if Separable(tokens, separator) {
      forall i | 0 <= i < |tail| - 1 ensures EndsAt(tail[i], separator) {
        assert tail[i] == tokens[i + 1];
      }
    }
  }

  /** Splitting what was joined gives the tokens back exactly for separable tokens. */
  lemma {:induction false} TokensJoin(tokens: seq<string>, separator: string)
    requires separator != "" && tokens != []
    ensures Tokens(Join(tokens, separator), separator) == tokens <==> Separable(tokens, separator)
    decreases |tokens|
  {
    if |tokens| == 1 {
      assert tokens == [tokens[0]];
      TokensHead(tokens[0], separator);
    } else {
      FirstTokenOut(tokens[0], separator, Join(tokens[1..], separator));
      TokensJoin(tokens[1..], separator);
      SeparableTail(tokens, separator);
      assert tokens == [tokens[0]] + tokens[1..];
      TokensOfTwo(tokens[0], tokens[1..], Tokens(Join(tokens[1..], separator), separator));
    }
  }

  lemma TokensOfTwo(first: string, a: seq<string>, b: seq<string>)
    ensures [first] + a == [first] + b <==> a == b
  {
    assert ([first] + a)[1..] == a && ([first] + b)[1..] == b;
  }

  // ---------------------------------------------------------------------------------------------
  // One character
  // ---------------------------------------------------------------------------------------------

  function Occurrences(text: string, c: char): nat {
    if text == "" then 0 else (if text[0] == c then 1 else 0) + Occurrences(text[1..], c)
  }

  lemma {:induction false} OccurrencesAppend(a: string, b: string, c: char)
    ensures Occurrences(a + b, c) == Occurrences(a, c) + Occurrences(b, c)
    decreases |a|
  {
    if a == "" {
      assert a + b == b;
    } else {
      assert (a + b)[1..] == a[1..] + b;
      OccurrencesAppend(a[1..], b, c);
    }
  }

  lemma {:induction false} NoOccurrences(text: string, c: char)
    ensures c !in text <==> Occurrences(text, c) == 0
    decreases |text|
  {
    if text != "" {
      NoOccurrences(text[1..], c);
    }
  }

  lemma FindChar(text: string, c: char)
    ensures match Find(text, [c], 0)
      case None => c !in text
      case Some(i) => text[i] == c && c !in text[..i]
  {
    FindFirst(text, [c], 0);
    forall j | 0 <= j < |text| ensures Occurs(text, [c], j) <==> text[j] == c {
      assert [c][0] == c && text[j + 0] == text[j];
    }
  }

  /** Split by a character: one token more than there are separators, all free of it. */
  lemma {:induction false} CharTokens(text: string, c: char)
    ensures var tokens := Tokens(text, [c]);
      && |tokens| == Occurrences(text, c) + 1
      && (forall i :: 0 <= i < |tokens| ==> c !in tokens[i])
    decreases |text|
  {
    FindChar(text, c);
    match Find(text, [c], 0)
    case None => NoOccurrences(text, c);
    case Some(i) =>
      CharTokens(text[i + 1..], c);
      assert text == text[..i] + [c] + text[i + 1..];
      OccurrencesAppend(text[..i] + [c], text[i + 1..], c);
      OccurrencesAppend(text[..i], [c], c);
      NoOccurrences(text[..i], c);
  }

  /** For a character the tokens come back exactly when none contains it. */
  lemma {:induction false} CharTokensJoin(tokens: seq<string>, c: char)
    requires tokens != []
    ensures Tokens(Join(tokens, [c]), [c]) == tokens <==> forall i :: 0 <= i < |tokens| ==> c !in tokens[i]
  {
    TokensJoin(tokens, [c]);
    forall i | 0 <= i < |tokens|
      ensures EndsAt(tokens[i], [c]) <==> c !in tokens[i]
      ensures Find(tokens[i], [c], 0) == None <==> c !in tokens[i]
    {
      FindChar(tokens[i], c);
      FindChar(tokens[i] + [c], c);
      assert (tokens[i] + [c])[..|tokens[i]|] == tokens[i];
      assert (tokens[i] + [c])[|tokens[i]|] == c;
    }
  }
}
