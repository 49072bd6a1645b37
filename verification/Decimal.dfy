/** Decimal numbers as the C++ library reads and prints them. */
module Decimal {
  import opened Common

  const ULONG_RANGE := 0x1_0000_0000_0000_0000

  function Digit(d: nat): char
    requires d < 10
  {
    (48 + d) as char
  }

  predicate IsDigit(c: char) {
    '0' <= c <= '9'
  }

  function DigitValue(c: char): (d: nat)
    requires IsDigit(c)
    ensures d < 10 && Digit(d) == c
  {
    c as int - 48
  }

  /** std::to_string of an unsigned number. */
  function ToString(n: nat): string {
    (if n < 10 then "" else ToString(n / 10)) + [Digit(n % 10)]
  }

  predicate IsSpace(c: char) {
    c == ' ' || 9 <= c as int <= 13
  }

  function SkipSpaces(s: string): string {
    if s != "" && IsSpace(s[0]) then SkipSpaces(s[1..]) else s
  }

  predicate Signed(s: string) {
    s != "" && (s[0] == '-' || s[0] == '+')
  }

  function LeadingDigits(s: string): (digits: string)
    ensures forall c :: c in digits ==> IsDigit(c)
  {
    if s != "" && IsDigit(s[0]) then [s[0]] + LeadingDigits(s[1..]) else ""
  }

  function Number(digits: string): nat
    requires forall c :: c in digits ==> IsDigit(c)
  {
    if digits == "" then 0
    else Number(digits[..|digits| - 1]) * 10 + DigitValue(digits[|digits| - 1])
  }

  /**
   std::stoul in base 10: leading white space, a sign, digits, and anything after them. None stands for
   its exceptions, thrown without a digit or for a number beyond the range of unsigned long. A minus
   sign negates in that range.
   */
  function Stoul(s: string): Option<nat> {
    var t := SkipSpaces(s);
    var digits := LeadingDigits(if Signed(t) then t[1..] else t);
    if digits == "" || Number(digits) >= ULONG_RANGE then None
    else if t[0] == '-' then Some((ULONG_RANGE - Number(digits)) % ULONG_RANGE)
    else Some(Number(digits))
  }

  lemma {:induction false} PrintedDigits(n: nat)
    ensures ToString(n) != "" && forall i :: 0 <= i < |ToString(n)| ==> IsDigit(ToString(n)[i])
    decreases n
  {
    if n >= 10 {
      PrintedDigits(n / 10);
    }
  }

  lemma {:induction false} AllDigits(s: string)
    requires forall i :: 0 <= i < |s| ==> IsDigit(s[i])
    ensures LeadingDigits(s) == s
    decreases |s|
  {
    if s != "" {
      AllDigits(s[1..]);
    }
  }

  /** A text that begins with a digit has no white space or sign before it. */
  lemma DigitsFirst(s: string)
    requires s != "" && IsDigit(s[0])
    ensures SkipSpaces(s) == s && !Signed(s) && s[0] != '-'
  {
    assert s[0] as int >= '0' as int == 48;
    assert !IsSpace(s[0]);
  }

  lemma {:induction false} PrintedNumber(n: nat)
    requires forall c :: c in ToString(n) ==> IsDigit(c)
    ensures Number(ToString(n)) == n
    decreases n
  {
    var s := ToString(n);
    var front := s[..|s| - 1];
    if n < 10 {
      assert front == "";
    } else {
      assert front == ToString(n / 10);
      PrintedDigits(n / 10);
      PrintedNumber(n / 10);
    }
  }

  /** Reading what was printed gives the number back. */
  lemma ReadPrinted(n: nat)
    requires n < ULONG_RANGE
    ensures Stoul(ToString(n)) == Some(n)
  {
    var s := ToString(n);
    PrintedDigits(n);
    AllDigits(s);
    PrintedNumber(n);
    DigitsFirst(s);
  }

  /** What std::isspace accepts. */
  const WHITE: seq<char> := [' ', '\t', '\n', 11 as char, 12 as char, '\r']

  lemma {:induction false} SkipsWhite(white: string, rest: string)
    requires (forall i :: 0 <= i < |white| ==> white[i] in WHITE) && (rest == "" || !IsSpace(rest[0]))
    ensures SkipSpaces(white + rest) == rest
    decreases |white|
  {
    if white == "" {
      assert white + rest == rest;
    } else {
      assert white[0] in WHITE && IsSpace(white[0]);
      assert (white + rest)[1..] == white[1..] + rest;
      SkipsWhite(white[1..], rest);
    }
  }

  lemma {:induction false} DigitsEnd(digits: string, tail: string)
    requires (forall i :: 0 <= i < |digits| ==> IsDigit(digits[i])) && (tail == "" || !IsDigit(tail[0]))
    ensures LeadingDigits(digits + tail) == digits
    decreases |digits|
  {
    if digits == "" {
      assert digits + tail == tail;
    } else {
      assert (digits + tail)[1..] == digits[1..] + tail;
      DigitsEnd(digits[1..], tail);
    }
  }

  /** How a number is read: after white space and a sign, up to what is no digit, and in the range only. */
  lemma ReadForms(white: string, sign: string, n: nat, tail: string)
    requires (forall i :: 0 <= i < |white| ==> white[i] in WHITE) && (sign == "" || sign == "+" || sign == "-")
    requires tail == "" || !IsDigit(tail[0])
    ensures Stoul(white + (sign + (ToString(n) + tail)))
         == if n >= ULONG_RANGE then None else if sign == "-" then Some((ULONG_RANGE - n) % ULONG_RANGE) else Some(n)
  {
    var digits := ToString(n);
    PrintedDigits(n);
    PrintedNumber(n);
    DigitsEnd(digits, tail);
    var rest := sign + (digits + tail);
    SignedRest(sign, digits + tail);
    SkipsWhite(white, rest);
  }

  lemma SignedRest(sign: string, rest: string)
    requires (sign == "" || sign == "+" || sign == "-") && rest != "" && IsDigit(rest[0])
    ensures var t := sign + rest;
      && t != "" && !IsSpace(t[0]) && (Signed(t) <==> sign != "") && (t[0] == '-' <==> sign == "-")
      && (if sign == "" then t else t[1..]) == rest
  {
    assert '0' as int == 48 && rest[0] as int >= 48;
    if sign == "" {
      assert sign + rest == rest;
    } else {
      assert (sign + rest)[1..] == rest;
    }
  }

  /** Without a digit there it throws. */
  lemma ReadNothing(white: string, sign: string, tail: string)
    requires (forall i :: 0 <= i < |white| ==> white[i] in WHITE) && (sign == "+" || sign == "-")
    requires tail == "" || !IsDigit(tail[0])
    ensures Stoul(white + (sign + tail)) == None
    ensures tail == "" || (!IsSpace(tail[0]) && !Signed(tail)) ==> Stoul(white + tail) == None
  {
    SkipsWhite(white, sign + tail);
    assert (sign + tail)[1..] == tail;
    if tail == "" || (!IsSpace(tail[0]) && !Signed(tail)) {
      SkipsWhite(white, tail);
    }
  }
}
