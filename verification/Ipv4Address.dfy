/** IPv4 addresses as text: subnets, netmasks and prefixes. */
module Ipv4Addresses {
  import opened Common
  import opened Bits
  import opened Decimal
  import opened Splitting

  // ---------------------------------------------------------------------------------------------
  // Dotted quads
  // ---------------------------------------------------------------------------------------------

  function Printed(octets: seq<nat>): (parts: seq<string>)
    ensures |parts| == |octets|
  {
    seq(|octets|, i requires 0 <= i < |octets| => ToString(octets[i]))
  }

  function Dotted(octets: seq<nat>): string
    requires octets != []
  {
    Join(Printed(octets), ".")
  }

  function OctetsOf(n: nat): seq<nat> {
    [n / 256 / 256 / 256, n / 256 / 256 % 256, n / 256 % 256, n % 256]
  }

  function NumberOf(octets: seq<nat>): nat
    requires |octets| == 4
  {
    ((octets[0] * 256 + octets[1]) * 256 + octets[2]) * 256 + octets[3]
  }

  /** inet_ntoa. */
  function Print(n: nat): string {
    Dotted(OctetsOf(n))
  }

  /** One part as getSubnet reads it into an unsigned int; None when that throws or is beyond 255. */
  function Octet(part: string): Option<nat> {
    match Stoul(part)
    case None => None
    case Some(v) => if v % UINT_RANGE > 255 then None else Some(v % UINT_RANGE)
  }

  predicate AllOctets(parts: seq<string>) {
    forall i :: 0 <= i < |parts| ==> Octet(parts[i]).Some?
  }

  function Octets(parts: seq<string>): (octets: seq<nat>)
    requires AllOctets(parts)
    ensures |octets| == |parts| && forall i :: 0 <= i < |octets| ==> octets[i] <= 255
  {
    seq(|parts|, i requires 0 <= i < |parts| => Octet(parts[i]).value)
  }

  /** The number a text stands for in getSubnet: four parts that can be read. */
  function Parsed(text: string): Option<nat> {
    var parts := Tokens(text, ".");
    if |parts| == 4 && AllOctets(parts) then Some(NumberOf(Octets(parts))) else None
  }

  lemma NoDots(n: nat)
    ensures '.' !in ToString(n)
  {
    PrintedDigits(n);
  }

  lemma OctetsBack(n: nat)
    requires n < UINT_RANGE
    ensures NumberOf(OctetsOf(n)) == n && forall i :: 0 <= i < 4 ==> OctetsOf(n)[i] <= 255
  {}

  lemma LastOctet(upper: nat, octet: nat)
    requires octet <= 255
    ensures (upper * 256 + octet) / 256 == upper && (upper * 256 + octet) % 256 == octet
  {}

  lemma NumberBack(octets: seq<nat>)
    requires |octets| == 4 && forall i :: 0 <= i < 4 ==> octets[i] <= 255
    ensures OctetsOf(NumberOf(octets)) == octets && NumberOf(octets) < UINT_RANGE
  {
    var upper := octets[0] * 256 + octets[1];
    var upmost := upper * 256 + octets[2];
    LastOctet(octets[0], octets[1]);
    LastOctet(upper, octets[2]);
    LastOctet(upmost, octets[3]);
    assert NumberOf(octets) == upmost * 256 + octets[3];
  }

  /** Splitting and reading what was printed. */
  lemma DottedBack(octets: seq<nat>)
    requires octets != [] && forall i :: 0 <= i < |octets| ==> octets[i] <= 255
    ensures Tokens(Dotted(octets), ".") == Printed(octets)
    ensures AllOctets(Printed(octets)) && Octets(Printed(octets)) == octets
  {
    var parts := Printed(octets);
    forall i | 0 <= i < |parts| ensures '.' !in parts[i] && Octet(parts[i]) == Some(octets[i]) {
      NoDots(octets[i]);
      ReadPrinted(octets[i]);
    }
    CharTokensJoin(parts, '.');
  }

  /** Reading a printed address gives it back, so different addresses print differently. */
  lemma ParsedPrint(n: nat)
    requires n < UINT_RANGE
    ensures Parsed(Print(n)) == Some(n)
  {
    OctetsBack(n);
    DottedBack(OctetsOf(n));
  }

  lemma PrintNumber(octets: seq<nat>)
    requires |octets| == 4 && forall i :: 0 <= i < 4 ==> octets[i] <= 255
    ensures Print(NumberOf(octets)) == Dotted(octets)
  {
    NumberBack(octets);
  }

  lemma DottedFour(octets: seq<nat>, parts: seq<string>)
    requires |octets| == |parts| == 4 && parts == Printed(octets)
    ensures Dotted(octets) == parts[0] + "." + parts[1] + "." + parts[2] + "." + parts[3]
  {
    assert parts == [parts[0], parts[1], parts[2], parts[3]];
    JoinParts(parts[0], parts[1], parts[2], parts[3]);
  }

  /** The uppermost octet is printed first. */
  lemma PrintOrder(octets: seq<nat>)
    requires |octets| == 4 && forall i :: 0 <= i < 4 ==> octets[i] <= 255
    ensures NumberOf(octets) == octets[0] * 16777216 + octets[1] * 65536 + octets[2] * 256 + octets[3]
    ensures var parts := Printed(octets);
      && (forall i :: 0 <= i < 4 ==> parts[i] == ToString(octets[i]))
      && Print(NumberOf(octets)) == parts[0] + "." + parts[1] + "." + parts[2] + "." + parts[3]
  {
    PrintNumber(octets);
    DottedFour(octets, Printed(octets));
  }

  lemma JoinParts(a: string, b: string, c: string, d: string)
    ensures Join([a, b, c, d], ".") == a + "." + b + "." + c + "." + d
  {
    assert [a, b, c, d][1..] == [b, c, d] && [b, c, d][1..] == [c, d] && [c, d][1..] == [d];
    assert Join([c, d], ".") == c + "." + d;
    assert Join([b, c, d], ".") == b + "." + (c + "." + d);
  }

  /** A part is read modulo the range of unsigned int, so that some numbers beyond it pass for octets. */
  lemma HugeOctet(n: nat)
    requires n < ULONG_RANGE
    ensures Octet(ToString(n)).Some? <==> n % UINT_RANGE <= 255
  {
    ReadPrinted(n);
  }

  // ---------------------------------------------------------------------------------------------
  // getSubnet
  // ---------------------------------------------------------------------------------------------

  /** What reading the parts pairwise comes to: an exception, a part beyond 255, or the octets. */
  datatype Outcome = Throws | Invalid | Anded(octets: seq<nat>)

  function After(octet: nat, rest: Outcome): Outcome {
    if rest.Anded? then Anded([octet] + rest.octets) else rest
  }

  function Combined(address: seq<string>, netmask: seq<string>): Outcome
    requires |address| == |netmask|
  {
    if address == [] then Anded([])
    else if Stoul(address[0]).None? || Stoul(netmask[0]).None? then Throws
    else if Octet(address[0]).None? || Octet(netmask[0]).None? then Invalid
    else After(BitAnd(Octet(address[0]).value, Octet(netmask[0]).value), Combined(address[1..], netmask[1..]))
  }

  /** getSubnet's result; None when it throws. */
  function Subnet(address: string, netmask: string): Option<string> {
    var a, n := Tokens(address, "."), Tokens(netmask, ".");
    if |a| != 4 || |n| != 4 then Some("")
    else
      match Combined(a, n)
      case Throws => None
      case Invalid => Some("")
      case Anded(octets) => if octets == [] then Some("") else Some(Dotted(octets))
  }

  /** Each octet followed by a dot. */
  function Trailing(octets: seq<nat>): string {
    if octets == [] then "" else Trailing(octets[..|octets| - 1]) + ToString(octets[|octets| - 1]) + "."
  }

  lemma {:induction false} JoinSnoc(parts: seq<string>, part: string, separator: string)
    requires parts != []
    ensures Join(parts + [part], separator) == Join(parts, separator) + separator + part
    decreases |parts|
  {
    var all := parts + [part];
    if |parts| == 1 {
      assert all[1..] == [part];
    } else {
      assert all[1..] == parts[1..] + [part];
      JoinSnoc(parts[1..], part, separator);
    }
  }

  /** Dropping the last dot leaves the dots between the octets. */
  lemma {:induction false} TrailingDot(octets: seq<nat>)
    requires octets != []
    ensures Trailing(octets) == Dotted(octets) + "."
    decreases |octets|
  {
    var front, last := octets[..|octets| - 1], octets[|octets| - 1];
    if |octets| == 1 {
      assert Printed(octets) == [ToString(last)];
    } else {
      TrailingDot(front);
      assert Printed(octets) == Printed(front) + [ToString(last)];
      JoinSnoc(Printed(front), ToString(last), ".");
    }
  }

  method GetSubnet(address: string, netmask: string) returns (result: Option<string>)
    ensures result == Subnet(address, netmask)
  {
    var addressParts := SplitChar(address, '.');
    var netmaskParts := SplitChar(netmask, '.');
    if |addressParts| != 4 || |netmaskParts| != 4 {
      return Some("");
    }
    var subnet := "";
    ghost var octets: seq<nat> := [];
    var index := 0;
    while index < 4
      invariant 0 <= index <= 4 && |octets| == index && subnet == Trailing(octets)
      invariant Combined(addressParts, netmaskParts)
             == Before(octets, Combined(addressParts[index..], netmaskParts[index..]))
    {
      var address0, netmask0 := Stoul(addressParts[index]), Stoul(netmaskParts[index]);
      if address0.None? || netmask0.None? {
        return None;
      }
      var addressByte, netmaskByte := address0.value % UINT_RANGE, netmask0.value % UINT_RANGE;
      if addressByte > 255 || netmaskByte > 255 {
        return Some("");
      }
      var subnetByte := BitAnd(addressByte, netmaskByte);
      BeforeSnoc(octets, subnetByte, Combined(addressParts[index + 1..], netmaskParts[index + 1..]));
      subnet := subnet + (ToString(subnetByte) + ".");
      assert (octets + [subnetByte])[..index] == octets;
      octets := octets + [subnetByte];
      index := index + 1;
    }
    TrailingDot(octets);
    assert octets + [] == octets;
    subnet := subnet[..|subnet| - 1];
    return Some(subnet);
  }

  function Before(octets: seq<nat>, rest: Outcome): Outcome {
    if rest.Anded? then Anded(octets + rest.octets) else rest
  }

  lemma BeforeSnoc(octets: seq<nat>, octet: nat, rest: Outcome)
    ensures Before(octets, After(octet, rest)) == Before(octets + [octet], rest)
  {
    if rest.Anded? {
      assert octets + ([octet] + rest.octets) == octets + [octet] + rest.octets;
    }
  }

  function PairwiseAnd(a: seq<nat>, b: seq<nat>): (r: seq<nat>)
    requires |a| == |b|
    ensures |r| == |a|
  {
    seq(|a|, i requires 0 <= i < |a| => BitAnd(a[i], b[i]))
  }

  /** The octets come out exactly when all parts can be read. */
  lemma {:induction false} CombinedExactly(a: seq<string>, n: seq<string>)
    requires |a| == |n|
    ensures Combined(a, n).Anded? <==> AllOctets(a) && AllOctets(n)
    ensures Combined(a, n).Anded? ==> Combined(a, n).octets == PairwiseAnd(Octets(a), Octets(n))
    decreases |a|
  {
    if a != [] {
      CombinedExactly(a[1..], n[1..]);
      AllOctetsStep(a);
      AllOctetsStep(n);
      if AllOctets(a) && AllOctets(n) {
        assert Octets(a)[1..] == Octets(a[1..]) && Octets(n)[1..] == Octets(n[1..]);
        assert PairwiseAnd(Octets(a), Octets(n))
            == [BitAnd(Octets(a)[0], Octets(n)[0])] + PairwiseAnd(Octets(a[1..]), Octets(n[1..]));
      }
    }
  }

  /**
   The first part of either text that is no octet decides: an exception if one of the two cannot be
   converted, and otherwise, for a number beyond 255, none.
   */
  lemma {:induction false} FirstBadPart(a: seq<string>, n: seq<string>, k: nat)
    requires |a| == |n| && k < |a|
    requires forall i :: 0 <= i < k ==> Octet(a[i]).Some? && Octet(n[i]).Some?
    requires Octet(a[k]).None? || Octet(n[k]).None?
    ensures Combined(a, n) == if Stoul(a[k]).None? || Stoul(n[k]).None? then Throws else Invalid
    decreases k
  {
    if k > 0 {
      assert Octet(a[0]).Some? && Octet(n[0]).Some?;
      FirstBadPart(a[1..], n[1..], k - 1);
    }
  }

  lemma AllOctetsStep(parts: seq<string>)
    requires parts != []
    ensures AllOctets(parts) <==> Octet(parts[0]).Some? && AllOctets(parts[1..])
  {
    if Octet(parts[0]).Some? && AllOctets(parts[1..]) {
      forall i | 0 <= i < |parts| ensures Octet(parts[i]).Some? {
        if i > 0 {
          assert parts[i] == parts[1..][i - 1];
        }
      }
    }
  }

  lemma Up8(a: nat)
    ensures Up(a, 8) == 256 * a && Pow2(8) == 256
  {
    assert Up(a, 4) == 16 * a && Pow2(4) == 16;
    assert Up(a, 6) == 64 * a && Pow2(6) == 64;
  }

  lemma AndOctet(a: nat, b: nat, c: nat, d: nat)
    requires c <= 255 && d <= 255
    ensures BitAnd(a * 256 + c, b * 256 + d) == BitAnd(a, b) * 256 + BitAnd(c, d)
  {
    Up8(a);
    Up8(b);
    Up8(BitAnd(a, b));
    AndSplits(a, b, c, d, 8);
  }

  /** Octet by octet is the and of the 32-bit numbers. */
  lemma AndOfOctets(a: seq<nat>, b: seq<nat>)
    requires |a| == |b| == 4
    requires forall i :: 0 <= i < 4 ==> a[i] <= 255 && b[i] <= 255
    ensures NumberOf(PairwiseAnd(a, b)) == BitAnd(NumberOf(a), NumberOf(b))
  {
    var a1, b1 := a[0] * 256 + a[1], b[0] * 256 + b[1];
    var a2, b2 := a1 * 256 + a[2], b1 * 256 + b[2];
    AndOctet(a[0], b[0], a[1], b[1]);
    AndOctet(a1, b1, a[2], b[2]);
    AndOctet(a2, b2, a[3], b[3]);
  }

  lemma AndAtMost255(a: nat, b: nat)
    requires b <= 255
    ensures BitAnd(a, b) <= 255
  {
    Up8(0);
    AndBound(a, b, 8);
  }

  /**
   getSubnet gives a text exactly when both address and netmask can be read, and that text is the
   and of the two 32-bit numbers, printed canonically. Without four parts each it gives "".
   */
  lemma SubnetIsAnd(address: string, netmask: string)
    ensures (match Subnet(address, netmask) case None => false case Some(s) => s != "")
       <==> Parsed(address).Some? && Parsed(netmask).Some?
    ensures Parsed(address).Some? && Parsed(netmask).Some? ==>
      Subnet(address, netmask) == Some(Print(BitAnd(Parsed(address).value, Parsed(netmask).value)))
    ensures |Tokens(address, ".")| != 4 || |Tokens(netmask, ".")| != 4 ==> Subnet(address, netmask) == Some("")
  {
    var a, n := Tokens(address, "."), Tokens(netmask, ".");
    if |a| == 4 && |n| == 4 {
      CombinedExactly(a, n);
      if AllOctets(a) && AllOctets(n) {
        AndedPrinted(Octets(a), Octets(n));
      }
    }
  }

  /**
   With four parts each, the first part that is no octet decides: getSubnet throws if it cannot be converted,
   in the address or in the netmask, and gives "" if one of the two is merely beyond 255.
   */
  lemma SubnetFailsExactly(address: string, netmask: string, k: nat)
    requires |Tokens(address, ".")| == |Tokens(netmask, ".")| == 4 && k < 4
    requires var a, n := Tokens(address, "."), Tokens(netmask, ".");
      && (forall i :: 0 <= i < k ==> Octet(a[i]).Some? && Octet(n[i]).Some?)
      && (Octet(a[k]).None? || Octet(n[k]).None?)
    ensures Subnet(address, netmask)
         == if Stoul(Tokens(address, ".")[k]).None? || Stoul(Tokens(netmask, ".")[k]).None? then None else Some("")
  {
    FirstBadPart(Tokens(address, "."), Tokens(netmask, "."), k);
  }

  lemma AndedPrinted(a: seq<nat>, b: seq<nat>)
    requires |a| == |b| == 4
    requires forall i :: 0 <= i < 4 ==> a[i] <= 255 && b[i] <= 255
    ensures Dotted(PairwiseAnd(a, b)) == Print(BitAnd(NumberOf(a), NumberOf(b))) != ""
  {
    forall i | 0 <= i < 4 ensures BitAnd(a[i], b[i]) <= 255 {
      AndAtMost255(a[i], b[i]);
    }
    NumberBack(PairwiseAnd(a, b));
    AndOfOctets(a, b);
    TrailingDot(PairwiseAnd(a, b));
  }

  lemma ParsedRange(text: string)
    ensures Parsed(text).Some? ==> Parsed(text).value < UINT_RANGE
  {
    if Parsed(text).Some? {
      NumberBack(Octets(Tokens(text, ".")));
    }
  }

  lemma Pow32()
    ensures Pow2(32) == UINT_RANGE
  {
    assert Pow2(8) == 256;
    assert Pow2(16) == 65536 by { assert Pow2(12) == 4096; }
    assert Pow2(24) == 16777216 by { assert Pow2(20) == 1048576; }
    assert Pow2(28) == 268435456;
  }

  /** The subnet of a subnet is itself. */
  lemma SubnetIdempotent(address: string, netmask: string)
    requires Parsed(address).Some? && Parsed(netmask).Some?
    ensures var s := Subnet(address, netmask); s.Some? && Subnet(s.value, netmask) == s
  {
    var x, y := Parsed(address).value, Parsed(netmask).value;
    ParsedRange(netmask);
    Pow32();
    AndBound(x, y, 32);
    ParsedPrint(BitAnd(x, y));
    SubnetIsAnd(address, netmask);
    SubnetIsAnd(Print(BitAnd(x, y)), netmask);
    AndIdempotent(x, y);
  }

  lemma PrintInjective(x: nat, y: nat)
    requires x < UINT_RANGE && y < UINT_RANGE
    ensures Print(x) == Print(y) <==> x == y
  {
    ParsedPrint(x);
    ParsedPrint(y);
  }

  lemma SamePrefixExactly(x: nat, y: nat, prefix: nat)
    requires x < UINT_RANGE && y < UINT_RANGE && prefix <= 32
    ensures Print(BitAnd(x, Mask(prefix, 32))) == Print(BitAnd(y, Mask(prefix, 32)))
       <==> x / Pow2(32 - prefix) == y / Pow2(32 - prefix)
  {
    var m := Mask(prefix, 32);
    Pow32();
    MaskBound(prefix, 32);
    AndBound(x, m, 32);
    AndBound(y, m, 32);
    PrintInjective(BitAnd(x, m), BitAnd(y, m));
    MaskedEqual(x, y, prefix, 32);
    ShiftDivides(x, 32 - prefix);
    ShiftDivides(y, 32 - prefix);
  }

  /**
   Two addresses have the same subnet text under the netmask of a prefix exactly when their upper
   bits agree (section 3.1 of RFC 4632).
   */
  lemma SameSubnetExactly(a: string, b: string, netmask: string, prefix: nat)
    requires Parsed(a).Some? && Parsed(b).Some? && prefix <= 32 && Parsed(netmask) == Some(Mask(prefix, 32))
    ensures Subnet(a, netmask) == Subnet(b, netmask)
       <==> Parsed(a).value / Pow2(32 - prefix) == Parsed(b).value / Pow2(32 - prefix)
  {
    ParsedRange(a);
    ParsedRange(b);
    SubnetIsAnd(a, netmask);
    SubnetIsAnd(b, netmask);
    SamePrefixExactly(Parsed(a).value, Parsed(b).value, prefix);
  }

  // ---------------------------------------------------------------------------------------------
  // Netmasks and prefixes
  // ---------------------------------------------------------------------------------------------

  lemma {:induction false} Pow2Monotone(a: nat, b: nat)
    requires a <= b
    ensures Pow2(a) <= Pow2(b)
    decreases b
  {
    if a < b {
      Pow2Monotone(a, b - 1);
    }
  }

  lemma SmallRemainder(a: nat, m: nat)
    requires a < m
    ensures a % m == a
  {}

  /** A mask of fewer bits than the word has loses nothing when it is shifted up by one. */
  lemma ShiftKeeps(p: nat, count: nat, width: nat)
    requires p <= count < width
    ensures 2 * Mask(p, count) % Pow2(width) == 2 * Mask(p, count)
  {
    MaskBound(p, count);
    Pow2Monotone(count + 1, width);
    SmallRemainder(2 * Mask(p, count), Pow2(width));
  }

  /** The loop of getNetmaskFromPrefix for a word of any width. */
  method MaskOfPrefix(prefix: nat, width: nat) returns (subnet: nat)
    requires prefix <= width
    ensures subnet == Mask(prefix, width)
  {
    subnet := 0;
    var left := prefix;
    for count := 0 to width
      invariant left == if count <= prefix then prefix - count else 0
      invariant subnet == Mask(if count <= prefix then count else prefix, count)
    {
      var ones := if count <= prefix then count else prefix;
      MaskStep(ones, count);
      ShiftKeeps(ones, count, width);
      subnet := 2 * subnet % Pow2(width);
      if left != 0 {
        subnet := subnet + 1;
        left := left - 1;
      }
    }
  }

  /** Empty for a prefix beyond 32. */
  method GetNetmaskFromPrefix(prefix: nat) returns (netmask: string)
    ensures netmask == if prefix > 32 then "" else Print(Mask(prefix, 32))
  {
    if prefix > 32 {
      return "";
    }
    var subnet := MaskOfPrefix(prefix, 32);
    return Print(subnet);
  }

  /** Below the first clear bit a mask has no bit set. */
  lemma GapIsNoMask(n: nat, width: nat, clear: nat, bit: nat)
    requires n < Pow2(width) && bit < clear < width && !BitAt(n, clear) && BitAt(n, bit)
    ensures forall p :: 0 <= p <= width ==> n != Mask(p, width)
  {
    forall p | 0 <= p <= width ensures n != Mask(p, width) {
      MaskBits(p, width, clear);
      MaskBits(p, width, bit);
    }
  }

  lemma {:induction false} MasksDiffer(p: nat, q: nat, width: nat)
    requires p < q <= width
    ensures Mask(p, width) != Mask(q, width)
  {
    MaskBits(p, width, width - q);
    MaskBits(q, width, width - q);
  }

  /**
   The two loops of getPrefixFromNetmask for a word of any width: the number of leading ones, or -1
   if a one follows a zero. Exactly the masks are accepted.
   */
  method PrefixOfMask(n: nat, width: nat) returns (result: int)
    requires width > 0 && n < Pow2(width)
    ensures result == -1 || (0 <= result <= width && n == Mask(result, width))
    ensures forall p :: 0 <= p <= width && n == Mask(p, width) ==> result == p
  {
    var prefix := 0;
    var mask := Pow2(width - 1);
    while mask != 0
      invariant 0 <= prefix <= width
      invariant mask == if prefix < width then Pow2(width - 1 - prefix) else 0
      invariant forall i :: width - prefix <= i < width ==> BitAt(n, i)
      decreases width - prefix
    {
      AndPow2(n, width - 1 - prefix);
      if BitAnd(n, mask) == 0 {
        break;
      }
      mask := mask / 2;
      prefix := prefix + 1;
    }
    var pos := prefix + 1;
    while pos < width
      invariant prefix < pos && (prefix < width ==> pos <= width && mask == Pow2(width - pos))
      invariant forall i: nat :: width - pos <= i < width - prefix ==> !BitAt(n, i)
    {
      mask := mask / 2;
      AndPow2(n, width - 1 - pos);
      if BitAnd(n, mask) != 0 {
        GapIsNoMask(n, width, width - 1 - prefix, width - 1 - pos);
        return -1;
      }
      pos := pos + 1;
    }
    IsMask(n, prefix, width);
    forall p | 0 <= p <= width && p != prefix ensures Mask(p, width) != Mask(prefix, width) {
      MasksDiffer(if p < prefix then p else prefix, if p < prefix then prefix else p, width);
    }
    return prefix;
  }

  const INADDR_NONE := 0xFFFF_FFFF

  lemma Printed255()
    ensures ToString(255) == "255"
  {
    assert ToString(2) == "2" && ToString(25) == "25";
  }

  lemma Broadcast()
    ensures Print(INADDR_NONE) == "255.255.255.255"
  {
    var octets := OctetsOf(INADDR_NONE);
    assert octets == [255, 255, 255, 255];
    Printed255();
    assert Printed(octets) == ["255", "255", "255", "255"];
    JoinParts("255", "255", "255", "255");
  }

  predicate Refused(netmask: string, addr: nat) {
    addr == INADDR_NONE && netmask != "255.255.255.255"
  }

  /**
   `addr` is what inet_addr makes of the text; all that is asked of it is that it reads what inet_ntoa
   prints. The result is the prefix exactly when that is a mask, so the netmasks getNetmaskFromPrefix
   makes give their prefix back.
   */
  method GetPrefixFromNetmask(netmask: string, addr: nat) returns (result: int)
    requires addr < UINT_RANGE
    requires forall n: nat :: n < UINT_RANGE && netmask == Print(n) ==> addr == n
    ensures result == -1 || (0 <= result <= 32 && !Refused(netmask, addr) && addr == Mask(result, 32))
    ensures forall p :: 0 <= p <= 32 && addr == Mask(p, 32) && !Refused(netmask, addr) ==> result == p
    ensures forall p :: 0 <= p <= 32 && netmask == Print(Mask(p, 32)) ==> result == p
    ensures result != -1 && netmask == Print(addr) ==> Print(Mask(result, 32)) == netmask
  {
    Pow32();
    Broadcast();
    forall p | 0 <= p <= 32 && netmask == Print(Mask(p, 32))
      ensures addr == Mask(p, 32) && !Refused(netmask, addr)
    {
      MaskBound(p, 32);
    }
    if addr == INADDR_NONE && netmask != "255.255.255.255" {
      return -1;
    }
    result := PrefixOfMask(addr, 32);
  }

  /** A prefix of 8 is the netmask whose first octet is full. */
  lemma PrefixOfEight()
    ensures Print(Mask(8, 32)) == "255.0.0.0"
  {
    Mask8();
    PrintNumber([255, 0, 0, 0]);
    DottedEight();
  }

  lemma DottedEight()
    ensures Dotted([255, 0, 0, 0]) == "255.0.0.0"
  {
    var parts := Printed([255, 0, 0, 0]);
    DottedFour([255, 0, 0, 0], parts);
    PrintedEight();
    EightText(parts[0], parts[1]);
  }

  lemma EightText(full: string, zero: string)
    requires full == "255" && zero == "0"
    ensures full + "." + zero + "." + zero + "." + zero == "255.0.0.0"
  {}

  lemma PrintedEight()
    ensures var parts := Printed([255, 0, 0, 0]);
      parts[0] == "255" && parts[1] == "0" && parts[2] == "0" && parts[3] == "0"
  {
    Printed255();
    assert ToString(0) == "0";
  }

  lemma Mask8()
    ensures Mask(8, 32) == 4278190080 == NumberOf([255, 0, 0, 0])
  {
    assert Pow2(4) == 16 && Pow2(8) == 256;
    assert Mask(8, 12) == 255 * 16;
    assert Mask(8, 16) == 255 * 256;
    assert Mask(8, 20) == 255 * 4096;
    assert Mask(8, 24) == 255 * 65536;
    assert Mask(8, 28) == 255 * 1048576;
  }
}
