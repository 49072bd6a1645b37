/** The adapter list: the prefix counted from an IPv6 netmask, and the search for a subnet conflict. */
module NetadapterLists {
  import opened Common
  import opened Bits
  import opened Ipv4Addresses

  // ---------------------------------------------------------------------------------------------
  // IPv6 prefixes
  // ---------------------------------------------------------------------------------------------

  /** How many of the lower w bits are set. */
  function Ones(n: nat, w: nat): nat
    decreases w
  {
    if w == 0 then 0 else (if n % 2 == 1 then 1 else 0) + Ones(n / 2, w - 1)
  }

  /** The bits set in the bytes before the first that is zero. */
  function OnesBeforeZero(bytes: seq<nat>): nat {
    if bytes == [] || bytes[0] == 0 then 0 else Ones(bytes[0], 8) + OnesBeforeZero(bytes[1..])
  }

  lemma {:induction false} ShiftTwice(n: nat, k: nat)
    ensures Shift(n, k) / 2 == Shift(n, k + 1)
    decreases k
  {
    if k > 0 {
      ShiftTwice(n / 2, k - 1);
    }
  }

  lemma {:induction false} BitIsParity(n: nat, k: nat)
    ensures BitAt(n, k) <==> Shift(n, k) % 2 == 1
    decreases k
  {
    if k > 0 {
      BitIsParity(n / 2, k - 1);
    }
  }

  /** The inner loop, over the bits of one byte. */
  method CountBits(byte: nat, before: nat) returns (bitCount: nat)
    requires byte < 256
    ensures bitCount == before + Ones(byte, 8)
  {
    bitCount := before;
    var mask := 1;
    for bitPos := 0 to 8
      invariant mask == (if bitPos < 8 then Pow2(bitPos) else 0)
      invariant bitCount + Ones(Shift(byte, bitPos), 8 - bitPos) == before + Ones(byte, 8)
    {
      AndPow2(byte, bitPos);
      BitIsParity(byte, bitPos);
      ShiftTwice(byte, bitPos);
      if BitAnd(byte, mask) != 0 {
        bitCount := bitCount + 1;
      }
      BytePowers(bitPos);
      mask := mask * 2 % 256;
    }
  }

  lemma BytePowers(i: nat)
    requires i < 8
    ensures Pow2(i) * 2 % 256 == if i + 1 < 8 then Pow2(i + 1) else 0
  {
    assert Pow2(4) == 16;
    assert Pow2(6) == 64;
    assert Pow2(8) == 256;
  }

  /** The prefix of a netmask of any number of bytes. */
  method CountPrefix(bytes: seq<nat>) returns (bitCount: nat)
    requires forall i :: 0 <= i < |bytes| ==> bytes[i] < 256
    ensures bitCount == OnesBeforeZero(bytes)
  {
    bitCount := 0;
    for bytePos := 0 to |bytes|
      invariant bitCount + OnesBeforeZero(bytes[bytePos..]) == OnesBeforeZero(bytes)
    {
      if bytes[bytePos] == 0 {
        break;
      }
      bitCount := CountBits(bytes[bytePos], bitCount);
      assert bytes[bytePos..][1..] == bytes[bytePos + 1..];
    }
  }

  /** How many of the bits below w are set, bit by bit. */
  function BitCount(n: nat, w: nat): nat {
    if w == 0 then 0 else BitCount(n, w - 1) + if BitAt(n, w - 1) then 1 else 0
  }

  lemma {:induction false} BitCountHalf(n: nat, w: nat)
    ensures BitCount(n, w + 1) == (if n % 2 == 1 then 1 else 0) + BitCount(n / 2, w)
    decreases w
  {
    if w > 0 {
      BitCountHalf(n, w - 1);
    } else {
      assert BitCount(n, 0) == 0;
    }
  }

  /** Ones counts the bits that are set. */
  lemma {:induction false} OnesAreBits(n: nat, w: nat)
    ensures Ones(n, w) == BitCount(n, w)
    decreases w
  {
    if w > 0 {
      OnesAreBits(n / 2, w - 1);
      BitCountHalf(n, w - 1);
    }
  }

  /** The first zero byte ends the count, whatever follows. */
  lemma {:induction false} StopsAtZero(bytes: seq<nat>, rest: seq<nat>)
    ensures OnesBeforeZero(bytes + [0] + rest) == OnesBeforeZero(bytes)
    decreases |bytes|
  {
    if bytes != [] {
      assert (bytes + [0] + rest)[1..] == bytes[1..] + [0] + rest;
      StopsAtZero(bytes[1..], rest);
    }
  }

  /** The bytes as one number, the first byte uppermost. */
  function BigEndian(bytes: seq<nat>): nat {
    if bytes == [] then 0 else Up(bytes[0], 8 * (|bytes| - 1)) + BigEndian(bytes[1..])
  }

  lemma {:induction false} UpBound(a: nat, b: nat, k: nat, m: nat)
    requires a < Pow2(m) && b < Pow2(k)
    ensures Up(a, k) + b < Pow2(k + m)
    decreases k
  {
    if k > 0 {
      UpBound(a, b / 2, k - 1, m);
    }
  }

  lemma {:induction false} BigEndianBound(bytes: seq<nat>)
    requires forall i :: 0 <= i < |bytes| ==> bytes[i] < 256
    ensures BigEndian(bytes) < Pow2(8 * |bytes|)
    decreases |bytes|
  {
    if bytes != [] {
      BigEndianBound(bytes[1..]);
      Up8(0);
      UpBound(bytes[0], BigEndian(bytes[1..]), 8 * (|bytes| - 1), 8);
    }
  }

  /** Upper and lower part of a number are unique. */
  lemma {:induction false} UpUnique(a: nat, b: nat, c: nat, d: nat, k: nat)
    requires c < Pow2(k) && d < Pow2(k) && Up(a, k) + c == Up(b, k) + d
    ensures a == b && c == d
    decreases k
  {
    if k > 0 {
      UpDigit(a, c, k);
      UpDigit(b, d, k);
      UpUnique(a, b, c / 2, d / 2, k - 1);
    }
  }

  /** A mask over 8 more bits: its upper byte and what is below. */
  lemma {:induction false} MaskSplits(p: nat, w: nat)
    requires p <= w + 8
    ensures Mask(p, w + 8) == Up(Mask(if p < 8 then p else 8, 8), w) + Mask(if p < 8 then 0 else p - 8, w)
    decreases w
  {
    if w > 0 {
      if p == w + 8 {
        MaskStep(p - 1, w + 7);
        MaskSplits(p - 1, w - 1);
        MaskStep(w - 1, w - 1);
      } else {
        MaskStep(p, w + 7);
        MaskSplits(p, w - 1);
      }
    }
  }

  lemma {:induction false} OnesOfMask(p: nat, w: nat)
    requires p <= w
    ensures Ones(Mask(p, w), w) == p
    decreases w
  {
    if w > 0 {
      if p == w {
        MaskStep(p - 1, w - 1);
        OnesOfMask(p - 1, w - 1);
      } else {
        MaskStep(p, w - 1);
        OnesOfMask(p, w - 1);
      }
    }
  }

  lemma {:induction false} NoOnes(w: nat)
    ensures Mask(0, w) == 0
    decreases w
  {
    if w > 0 {
      NoOnes(w - 1);
    }
  }

  /** The first byte of a mask is one, and the others are one together. */
  lemma HeadOfMask(bytes: seq<nat>, prefix: nat)
    requires bytes != [] && forall i :: 0 <= i < |bytes| ==> bytes[i] < 256
    requires prefix <= 8 * |bytes| && BigEndian(bytes) == Mask(prefix, 8 * |bytes|)
    ensures bytes[0] == Mask(if prefix < 8 then prefix else 8, 8)
    ensures BigEndian(bytes[1..]) == Mask(if prefix < 8 then 0 else prefix - 8, 8 * |bytes[1..]|)
  {
    var w := 8 * |bytes[1..]|;
    var upper, below := if prefix < 8 then prefix else 8, if prefix < 8 then 0 else prefix - 8;
    MaskSplits(prefix, w);
    BigEndianBound(bytes[1..]);
    MaskBound(below, w);
    UpUnique(bytes[0], Mask(upper, 8), BigEndian(bytes[1..]), Mask(below, w), w);
  }

  /** A first byte without ones ends the count. */
  lemma {:induction false} CountHead(bytes: seq<nat>, upper: nat)
    requires bytes != [] && Ones(bytes[0], 8) == upper && (upper > 0 ==> bytes[0] != 0)
    ensures OnesBeforeZero(bytes) == if bytes[0] == 0 then 0 else upper + OnesBeforeZero(bytes[1..])
  {}

  lemma ZeroHasNoOnes()
    ensures Ones(0, 8) == 0
  {
    assert Ones(0, 4) == 0;
  }

  /** The count is the prefix for every mask of that many ones (section 2.3 of RFC 4291). */
  lemma {:induction false} CountsPrefix(bytes: seq<nat>, prefix: nat)
    requires forall i :: 0 <= i < |bytes| ==> bytes[i] < 256
    requires prefix <= 8 * |bytes| && BigEndian(bytes) == Mask(prefix, 8 * |bytes|)
    ensures OnesBeforeZero(bytes) == prefix
    decreases |bytes|
  {
    if bytes != [] {
      var upper, below := if prefix < 8 then prefix else 8, if prefix < 8 then 0 else prefix - 8;
      HeadOfMask(bytes, prefix);
      OnesOfMask(upper, 8);
      NoOnes(8);
      ZeroHasNoOnes();
      CountsPrefix(bytes[1..], below);
      CountHead(bytes, upper);
    }
  }

  // ---------------------------------------------------------------------------------------------
  // checkSubnet
  // ---------------------------------------------------------------------------------------------

  datatype Ipv4Address = Ipv4Address(address: string, netmask: string)

  /** An adapter as far as checkSubnet looks at it. */
  datatype Netadapter = Netadapter(name: string, addresses: seq<Ipv4Address>)

  /** What going through the addresses of one adapter comes to. */
  datatype Verdict = Found | NotFound | Threw

  function Scan(addresses: seq<Ipv4Address>, subnet: string): Verdict {
    if addresses == [] then NotFound
    else
      match Subnet(addresses[0].address, addresses[0].netmask)
      case None => Threw
      case Some(s) => if s == subnet then Found else Scan(addresses[1..], subnet)
  }

  predicate Shares(a: Ipv4Address, subnet: string) {
    Subnet(a.address, a.netmask) == Some(subnet)
  }

  predicate Throwing(a: Ipv4Address) {
    Subnet(a.address, a.netmask) == None
  }

  predicate Decides(a: Ipv4Address, subnet: string) {
    Shares(a, subnet) || Throwing(a)
  }

  function FirstDeciding(addresses: seq<Ipv4Address>, subnet: string): (k: nat)
    ensures k <= |addresses| && (k < |addresses| ==> Decides(addresses[k], subnet))
    ensures forall j :: 0 <= j < k ==> !Decides(addresses[j], subnet)
  {
    if addresses == [] || Decides(addresses[0], subnet) then 0 else 1 + FirstDeciding(addresses[1..], subnet)
  }

  /** The first address that shares the subnet or throws decides. */
  lemma {:induction false} ScanExactly(addresses: seq<Ipv4Address>, subnet: string)
    ensures var k := FirstDeciding(addresses, subnet);
      Scan(addresses, subnet)
      == if k == |addresses| then NotFound else if Shares(addresses[k], subnet) then Found else Threw
    decreases |addresses|
  {
    if addresses != [] && !Decides(addresses[0], subnet) {
      ScanExactly(addresses[1..], subnet);
    }
  }

  method ScanAddresses(addresses: seq<Ipv4Address>, subnet: string) returns (v: Verdict)
    ensures v == Scan(addresses, subnet)
  {
    for k := 0 to |addresses|
      invariant Scan(addresses[k..], subnet) == Scan(addresses, subnet)
    {
      var s := GetSubnet(addresses[k].address, addresses[k].netmask);
      if s.None? {
        return Threw;
      }
      if subnet == s.value {
        return Found;
      }
      assert addresses[k..][1..] == addresses[k + 1..];
    }
    return NotFound;
  }

  /** The adapter does not decide the search. */
  predicate Passed(a: Netadapter, exclude: string, subnet: string) {
    a.name == exclude || Scan(a.addresses, subnet) == NotFound
  }

  /** The search ends at adapter i. */
  predicate EndsAt(adapters: seq<Netadapter>, exclude: string, subnet: string, i: nat, result: Option<string>) {
    && i < |adapters|
    && adapters[i].name != exclude
    && (forall j :: 0 <= j < i ==> Passed(adapters[j], exclude, subnet))
    && match Scan(adapters[i].addresses, subnet)
       case Found => result == Some(adapters[i].name)
       case Threw => result == None
       case NotFound => false
  }

  predicate Answers(adapters: seq<Netadapter>, exclude: string, subnet: string, result: Option<string>) {
    || (result == Some("") && forall i :: 0 <= i < |adapters| ==> Passed(adapters[i], exclude, subnet))
    || exists i :: 0 <= i < |adapters| && EndsAt(adapters, exclude, subnet, i, result)
  }

  /**
   The adapters in the order of the map, which is by interface index. The name of the first that is
   not excluded and has an address in the requested subnet, "" if there is none, None if getSubnet
   throws before that.
   */
  method CheckSubnet(adapters: seq<Netadapter>, exclude: string, requested: Ipv4Address)
    returns (result: Option<string>)
    ensures
      match Subnet(requested.address, requested.netmask)
      case None => result == None
      case Some(subnet) => Answers(adapters, exclude, subnet, result)
  {
    var requestedSubnet := GetSubnet(requested.address, requested.netmask);
    if requestedSubnet.None? {
      return None;
    }
    for i := 0 to |adapters|
      invariant forall j :: 0 <= j < i ==> Passed(adapters[j], exclude, requestedSubnet.value)
    {
      if exclude != adapters[i].name {
        var v := ScanAddresses(adapters[i].addresses, requestedSubnet.value);
        if v != NotFound {
          result := if v == Found then Some(adapters[i].name) else None;
          assert EndsAt(adapters, exclude, requestedSubnet.value, i, result);
          return;
        }
      }
    }
    return Some("");
  }

  /** No address of the adapter makes getSubnet throw, and it has a name. */
  predicate Sound(a: Netadapter) {
    a.name != "" && forall k :: 0 <= k < |a.addresses| ==> !Throwing(a.addresses[k])
  }

  /** Not excluded, with an address in the subnet. */
  predicate Conflicts(a: Netadapter, exclude: string, subnet: string) {
    a.name != exclude && exists k :: 0 <= k < |a.addresses| && Shares(a.addresses[k], subnet)
  }

  lemma PassedExactly(a: Netadapter, exclude: string, subnet: string)
    requires Sound(a)
    ensures Passed(a, exclude, subnet) <==> !Conflicts(a, exclude, subnet)
    ensures Scan(a.addresses, subnet) != Threw
  {
    ScanExactly(a.addresses, subnet);
  }

  predicate NoConflict(adapters: seq<Netadapter>, exclude: string, subnet: string) {
    forall i :: 0 <= i < |adapters| ==> !Conflicts(adapters[i], exclude, subnet)
  }

  /**
   The answer is "" exactly when no adapter but the excluded one has an address in the subnet, and
   else names the first that has.
   */
  lemma {:induction false} NoConflictExactly(adapters: seq<Netadapter>, exclude: string, subnet: string,
                                             result: Option<string>)
    requires forall i :: 0 <= i < |adapters| && adapters[i].name != exclude ==> Sound(adapters[i])
    requires Answers(adapters, exclude, subnet, result)
    ensures result == Some("") <==> NoConflict(adapters, exclude, subnet)
    ensures !NoConflict(adapters, exclude, subnet) ==>
      exists i :: 0 <= i < |adapters| && Conflicts(adapters[i], exclude, subnet) && result == Some(adapters[i].name)
        && NoConflict(adapters[..i], exclude, subnet)
  {
    forall i | 0 <= i < |adapters|
      ensures Passed(adapters[i], exclude, subnet) <==> !Conflicts(adapters[i], exclude, subnet)
      ensures adapters[i].name != exclude ==> Scan(adapters[i].addresses, subnet) != Threw
    {
      if adapters[i].name != exclude {
        PassedExactly(adapters[i], exclude, subnet);
      }
    }
    if !(forall i :: 0 <= i < |adapters| ==> Passed(adapters[i], exclude, subnet)) {
      var i :| 0 <= i < |adapters| && EndsAt(adapters, exclude, subnet, i, result);
      assert Conflicts(adapters[i], exclude, subnet) && result == Some(adapters[i].name);
      assert NoConflict(adapters[..i], exclude, subnet);
    }
  }
}
