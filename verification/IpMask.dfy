/** Netmasks and prefix lengths (opsbro/misc/IPy.py). */
module IpMask {
  import opened Common
  import opened Bits

  // ---------------------------------------------------------------- counting bits

  /** The number of binary digits of `n`. */
  function BitLength(n: nat): nat {
    if n == 0 then 0 else 1 + BitLength(n / 2)
  }

  /** The number of zeros at the end of `n` in binary; none for zero. */
  function TrailingZeros(n: nat): nat {
    if n == 0 || n % 2 == 1 then 0 else 1 + TrailingZeros(n / 2)
  }

  method Count1Bits(n: int) returns (ret: nat)
    ensures ret == if n > 0 then BitLength(n) else 0
  {
    var num := n;
    ret := 0;
    while num > 0
      invariant n > 0 ==> num >= 0 && ret + BitLength(num) == BitLength(n)
      invariant n <= 0 ==> ret == 0 && num == n
    {
      num := num / 2;
      ret := ret + 1;
    }
  }

  method Count0Bits(n: int) returns (r: Result<nat>)
    ensures r == if n < 0 then Raised else Ok(TrailingZeros(n))
  {
    if n < 0 {
      return Raised;
    }
    var num := n;
    var ret := 0;
    while num > 0
      invariant 0 <= num <= n && (num == 0 ==> n == 0) && ret + TrailingZeros(num) == TrailingZeros(n)
    {
      if num % 2 == 1 {
        break;
      }
      num := num / 2;
      ret := ret + 1;
    }
    return Ok(ret);
  }

  /** _count1Bits gives the place of the highest one. */
  lemma {:induction false} BitLengthIs(n: nat, k: nat)
    ensures BitLength(n) == k <==> n < Pow2(k) && (k > 0 ==> Pow2(k - 1) <= n)
    decreases n
  {
    if n > 0 && k > 0 {
      BitLengthIs(n / 2, k - 1);
    }
  }

  /** _count0Bits gives the place of the lowest one. */
  lemma {:induction false} TrailingZerosIs(n: nat) returns (odd: nat)
    requires n > 0
    ensures odd % 2 == 1 && n == odd * Pow2(TrailingZeros(n))
    decreases n
  {
    if n % 2 == 1 {
      odd := n;
    } else {
      odd := TrailingZerosIs(n / 2);
      assert odd * Pow2(TrailingZeros(n)) == 2 * (odd * Pow2(TrailingZeros(n / 2)));
    }
  }

  // ---------------------------------------------------------------- _checkNetmask

  predicate OnlyOnes(num: nat, bits: nat) {
    bits == 0 || (num % 2 == 1 && OnlyOnes(num / 2, bits - 1))
  }

  /** The lowest `bits` digits are ones above zeros. */
  predicate OnesAboveZeros(num: nat, bits: nat) {
    if bits == 0 then true
    else if num % 2 == 0 then OnesAboveZeros(num / 2, bits - 1)
    else OnlyOnes(num, bits)
  }

  method CheckNetmask(netmask: nat, masklen: nat) returns (ok: bool)
    ensures ok == OnesAboveZeros(netmask, masklen)
  {
    var num := netmask;
    var bits := masklen;
    while num % 2 == 0 && bits != 0
      invariant OnesAboveZeros(num, bits) == OnesAboveZeros(netmask, masklen)
      decreases bits
    {
      num := num / 2;
      bits := bits - 1;
      if bits == 0 {
        break;
      }
    }
    assert bits == 0 || num % 2 == 1;
    while bits > 0
      invariant OnlyOnes(num, bits) == OnesAboveZeros(netmask, masklen)
    {
      if num % 2 == 0 {
        return false;
      }
      num := num / 2;
      bits := bits - 1;
    }
    return true;
  }

  /** Nothing but ones below 2^bits: one less than the power of two. */
  lemma {:induction false} OnlyOnesIs(num: nat, bits: nat)
    requires num < Pow2(bits)
    ensures OnlyOnes(num, bits) <==> num == Pow2(bits) - 1
  {
    if bits > 0 {
      OnlyOnesIs(num / 2, bits - 1);
    }
  }

  /** A block of ones: a difference of two powers of two. */
  ghost predicate IsBlock(num: nat, high: nat, low: nat) {
    low <= high && num == Pow2(high) - Pow2(low)
  }

  lemma BlockHalf(num: nat, high: nat, low: nat)
    requires low > 0 && high > 0
    ensures IsBlock(num, high, low) <==> num % 2 == 0 && IsBlock(num / 2, high - 1, low - 1)
  {
  }

  lemma {:induction false} OnesAboveZerosIs(num: nat, bits: nat)
    requires num < Pow2(bits)
    ensures OnesAboveZeros(num, bits) <==> exists low :: IsBlock(num, bits, low)
    decreases bits
  {
    if bits == 0 {
      assert IsBlock(num, 0, 0);
    } else if num % 2 == 0 {
      var half, rest := num / 2, bits - 1;
      OnesAboveZerosIs(half, rest);
      if low: nat :| IsBlock(half, rest, low) {
        BlockHalf(num, bits, low + 1);
        assert IsBlock(num, bits, low + 1);
      }
      if low: nat :| IsBlock(num, bits, low) {
        EvenBlock(num, bits, low);
        BlockHalf(num, bits, low);
        assert IsBlock(half, rest, low - 1);
      }
    } else {
      OnlyOnesIs(num, bits);
      if low: nat :| IsBlock(num, bits, low) {
        OddBlock(num, bits, low);
      }
      if OnlyOnes(num, bits) {
        assert IsBlock(num, bits, 0);
      }
    }
  }

  lemma EvenBlock(num: nat, high: nat, low: nat)
    requires high > 0 && num % 2 == 0 && IsBlock(num, high, low)
    ensures low > 0
  {
  }

  lemma OddBlock(num: nat, high: nat, low: nat)
    requires num % 2 == 1 && IsBlock(num, high, low)
    ensures low == 0
  {
  }

  // ---------------------------------------------------------------- masks and prefix lengths

  function NetmaskToPrefixlen(netmask: int): Result<int> {
    if netmask < 0 || !OnesAboveZeros(netmask, BitLength(netmask)) then Raised
    else Ok(BitLength(netmask) - TrailingZeros(netmask))
  }

  method NetmaskToPrefix(netmask: int) returns (r: Result<int>)
    ensures r == NetmaskToPrefixlen(netmask)
  {
    var netlen := Count0Bits(netmask);
    if netlen.Raised? {
      return Raised;
    }
    var masklen := Count1Bits(netmask);
    var ok := CheckNetmask(netmask, masklen);
    if !ok {
      return Raised;
    }
    var prefixlen: int := masklen;
    return Ok(prefixlen - netlen.value);
  }

  /** The places of the highest and lowest ones of a block. */
  lemma BlockBits(num: nat, high: nat, low: nat)
    requires IsBlock(num, high, low) && low < high
    ensures num > 0 && BitLength(num) == high && TrailingZeros(num) == low
  {
    Pow2Grows(low, high);
    BitLengthIs(num, high);
    BlockZeros(num, high, low);
  }

  lemma {:induction false} BlockZeros(num: nat, high: nat, low: nat)
    requires IsBlock(num, high, low) && low < high
    ensures TrailingZeros(num) == low
  {
    Pow2Grows(low, high);
    if low > 0 {
      BlockHalf(num, high, low);
      BlockZeros(num / 2, high - 1, low - 1);
    }
  }

  /** A positive mask is accepted exactly when it is one contiguous block of ones, and its prefix length is the
      number of ones, wherever the block stands. */
  lemma AcceptedIffBlock(netmask: nat, prefixlen: int)
    requires netmask > 0
    ensures NetmaskToPrefixlen(netmask) == Ok(prefixlen)
            <==> exists high: nat, low: nat :: low < high && IsBlock(netmask, high, low) && prefixlen == high - low
  {
    var len := BitLength(netmask);
    BitLengthIs(netmask, len);
    OnesAboveZerosIs(netmask, len);
    if low: nat :| IsBlock(netmask, len, low) {
      assert low < len;
      BlockBits(netmask, len, low);
    }
    if high: nat, low: nat :| low < high && IsBlock(netmask, high, low) && prefixlen == high - low {
      BlockBits(netmask, high, low);
    }
  }

  function BitsOf(version: int): Result<nat> {
    if version == 4 then Ok(32) else if version == 6 then Ok(128) else Raised
  }

  /** `ones` ones with `zeros` zeros below them. */
  function Mask(ones: nat, zeros: nat): nat {
    (Pow2(ones) - 1) * Pow2(zeros)
  }

  /** `prefixlen` ones, then zeros up to the width of the version; a shift by a negative count raises. */
  function PrefixlenToNetmask(prefixlen: int, version: int): Result<nat> {
    if prefixlen == 0 then Ok(0)
    else if prefixlen < 0 || BitsOf(version).Raised? || BitsOf(version).value < prefixlen then Raised
    else Ok(Mask(prefixlen, BitsOf(version).value - prefixlen))
  }

  lemma MaskIsBlock(prefixlen: nat, bits: nat)
    requires prefixlen <= bits
    ensures IsBlock(Mask(prefixlen, bits - prefixlen), bits, bits - prefixlen)
  {
    Pow2Add(prefixlen, bits - prefixlen);
    assert (Pow2(prefixlen) - 1) * Pow2(bits - prefixlen)
        == Pow2(prefixlen) * Pow2(bits - prefixlen) - Pow2(bits - prefixlen);
  }

  /** Every prefix length is got back from its mask. */
  lemma PrefixOfMask(prefixlen: nat, version: int)
    requires BitsOf(version).Ok? && prefixlen <= BitsOf(version).value
    ensures PrefixlenToNetmask(prefixlen, version).Ok?
    ensures NetmaskToPrefixlen(PrefixlenToNetmask(prefixlen, version).value) == Ok(prefixlen)
  {
    if prefixlen > 0 {
      var bits := BitsOf(version).value;
      var mask := PrefixlenToNetmask(prefixlen, version).value;
      MaskIsBlock(prefixlen, bits);
      BlockBits(mask, bits, bits - prefixlen);
      AcceptedIffBlock(mask, prefixlen);
    }
  }

  /** The other way round, an accepted IPv4 mask is the mask of its prefix length only when it is empty or its
      highest bit is set: 0.0.255.0, for one, is taken for /8. */
  lemma MaskOfPrefix(netmask: nat, prefixlen: int)
    requires netmask < Pow2(32) && NetmaskToPrefixlen(netmask) == Ok(prefixlen)
    ensures PrefixlenToNetmask(prefixlen, 4) == Ok(netmask) <==> netmask == 0 || netmask >= Pow2(31)
  {
    hide *;
    EmptyMask();
    if netmask > 0 {
      AcceptedIffBlock(netmask, prefixlen);
      var high: nat, low: nat :| low < high && IsBlock(netmask, high, low) && prefixlen == high - low;
      BlockBits(netmask, high, low);
      BitLengthIs(netmask, high);
      HighestPlace(netmask, high);
      BlockBelow(prefixlen);
      MaskIsBlock(prefixlen, 32);
      BlockBits(Mask(prefixlen, 32 - prefixlen), 32, 32 - prefixlen);
      if high == 32 {
        SameBlock(netmask, Mask(prefixlen, 32 - prefixlen), 32, low);
      }
    }
  }

  lemma EmptyMask()
    ensures NetmaskToPrefixlen(0) == Ok(0) && PrefixlenToNetmask(0, 4) == Ok(0)
  {
  }

  lemma BlockBelow(prefixlen: int)
    requires 0 < prefixlen <= 32
    ensures PrefixlenToNetmask(prefixlen, 4) == Ok(Mask(prefixlen, 32 - prefixlen))
  {
  }

  lemma SameBlock(a: nat, b: nat, high: nat, low: nat)
    requires IsBlock(a, high, low) && IsBlock(b, high, low)
    ensures a == b
  {
  }

  lemma HighestPlace(n: nat, high: nat)
    requires n < Pow2(32) && high > 0 && n < Pow2(high) && Pow2(high - 1) <= n
    ensures high <= 32 && (high == 32 <==> n >= Pow2(31))
  {
    hide *;
    if high > 32 {
      assert high - 1 == 32 || 32 < high - 1;
      if 32 < high - 1 {
        Pow2Grows(32, high - 1);
      }
    }
    if high < 31 {
      Pow2Grows(high, 31);
    }
  }

  lemma ZeroZero255ZeroIsTakenForSlash8()
    ensures NetmaskToPrefixlen(0xFF00) == Ok(8) && PrefixlenToNetmask(8, 4) == Ok(0xFF00_0000)
  {
    hide NetmaskToPrefixlen;
    Pow2Byte();
    Pow2Add(8, 8);
    Pow2Add(8, 16);
    assert IsBlock(0xFF00, 16, 8);
    AcceptedIffBlock(0xFF00, 8);
  }

  // ---------------------------------------------------------------- _checkNetaddrWorksWithPrefixlen

  lemma {:induction false} AndOnes(n: nat, k: nat)
    requires n < Pow2(k)
    ensures And(n, Pow2(k) - 1) == n
  {
    if n > 0 {
      AndOnes(n / 2, k - 1);
      assert (Pow2(k) - 1) / 2 == Pow2(k - 1) - 1 && (Pow2(k) - 1) % 2 == 1;
    }
  }

  lemma Multiple(p: nat, q: nat)
    requires p > 0
    ensures (p * q) % p == 0 && (p * q) / p == q
  {
    var x := p * q;
    var d := q - x / p;
    assert x == p * (x / p) + x % p;
    assert p * d == x % p;
    MultipleIsFar(p, d);
  }

  lemma MultipleIsFar(p: nat, d: int)
    ensures (d >= 1 ==> p * d >= p) && (d <= -1 ==> p * d <= 0 - p)
  {
    if d >= 1 {
      assert p * d == p + p * (d - 1);
    } else if d <= -1 {
      assert p * d == p * (d + 1) - p;
    }
  }

  lemma HalfMod(n: nat, p: nat)
    requires p > 0
    ensures n % (2 * p) == 0 <==> n % 2 == 0 && (n / 2) % p == 0
  {
    if n % (2 * p) == 0 {
      var q := n / (2 * p);
      assert n == 2 * (p * q);
      Multiple(p, q);
    }
    if n % 2 == 0 && (n / 2) % p == 0 {
      var q := (n / 2) / p;
      assert n / 2 == p * q;
      assert n == (2 * p) * q;
      Multiple(2 * p, q);
    }
  }

  /** A mask of `ones` ones and `k` zeros keeps exactly the numbers that end in `k` zeros. */
  lemma {:induction false} AndMask(n: nat, ones: nat, k: nat)
    requires n < Pow2(ones + k)
    ensures And(n, Mask(ones, k)) == n <==> n % Pow2(k) == 0
    decreases k
  {
    if k == 0 {
      AndOnes(n, ones);
    } else {
      var half := Mask(ones, k - 1);
      assert Mask(ones, k) == 2 * half;
      AndMask(n / 2, ones, k - 1);
      HalfMod(n, Pow2(k - 1));
      AndEven(n, half);
    }
  }

  lemma AndEven(n: nat, half: nat)
    ensures And(n, 2 * half) == 2 * And(n / 2, half)
  {
    assert (2 * half) / 2 == half && (2 * half) % 2 == 0;
    if n != 0 && half != 0 {
      assert And(n, 2 * half) == 2 * And(n / 2, half) + (n % 2) * 0;
    }
  }

  function CheckNetaddrWorksWithPrefixlen(net: nat, prefixlen: int, version: int): Result<bool> {
    var mask := PrefixlenToNetmask(prefixlen, version);
    if mask.Raised? then Raised else Ok(And(net, mask.value) == net)
  }

  /** An address works with a prefix length exactly when it is a multiple of the size of the network. */
  lemma WorksIffAligned(net: nat, prefixlen: nat, version: int)
    requires BitsOf(version).Ok? && prefixlen <= BitsOf(version).value && net < Pow2(BitsOf(version).value)
    ensures CheckNetaddrWorksWithPrefixlen(net, prefixlen, version)
         == Ok(net % Pow2(BitsOf(version).value - prefixlen) == 0)
  {
    var bits := BitsOf(version).value;
    assert And(net, 0) == 0;
    hide And, Pow2, Mask;
    if prefixlen == 0 {
      Remainder(net, Pow2(bits));
    } else {
      AndMask(net, prefixlen, bits - prefixlen);
    }
  }

  lemma Remainder(n: nat, p: nat)
    requires n < p
    ensures n % p == n
  {
  }
}
