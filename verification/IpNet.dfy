/** Networks read from text: the string branch of IPint.__init__ (opsbro/misc/IPy.py). */
module IpNet {
  import opened Common
  import opened IpText
  import opened IpParse
  import opened IpPrint
  import opened IpMask
  import opened Bits

  // ---------------------------------------------------------------- what can be read

  predicate Fits(a: Parsed) {
    (a.version == 4 && 0 <= a.ip < IPV4_END) || (a.version == 6 && 0 <= a.ip < IPV6_END)
  }

  /** What int() is given: the text after a 0x in front. */
  function Body(s: string): string {
    if StartsWith(s, "0x") then s[2..] else s
  }

  /** The texts that int() reads whole: 0x..., and those without colons that have 32 characters or no dot. */
  predicate ReadWhole(s: string) {
    StartsWith(s, "0x") || (':' !in s && (|s| == 32 || '.' !in s))
  }

  /** A number with a minus sign in front, blanks aside, that is not zero. */
  predicate LooksNegative(s: string) {
    ReadWhole(s) && StartsWith(Stripped(Body(s)), "-") && HasNonzeroDigit(Body(s))
  }

  lemma SplitOne(a: string, c: char)
    requires c !in a
    ensures Split(a, c) == [a]
  {
    SplitJoin([a], c);
  }

  /** A short text without a dot is read as the first byte. */
  lemma ShortIsFirstByte(s: string)
    requires '.' !in s && ParseDotted(s).Ok?
    ensures PyInt(s, 10).Ok? && PyInt(s, 10).value >= 0
  {
    hide PyInt, Split;
    SplitOne(s, '.');
    var parts := FourParts(Split(s, '.'));
    assert parts[..1] == [s] && parts[0] == s && PyInt(parts[0], 10) == Ok(Ints(parts, 10).value[0]);
    assert Ints(parts, 10).value[0] in Ints(parts, 10).value;
  }

  lemma PlainSign(s: string)
    requires ParsePlain(s).Ok? && (StartsWith(s, "0x") || ':' !in s)
    ensures ParsePlain(s).value.ip < 0 <==> LooksNegative(s)
    ensures ParsePlain(s).value.ip >= 0 ==> Fits(ParsePlain(s).value)
  {
    hide PyInt, Power, ParseDotted, Stripped, HasNonzeroDigit, Split;
    if StartsWith(s, "0x") {
      PyIntSign(s[2..], 16);
    } else if |s| == 32 {
      Power16();
      PyIntSign(s, 16);
    } else if '.' !in s {
      PyIntSign(s, 10);
      if |s| < 4 && PyInt(s, 10).value < 256 {
        ShortIsFirstByte(s);
      }
    }
  }

  /** Accepted addresses are negative exactly when they are read whole, begin with a minus sign, and are not zero;
      every other accepted address fits its version. */
  lemma NegativeIffLooksNegative(s: string)
    requires ParseAddress(s).Ok?
    ensures ParseAddress(s).value.ip < 0 <==> LooksNegative(s)
    ensures ParseAddress(s).value.ip >= 0 ==> Fits(ParseAddress(s).value)
  {
    hide ParsePlain, ParseIPv6, Stripped, HasNonzeroDigit;
    if StartsWith(s, "0x") || ':' !in s {
      PlainSign(s);
    } else {
      ParseIPv6InRange(s);
    }
  }

  lemma NotInFront(t: string, ch: char)
    requires ch !in t
    ensures !StartsWith(t, [ch])
  {
    assert t != "" ==> t[..1][0] == t[0];
  }

  /** In particular, without a minus sign every accepted address fits its version. */
  lemma AddressInRange(s: string)
    requires '-' !in s && ParseAddress(s).Ok?
    ensures Fits(ParseAddress(s).value)
  {
    hide ParseAddress, HasNonzeroDigit, LStrip, RStrip;
    NegativeIffLooksNegative(s);
    var body := Body(s);
    assert '-' !in body;
    StripHasNo(body, '-');
    StripHasNo(RStrip(body), '-');
    NotInFront(Stripped(body), '-');
  }

  lemma ThreeDigits(n: nat)
    requires n >= 100
    ensures |Show(n, 10)| >= 3
  {
    assert |Show(n, 10)| == 1 + |Show(n / 10, 10)| && |Show(n / 10, 10)| == 1 + |Show(n / 10 / 10, 10)|;
  }

  lemma MoreDigits(digits: string, base: nat)
    requires base in {10, 16} && AreDigits(digits, 10)
    ensures AreDigits(digits, base)
  {
    forall i | 0 <= i < |digits| ensures DigitValue(digits[i]) < base {
      assert DigitValue(digits[i]) < 10;
    }
  }

  lemma DecimalNumeral(digits: string, base: nat)
    requires base in {10, 16} && digits != "" && AreDigits(digits, base)
    ensures var n := Numeral("", "-", "", digits, "");
            && base <= 16 && IsNumeral(n, base) && NumeralText(n) == "-" + digits
            && NumeralValue(n, base) == 0 - Value(digits, base) as int
  {
    hide AreDigits, Value;
  }

  lemma PyIntOfMinus(digits: string, base: nat)
    requires base in {10, 16} && digits != "" && AreDigits(digits, 10)
    ensures PyInt("-" + digits, base) == Ok(0 - Value(digits, base) as int)
  {
    hide *;
    MoreDigits(digits, base);
    DecimalNumeral(digits, base);
    PyIntReadsNumerals("-" + digits, base, 0 - Value(digits, base) as int);
  }

  /** With a minus sign decimal numbers from -100 down are accepted as IPv4 addresses, whatever their size; only with
      31 digits is the text taken for 32 hexadecimal ones, and accepted as an IPv6 address. */
  lemma MinusIsAccepted(n: nat)
    requires n >= 100
    ensures ParseAddress("-" + Show(n, 10))
         == Ok(if |Show(n, 10)| == 31 then Parsed(0 - Value(Show(n, 10), 16) as int, 6) else Parsed(0 - n as int, 4))
  {
    hide Show, Value, PyInt, AreDigits, DigitValue;
    var digits := Show(n, 10);
    ThreeDigits(n);
    PyIntOfMinus(digits, 10);
    PyIntOfMinus(digits, 16);
    ShowValue(n, 10);
    DecimalHasNoMarks(digits);
    var s := "-" + digits;
    assert s[0] == '-' && '.' !in s && ':' !in s;
  }

  lemma PartIsForeign(parts: seq<string>, i: nat)
    requires i < |parts| <= 4 && '/' in parts[i]
    ensures Ints(FourParts(parts), 10).Raised?
  {
    hide Ints, PyInt, FourParts;
    assert FourParts(parts)[..|parts|][i] == parts[i];
    ForeignRaises(parts[i], '/', 10);
  }

  lemma SlashRaisesPlain(s: string)
    requires '/' in s
    ensures ParsePlain(s).Raised?
  {
    hide PyInt, Split, Ints;
    ForeignRaises(s, '/', 10);
    ForeignRaises(s, '/', 16);
    if StartsWith(s, "0x") {
      InTail(s, 2, '/');
      ForeignRaises(s[2..], '/', 16);
    } else if |s| != 32 && '.' in s {
      SplitKeeps(s, '.', '/');
      var parts := Split(s, '.');
      var i :| 0 <= i < |parts| && '/' in parts[i];
      if |parts| <= 4 {
        PartIsForeign(parts, i);
      }
      DottedNeedsInts(s);
    }
  }

  lemma DottedNeedsInts(s: string)
    ensures ParseDotted(s).Ok? ==>
        |Split(s, '.')| <= 4 && Ints(FourParts(Split(s, '.')), 10).Ok?
  {
  }

  lemma {:induction false} HextetsNeedAll(items: seq<string>, i: nat)
    requires i < |items| && Hextet(items[i]).Raised?
    ensures Hextets(items).Raised?
    decreases |items|
  {
    if i < |items| - 1 {
      HextetsNeedAll(items[..|items| - 1], i);
    }
  }

  lemma TextHasNoSlash(t: Tokens)
    requires WellFormed(t) && forall x :: x in t.items ==> '/' !in x
    ensures '/' !in Text(t)
  {
    hide Join;
    match t.fill
    case None =>
      JoinHasNo(t.items, ':', '/');
    case Some(f) =>
      JoinHasNo(t.items[..f], ':', '/');
      JoinHasNo(t.items[f..], ':', '/');
  }

  lemma TextHasSlash(t: Tokens) returns (i: nat)
    requires WellFormed(t) && '/' in Text(t)
    ensures i < |t.items| && '/' in t.items[i]
  {
    hide Text, WellFormed;
    if forall x :: x in t.items ==> '/' !in x {
      TextHasNoSlash(t);
    }
    i :| 0 <= i < |t.items| && '/' in t.items[i];
  }

  lemma SlashStays(t: Tokens, i: nat)
    requires WellFormed(t) && i < |t.items| && '/' in t.items[i] && SplitDotted(t).Ok?
    ensures i < |SplitDotted(t).value| && SplitDotted(t).value[i] == t.items[i]
  {
    hide ParsePlain, TwoGroups;
    if i == |t.items| - 1 {
      SlashRaisesPlain(t.items[i]);
    }
  }

  lemma ExpandKeeps(items: seq<string>, fill: Option<nat>, i: nat) returns (k: nat)
    requires i < |items| && Expand(items, fill).Ok?
    ensures k < |Expand(items, fill).value| && Expand(items, fill).value[k] == items[i]
  {
    k := if fill.Some? && i >= fill.value then i + 8 - |items| else i;
  }

  lemma SlashRaisesIPv6(s: string)
    requires '/' in s
    ensures ParseIPv6(s).Raised?
  {
    hide Scan, Text, WellFormed, SplitDotted, Expand, Hextets;
    if ParseIPv6(s).Ok? {
      var t := ScanIsSound(s, [], None);
      TokensOf(t);
      var i := TextHasSlash(t);
      SlashStays(t, i);
      var k := ExpandKeeps(SplitDotted(t).value, t.fill, i);
      ForeignRaises(t.items[i], '/', 16);
      HextetsNeedAll(Expand(SplitDotted(t).value, t.fill).value, k);
    }
  }

  /** No address contains a slash. */
  lemma SlashRaises(s: string)
    requires '/' in s
    ensures ParseAddress(s).Raised?
  {
    hide ParsePlain, ParseIPv6;
    SlashRaisesPlain(s);
    SlashRaisesIPv6(s);
  }

  // ---------------------------------------------------------------- the constructor

  /** What an IPint object holds. */
  datatype Net = Net(ip: int, version: int, prefixlen: int)

  /** The last step of the constructor: the address has to be the first of its network. */
  function SizedNet(ip: nat, prefixlen: int, version: int): Result<Net> {
    var works := CheckNetaddrWorksWithPrefixlen(ip, prefixlen, version);
    if works.Raised? || !works.value then Raised else Ok(Net(ip, version, prefixlen))
  }

  /** What is after the slash: a netmask in dotted form, or a number. */
  function ReadPrefix(text: string): Result<int> {
    if '.' in text then
      var mask := ParseAddress(text);
      if mask.Raised? || mask.value.version != 4 then Raised else NetmaskToPrefixlen(mask.value.ip)
    else PyInt(text, 10)
  }

  /** A text without a minus sign: an address, alone or with a prefix. */
  function ParseSingle(x: string): Result<Net>
    requires '-' !in x
  {
    var parts := Split(x, '/');
    SplitKeeps(x, '/', '-');
    if |parts| > 2 then Raised
    else
      var address := ParseAddress(parts[0]);
      if address.Raised? then Raised
      else
        AddressInRange(parts[0]);
        var a := address.value;
        var prefixlen := if |parts| == 1 then Ok(BitsOf(a.version).value) else ReadPrefix(parts[1]);
        if prefixlen.Raised? then Raised else SizedNet(a.ip, prefixlen.value, a.version)
  }

  function ReadIPv4(s: string): (r: Result<nat>)
    requires '-' !in s
    ensures r.Ok? ==> r.value < IPV4_END
  {
    var a := ParseAddress(s);
    if a.Raised? || a.value.version != 4 then Raised
    else
      AddressInRange(s);
      Ok(a.value.ip)
  }

  lemma RangeBits(size: nat)
    requires size < IPV4_END
    ensures BitLength(size) <= 32
  {
    hide BitLength, Pow2;
    Pow2Bits();
    var k := BitLength(size);
    BitLengthIs(size, k);
    if k > 33 {
      Pow2Grows(32, k - 1);
    }
  }

  lemma DecimalHasNoSigns(n: nat)
    ensures var s := Show(n, 10);
            '-' !in s && '/' !in s && '.' !in s && PyInt(s, 10) == Ok(n)
  {
    PyIntOfShow(n, 10);
    forall i | 0 <= i < |Show(n, 10)| ensures Show(n, 10)[i] != '-' && Show(n, 10)[i] != '/' && Show(n, 10)[i] != '.' {
      assert DigitValue(Show(n, 10)[i]) < 10;
    }
  }

  /** The text of the network that begins at `first` and has room for `size` more addresses. */
  function BlockText(first: string, size: nat): (text: string)
    requires '-' !in first && size < IPV4_END
    ensures '-' !in text
  {
    RangeBits(size);
    DecimalHasNoSigns(32 - BitLength(size));
    first + "/" + Show(32 - BitLength(size), 10)
  }

  /** first-last: the size gives the prefix length, and the network so named has to end in `last`. */
  function ParseRange(first: string, last: string): Result<Net>
    requires '-' !in first && '-' !in last
  {
    var f, l := ReadIPv4(first), ReadIPv4(last);
    if f.Raised? || l.Raised? || l.value < f.value then Raised
    else
      var size: nat := l.value - f.value;
      var inner := ParseSingle(BlockText(first, size));
      if inner.Raised? || BroadcastOf(inner.value) != Ok(l.value) then Raised
      else SizedNet(f.value, 32 - BitLength(size), 4)
  }

  /** The number of addresses of a network. */
  function LenOf(net: Net): Result<nat> {
    if BitsOf(net.version).Raised? || !(0 <= net.prefixlen <= BitsOf(net.version).value) then Raised
    else Ok(Pow2(BitsOf(net.version).value - net.prefixlen))
  }

  function BroadcastOf(net: Net): Result<int> {
    if LenOf(net).Raised? then Raised else Ok(net.ip + LenOf(net).value - 1)
  }

  function ParseNet(data: string): Result<Net> {
    var parts := Split(data, '-');
    SplitKeeps(data, '-', '-');
    if |parts| == 1 then ParseSingle(parts[0])
    else if |parts| == 2 then ParseRange(parts[0], parts[1])
    else Raised
  }

  // ---------------------------------------------------------------- which networks are accepted

  lemma SplitFirst(a: string, b: string, c: char)
    requires c !in a
    ensures Split(a + [c] + b, c) == [a] + Split(b, c)
  {
    var s := a + [c] + b;
    FindIs(s, c, |a|);
    assert s[..|a|] == a && s[|a| + 1..] == b;
  }

  lemma SplitTwo(a: string, b: string, c: char)
    requires c !in a && c !in b
    ensures Split(a + [c] + b, c) == [a, b]
  {
    SplitFirst(a, b, c);
    SplitOne(b, c);
  }

  lemma SplitMany(b: string, c: char)
    ensures |Split(b, c)| == 1 <==> c !in b
  {
    if c !in b {
      SplitOne(b, c);
    }
  }

  /** What is read from an address, a slash and any text without a minus sign. */
  lemma ReadSlash(address: string, prefix: string)
    requires '-' !in address && '-' !in prefix && ParseAddress(address).Ok?
    ensures var a, x := ParseAddress(address).value, address + "/" + prefix;
            && '-' !in x && a.ip >= 0 && ParseNet(x) == ParseSingle(x)
            && ParseSingle(x) == if '/' in prefix || ReadPrefix(prefix).Raised? then Raised
                                 else SizedNet(a.ip, ReadPrefix(prefix).value, a.version)
  {
    hide ParseAddress, ReadPrefix, SizedNet, Split;
    AddressInRange(address);
    if '/' in address {
      SlashRaises(address);
    }
    SplitFirst(address, prefix, '/');
    SplitMany(prefix, '/');
    if '/' !in prefix {
      SplitOne(prefix, '/');
    }
    SplitOne(address + "/" + prefix, '-');
  }

  lemma SizedIffAligned(a: Parsed, prefixlen: int, net: Net)
    requires Fits(a)
    ensures SizedNet(a.ip, prefixlen, a.version) == Ok(net)
            <==> 0 <= prefixlen <= BitsOf(a.version).value
                 && a.ip % Pow2(BitsOf(a.version).value - prefixlen) == 0 && net == Net(a.ip, a.version, prefixlen)
  {
    hide Pow2;
    Pow2Bits();
    if 0 <= prefixlen <= BitsOf(a.version).value {
      WorksIffAligned(a.ip, prefixlen, a.version);
    } else {
      assert PrefixlenToNetmask(prefixlen, a.version).Raised?;
    }
  }

  /** `address/prefix`, where the prefix is any text without a dot, is accepted exactly when int() reads from it a
      length no greater than that of the address, and the address is a multiple of the size of the network; the
      two are kept. */
  lemma SlashAcceptedIffAligned(address: string, prefix: string, net: Net)
    requires '-' !in address && '-' !in prefix && '.' !in prefix && ParseAddress(address).Ok?
    ensures var a := ParseAddress(address).value;
            && BitsOf(a.version).Ok?
            && (ParseNet(address + "/" + prefix) == Ok(net)
                <==> PyInt(prefix, 10).Ok?
                     && (var p := PyInt(prefix, 10).value;
                         && 0 <= p <= BitsOf(a.version).value && a.ip % Pow2(BitsOf(a.version).value - p) == 0
                         && net == Net(a.ip, a.version, p)))
  {
    hide ParseAddress, ParseNet, ParseSingle, SizedNet, Pow2, PyInt;
    AddressInRange(address);
    ReadSlash(address, prefix);
    if '/' in prefix {
      ForeignRaises(prefix, '/', 10);
    } else if PyInt(prefix, 10).Ok? {
      SizedIffAligned(ParseAddress(address).value, PyInt(prefix, 10).value, net);
    }
  }

  /** The lengths 0 to 32 and 0 to 128, as they are usually written. */
  lemma ShownPrefixIsRead(address: string, prefixlen: nat)
    requires '-' !in address && ParseAddress(address).Ok?
    ensures var a, x := ParseAddress(address).value, address + "/" + Show(prefixlen, 10);
            && '-' !in x && a.ip >= 0 && ParseNet(x) == ParseSingle(x) == SizedNet(a.ip, prefixlen, a.version)
  {
    hide ParseAddress, ParseNet, ParseSingle, SizedNet, PyInt, Show;
    DecimalHasNoSigns(prefixlen);
    ReadSlash(address, Show(prefixlen, 10));
  }

  /** `address/netmask`, where the mask is any text with a dot, is accepted exactly when the mask is read as an IPv4
      address that has a prefix length, and this one fits and the address is aligned to it; the length is kept. */
  lemma SlashNetmask(address: string, mask: string, net: Net)
    requires '-' !in address && '-' !in mask && '.' in mask && ParseAddress(address).Ok?
    ensures var a, m := ParseAddress(address).value, ParseAddress(mask);
            && BitsOf(a.version).Ok?
            && (ParseNet(address + "/" + mask) == Ok(net)
                <==> m.Ok? && m.value.version == 4 && NetmaskToPrefixlen(m.value.ip).Ok?
                     && (var p := NetmaskToPrefixlen(m.value.ip).value;
                         && 0 <= p <= BitsOf(a.version).value && a.ip % Pow2(BitsOf(a.version).value - p) == 0
                         && net == Net(a.ip, a.version, p)))
  {
    hide ParseAddress, ParseNet, ParseSingle, SizedNet, Pow2, NetmaskToPrefixlen;
    AddressInRange(address);
    ReadSlash(address, mask);
    if '/' in mask {
      SlashRaises(mask);
    } else if ReadPrefix(mask).Ok? {
      SizedIffAligned(ParseAddress(address).value, ReadPrefix(mask).value, net);
    }
  }

  /** An address alone is a network of that one address. */
  lemma AloneIsOneAddress(address: string, net: Net)
    requires '-' !in address && '/' !in address
    ensures ParseNet(address) == Ok(net)
            <==> ParseAddress(address).Ok?
                 && var a := ParseAddress(address).value;
                    net == Net(a.ip, a.version, if a.version == 4 then 32 else 128)
  {
    assert Pow2(0) == 1;
    hide ParseAddress, SizedNet, Split, Pow2;
    SplitOne(address, '-');
    SplitOne(address, '/');
    if ParseAddress(address).Ok? {
      AddressInRange(address);
      var a := ParseAddress(address).value;
      SizedIffAligned(a, if a.version == 4 then 32 else 128, net);
    }
  }

  /** Both ends of a range have to be IPv4 addresses, in order. */
  lemma RangesAreIPv4(first: string, last: string)
    requires '-' !in first && '-' !in last && ParseNet(first + "-" + last).Ok?
    ensures var f, l := ParseAddress(first), ParseAddress(last);
            f.Ok? && l.Ok? && f.value.version == l.value.version == 4 && f.value.ip <= l.value.ip
  {
    hide ParseAddress, ParseSingle, Split, SizedNet, BlockText, BroadcastOf;
    SplitTwo(first, last, '-');
  }

  /** More than one minus sign is refused. */
  lemma TwoDashesRaise(first: string, second: string, rest: string)
    requires '-' !in first && '-' !in second
    ensures ParseNet(first + "-" + (second + "-" + rest)).Raised?
  {
    hide ParseSingle, ParseRange, Split;
    SplitFirst(first, second + "-" + rest, '-');
    SplitFirst(second, rest, '-');
    SplitSome(rest, '-');
  }

  lemma SplitSome(s: string, c: char)
    ensures |Split(s, c)| >= 1
  {
  }

  lemma SizedBlock(f: nat, k: nat)
    requires f < IPV4_END && k <= 32
    ensures SizedNet(f, 32 - k, 4) == (if f % Pow2(k) == 0 then Ok(Net(f, 4, 32 - k)) else Raised)
  {
    hide Pow2, CheckNetaddrWorksWithPrefixlen;
    Pow2Bits();
    WorksIffAligned(f, 32 - k, 4);
  }

  lemma AlignedRange(first: string, f: nat, l: nat)
    requires f <= l < IPV4_END && '-' !in first && ParseAddress(first) == Ok(Parsed(f, 4))
    ensures var k := BitLength(l - f);
            && k <= 32 && BlockText(first, l - f) == first + "/" + Show(32 - k, 10)
            && SizedNet(f, 32 - k, 4) == (if f % Pow2(k) == 0 then Ok(Net(f, 4, 32 - k)) else Raised)
            && ParseSingle(BlockText(first, l - f)) == SizedNet(f, 32 - k, 4)
  {
    hide ParseAddress, ParseSingle, Show, Pow2, BitLength, SizedNet;
    var k := BitLength(l - f);
    RangeBits(l - f);
    ShownPrefixIsRead(first, 32 - k);
    SizedBlock(f, k);
  }

  /** `first-last` is accepted exactly when it is a block of 2^k addresses that starts at a multiple of 2^k,
      and then it is that network. */
  lemma RangeAcceptedIffBlock(first: string, last: string, f: int, l: int, net: Net)
    requires '-' !in first && '-' !in last
    requires ParseAddress(first) == Ok(Parsed(f, 4)) && ParseAddress(last) == Ok(Parsed(l, 4))
    ensures ParseNet(first + "-" + last) == Ok(net)
            <==> exists k: nat :: f + Pow2(k) - 1 == l && f % Pow2(k) == 0 && net == Net(f, 4, 32 - k)
  {
    hide ParseAddress, ParseSingle, Show, Split, Pow2, BitLength, SizedNet, BlockText;
    AddressInRange(first);
    AddressInRange(last);
    SplitTwo(first, last, '-');
    if f <= l {
      AlignedRange(first, f, l);
      var b := BitLength(l - f);
      if k: nat :| f + Pow2(k) - 1 == l && f % Pow2(k) == 0 && net == Net(f, 4, 32 - k) {
        FullSize(k);
      }
      if ParseNet(first + "-" + last) == Ok(net) {
        assert f + Pow2(b) - 1 == l && f % Pow2(b) == 0 && net == Net(f, 4, 32 - b);
      }
    }
  }

  lemma FullSize(k: nat)
    ensures BitLength(Pow2(k) - 1) == k
  {
    if k > 0 {
      Pow2Grows(k - 1, k);
    }
    BitLengthIs(Pow2(k) - 1, k);
  }

  // ---------------------------------------------------------------- the object

  class IPint {
    var ip: int
    var ipversion: int
    var prefixlen: int

    constructor ()
      ensures Value() == Net(0, 0, 0)
    {
      ip, ipversion, prefixlen := 0, 0, 0;
    }

    function Value(): Net
      reads this
    {
      Net(ip, ipversion, prefixlen)
    }

    function Broadcast(): Result<int>
      reads this
    {
      BroadcastOf(Value())
    }

    /** The text branch of the constructor; it raises when `ok` is false. */
    method Init(data: string) returns (ok: bool)
      modifies this
      ensures ok == ParseNet(data).Ok? && (ok ==> Value() == ParseNet(data).value)
      decreases if '-' in data then 1 else 0
    {
      var x := Split(data, '-');
      SplitKeeps(data, '-', '-');
      if |x| == 2 {
        ok := InitRange(data, x[0], x[1]);
      } else if |x| == 1 {
        ok := InitSingle(x[0]);
      } else {
        return false;
      }
    }

    method InitSingle(data: string) returns (ok: bool)
      requires '-' !in data
      modifies this
      ensures ok == ParseSingle(data).Ok? && (ok ==> Value() == ParseSingle(data).value)
    {
      hide ParseAddress, Split, PyInt, SizedNet;
      var x := Split(data, '/');
      SplitKeeps(data, '/', '-');
      var prefix: Option<int> := None;
      if |x| > 2 {
        return false;
      }
      if |x| == 2 {
        var read: Result<int>;
        if '.' in x[1] {
          var mask := ParseAddress(x[1]);
          if mask.Raised? || mask.value.version != 4 {
            return false;
          }
          read := NetmaskToPrefix(mask.value.ip);
        } else {
          read := PyInt(x[1], 10);
        }
        if read.Raised? {
          return false;
        }
        prefix := Some(read.value);
      }
      if ParseAddress(x[0]).Ok? {
        AddressInRange(x[0]);
      }
      ok := Finish(x[0], prefix, 0);
    }

    method InitRange(data: string, first: string, last: string) returns (ok: bool)
      requires '-' in data && '-' !in first && '-' !in last
      modifies this
      ensures ok == ParseRange(first, last).Ok? && (ok ==> Value() == ParseRange(first, last).value)
      decreases if '-' in data then 1 else 0, 0
    {
      hide ParseAddress, ParseSingle, Show, Split, Pow2, BitLength, SizedNet, BlockText, BroadcastOf;
      var f := ParseAddress(first);
      if f.Raised? || f.value.version != 4 {
        return false;
      }
      ip := f.value.ip;
      var l := ParseAddress(last);
      if l.Raised? || l.value.version != 4 || l.value.ip < ip {
        return false;
      }
      AddressInRange(first);
      AddressInRange(last);
      var size := l.value.ip - ip;
      var netbits := Count1Bits(size);
      NoBits();
      AlignedRange(first, ip, l.value.ip);
      var text := first + "/" + Show(32 - netbits, 10);
      SplitOne(text, '-');
      var network := new IPint();
      var good := network.Init(text);
      if !good || network.Broadcast() != Ok(l.value.ip) {
        return false;
      }
      ok := Finish(first, None, netbits);
    }

    /** The common end: the address, its prefix length, and whether they go together. */
    method Finish(text: string, prefix: Option<int>, netbits: nat) returns (ok: bool)
      requires '-' !in text && netbits <= 32
      modifies this
      ensures var a := ParseAddress(text);
              if a.Raised? || a.value.ip < 0 || BitsOf(a.value.version).Raised? then !ok
              else
                var net := SizedNet(a.value.ip, prefix.GetOr(BitsOf(a.value.version).value - netbits), a.value.version);
                ok == net.Ok? && (ok ==> Value() == net.value)
    {
      hide ParseAddress, Pow2, And;
      var a := ParseAddress(text);
      if a.Raised? {
        return false;
      }
      AddressInRange(text);
      ip, ipversion := a.value.ip, a.value.version;
      prefixlen := if prefix.Some? then prefix.value else if ipversion == 4 then 32 - netbits else 128 - netbits;
      var works := CheckNetaddrWorksWithPrefixlen(ip, prefixlen, ipversion);
      return works.Ok? && works.value;
    }
  }

  lemma NoBits()
    ensures BitLength(0) == 0
  {
  }
}
