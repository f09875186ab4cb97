/** Writing addresses (intToIp, strFullsize, strNormal and strCompressed of opsbro/misc/IPy.py), and reading
    back what was written. */
module IpPrint {
  import opened Common
  import opened IpText
  import opened IpParse

  // ---------------------------------------------------------------- the groups of an address

  /** The 32 hexadecimal digits of an IPv6 address. */
  function HexText(ip: nat): string {
    ZFill(Show(ip, 16), 32)
  }

  function Group(digits: string, i: nat): (g: string)
    requires |digits| == 32 && i < 8
    ensures |g| == 4
  {
    digits[4 * i..4 * i + 4]
  }

  /** The groups from number `i` on. */
  function Groups(digits: string, i: nat): (gs: seq<string>)
    requires |digits| == 32 && i <= 8
    ensures |gs| == 8 - i && forall k :: 0 <= k < |gs| ==> gs[k] == Group(digits, i + k)
    decreases 8 - i
  {
    if i == 8 then [] else [Group(digits, i)] + Groups(digits, i + 1)
  }

  function Values(items: seq<string>): (hs: seq<nat>)
    ensures |hs| == |items| && forall i :: 0 <= i < |items| ==> hs[i] == Value(items[i], 16)
  {
    seq(|items|, i requires 0 <= i < |items| => Value(items[i], 16))
  }

  function Shows(hs: seq<nat>): (items: seq<string>)
    ensures |items| == |hs| && forall i :: 0 <= i < |hs| ==> items[i] == Show(hs[i], 16)
  {
    seq(|hs|, i requires 0 <= i < |hs| => Show(hs[i], 16))
  }

  ghost predicate AreHextets(hs: seq<nat>) {
    |hs| == 8 && forall i :: 0 <= i < 8 ==> hs[i] <= 0xFFFF
  }

  lemma Power16()
    ensures Power(16, 4) == 0x1_0000 && Power(16, 32) == IPV6_END
  {
    assert Power(16, 4) == 16 * (16 * Power(16, 2)) && Power(16, 2) == 16 * (16 * Power(16, 0));
    PowerSteps(16, 4, 1);
    PowerSteps(16, 4, 2);
    PowerSteps(16, 4, 3);
    PowerSteps(16, 4, 4);
    PowerSteps(16, 4, 5);
    PowerSteps(16, 4, 6);
    PowerSteps(16, 4, 7);
  }

  lemma PowerSteps(base: nat, k: nat, n: nat)
    requires k == 4
    ensures Power(base, k * n + k) == Power(base, 4) * Power(base, k * n)
  {
    var m := k * n;
    var p := Power(base, m);
    assert Power(base, m + 1) == base * p;
    assert Power(base, m + 2) == base * (base * p);
    assert Power(base, m + 3) == base * (base * (base * p));
    assert Power(base, m + 4) == base * (base * (base * (base * p)));
    assert Power(base, 4) == base * (base * (base * (base * 1))) by {
      assert Power(base, 1) == base * Power(base, 0);
      assert Power(base, 2) == base * Power(base, 1);
      assert Power(base, 3) == base * Power(base, 2);
    }
    FourFactors(base, p);
  }

  lemma FourFactors(b: nat, p: nat)
    ensures b * (b * (b * (b * p))) == b * (b * (b * (b * 1))) * p
  {
    assert b * p == (b * 1) * p;
    assert b * (b * p) == (b * b) * p;
    assert b * ((b * b) * p) == (b * (b * b)) * p;
    assert b * ((b * (b * b)) * p) == (b * (b * (b * b))) * p;
  }

  lemma HexTextDigits(ip: nat)
    requires ip < IPV6_END
    ensures |HexText(ip)| == 32 && AreDigits(HexText(ip), 16) && Value(HexText(ip), 16) == ip
  {
    Power16();
    ZFillValue(ip, 16, 32);
  }

  lemma GroupBelow(digits: string, i: nat)
    requires |digits| == 32 && AreDigits(digits, 16) && i < 8
    ensures AreDigits(Group(digits, i), 16) && Value(Group(digits, i), 16) <= 0xFFFF
  {
    Power16();
    ValueBelow(Group(digits, i), 16);
  }

  lemma GroupStep(digits: string, k: nat)
    requires |digits| == 32 && 1 <= k <= 8
    ensures digits[..4 * k] == digits[..4 * (k - 1)] + Group(digits, k - 1)
  {
  }

  lemma ValuesStep(digits: string, k: nat)
    requires |digits| == 32 && 1 <= k <= 8
    ensures Values(Groups(digits, 0))[..k] == Values(Groups(digits, 0))[..k - 1] + [Value(Group(digits, k - 1), 16)]
  {
    hide Value, Groups, Group, Values;
  }

  lemma {:induction false} NumberOfGroups(digits: string, k: nat)
    requires |digits| == 32 && AreDigits(digits, 16) && k <= 8
    ensures Number(Values(Groups(digits, 0))[..k]) == Value(digits[..4 * k], 16)
  {
    if k == 0 {
      assert Values(Groups(digits, 0))[..0] == [] && digits[..0] == "";
    } else {
      hide Number, Value, Power, Values, Groups, Group;
      var hs, g := Values(Groups(digits, 0)), Group(digits, k - 1);
      NumberOfGroups(digits, k - 1);
      GroupStep(digits, k);
      ValuesStep(digits, k);
      NumberPush(hs[..k - 1], Value(g, 16));
      ValueAppend(digits[..4 * (k - 1)], g, 16);
      Power16();
    }
  }

  /** The eight groups of 16 bits of an address, highest first. */
  function HextetsOf(ip: nat): seq<nat>
    requires ip < IPV6_END
  {
    HexTextDigits(ip);
    Values(Groups(HexText(ip), 0))
  }

  lemma HextetsOfNumber(ip: nat)
    requires ip < IPV6_END
    ensures AreHextets(HextetsOf(ip)) && Number(HextetsOf(ip)) == ip
  {
    HexTextDigits(ip);
    var digits := HexText(ip);
    forall i | 0 <= i < 8 ensures HextetsOf(ip)[i] <= 0xFFFF {
      GroupBelow(digits, i);
    }
    NumberOfGroups(digits, 8);
    assert digits[..32] == digits;
    assert HextetsOf(ip)[..8] == HextetsOf(ip);
  }

  // ---------------------------------------------------------------- reading groups back

  lemma HexHasNoMarks(s: string)
    requires AreDigits(s, 16)
    ensures ':' !in s && '.' !in s
  {
    forall i | 0 <= i < |s| ensures s[i] != ':' && s[i] != '.' {
    }
  }

  /** A hexadecimal numeral of `h`. */
  predicate DenotesOne(item: string, h: nat) {
    item != "" && AreDigits(item, 16) && Value(item, 16) == h && h <= 0xFFFF
  }

  /** Items that are hexadecimal numerals of `hs`. */
  ghost predicate Denote(items: seq<string>, hs: seq<nat>) {
    |items| == |hs| && forall i :: 0 <= i < |hs| ==> DenotesOne(items[i], hs[i])
  }

  lemma DenoteAppend(xs: seq<string>, hx: seq<nat>, ys: seq<string>, hy: seq<nat>)
    requires Denote(xs, hx) && Denote(ys, hy)
    ensures Denote(xs + ys, hx + hy)
  {
  }

  lemma {:induction false} DenotedHextets(items: seq<string>, hs: seq<nat>)
    requires Denote(items, hs)
    ensures Hextets(items) == Ok(hs)
    decreases |items|
  {
    hide PyInt, Value;
    if items != [] {
      var n := |items| - 1;
      DenotedHextets(items[..n], hs[..n]);
      assert items[..n] + [items[n]] == items && hs[..n] + [hs[n]] == hs;
      HextetsPush(items[..n], items[n]);
      PyIntOfDigits(items[n], 16);
    } else {
      assert hs == [];
    }
  }

  lemma ShowsDenote(hs: seq<nat>)
    requires forall i :: 0 <= i < |hs| ==> hs[i] <= 0xFFFF
    ensures Denote(Shows(hs), hs)
  {
    forall i | 0 <= i < |hs| ensures DenotesOne(Shows(hs)[i], hs[i]) {
      ShowValue(hs[i], 16);
    }
  }

  lemma DenoteIsWellFormed(items: seq<string>, hs: seq<nat>, fill: Option<nat>)
    requires Denote(items, hs) && (fill.Some? ==> fill.value <= |items|)
    ensures WellFormed(Tokens(items, fill)) && SplitDotted(Tokens(items, fill)) == Ok(items)
  {
    forall x | x in items ensures ItemOk(x) && '.' !in x {
      var i :| 0 <= i < |items| && items[i] == x;
      assert DenotesOne(items[i], hs[i]);
      HexHasNoMarks(x);
    }
    assert items != [] ==> items[|items| - 1] in items;
  }

  /** Any text with the tokens `t` is read through them. */
  lemma ReadTokens(t: Tokens)
    requires WellFormed(t)
    ensures ParseIPv6(Text(t)) == Evaluate(t)
  {
    hide Evaluate;
    ScanFinds(t, [], None);
    TokensOf(t);
  }

  /** Eight groups written out in full, with or without leading zeros, are read back. */
  lemma FullFormReadsBack(items: seq<string>, hs: seq<nat>)
    requires Denote(items, hs) && |hs| == 8
    ensures ParseIPv6(Join(items, ':')) == Ok(Number(hs))
  {
    hide Hextets, Number, Join, DenotesOne;
    DenoteIsWellFormed(items, hs, None);
    ReadTokens(Tokens(items, None));
    DenotedHextets(items, hs);
  }

  /** `l` groups from position `p` are zero. */
  ghost predicate IsZeroRun(hs: seq<nat>, p: nat, l: nat) {
    p + l <= |hs| && forall i :: p <= i < p + l ==> hs[i] == 0
  }

  function Cut(hs: seq<nat>, p: nat, l: nat): Tokens
    requires p + l <= |hs|
  {
    Tokens(Shows(hs[..p]) + Shows(hs[p + l..]), Some(p))
  }

  /** The tokens of a cut, once the zeros are back, are numerals of the whole address. */
  lemma CutExpands(hs: seq<nat>, p: nat, l: nat)
    requires AreHextets(hs) && IsZeroRun(hs, p, l) && l >= 1
    ensures Denote(Cut(hs, p, l).items, hs[..p] + hs[p + l..])
    ensures Expand(Cut(hs, p, l).items, Some(p)).Ok? && Denote(Expand(Cut(hs, p, l).items, Some(p)).value, hs)
  {
    hide DenotesOne;
    var items := Cut(hs, p, l).items;
    ShowsDenote(hs[..p]);
    ShowsDenote(hs[p + l..]);
    DenoteAppend(Shows(hs[..p]), hs[..p], Shows(hs[p + l..]), hs[p + l..]);
    var zeros := seq(l, _ => "0");
    assert Denote(zeros, hs[p..p + l]) by { ZeroDenotes(); }
    DenoteAppend(Shows(hs[..p]), hs[..p], zeros, hs[p..p + l]);
    DenoteAppend(Shows(hs[..p]) + zeros, hs[..p] + hs[p..p + l], Shows(hs[p + l..]), hs[p + l..]);
    assert hs[..p] + hs[p..p + l] + hs[p + l..] == hs;
    assert items[..p] == Shows(hs[..p]) && items[p..] == Shows(hs[p + l..]);
    assert seq(8 - |items|, _ => "0") == zeros;
  }

  lemma ZeroDenotes()
    ensures DenotesOne("0", 0)
  {
    assert "0"[..0] == "";
  }

  /** Whatever run of zero groups a '::' replaces, the text is read back. */
  lemma AnyCompressionReadsBack(hs: seq<nat>, p: nat, l: nat)
    requires AreHextets(hs) && IsZeroRun(hs, p, l) && l >= 1
    ensures WellFormed(Cut(hs, p, l)) && ParseIPv6(Text(Cut(hs, p, l))) == Ok(Number(hs))
  {
    hide Hextets, Number, Denote, Expand, Shows;
    var t := Cut(hs, p, l);
    CutExpands(hs, p, l);
    assert p <= |t.items| by { CutSize(hs, p, l); }
    DenoteIsWellFormed(t.items, hs[..p] + hs[p + l..], t.fill);
    ReadTokens(t);
    DenotedHextets(Expand(t.items, Some(p)).value, hs);
  }

  lemma CutSize(hs: seq<nat>, p: nat, l: nat)
    requires p + l <= |hs|
    ensures |Cut(hs, p, l).items| == |hs| - l
  {
  }

  lemma {:induction false} IntsAre(parts: seq<string>, ns: seq<nat>, base: nat)
    requires |parts| == |ns| && forall i :: 0 <= i < |ns| ==> PyInt(parts[i], base) == Ok(ns[i])
    ensures Ints(parts, base).Ok? && |Ints(parts, base).value| == |ns|
    ensures forall i :: 0 <= i < |ns| ==> Ints(parts, base).value[i] == ns[i]
  {
    hide PyInt;
    if parts != [] {
      IntsAre(parts[1..], ns[1..], base);
    }
  }

  // ---------------------------------------------------------------- dotted addresses

  /** The lowest `k` bytes of a number in decimal, highest first. */
  function LowBytes(n: nat, k: nat): (parts: seq<string>)
    ensures |parts| == k && forall p :: p in parts ==> p != "" && AreDigits(p, 10)
  {
    if k == 0 then [] else LowBytes(n / 0x100, k - 1) + [Show(n % 0x100, 10)]
  }

  function DottedText(ip: nat): string {
    Join(LowBytes(ip, 4), '.')
  }

  lemma DecimalHasNoMarks(s: string)
    requires AreDigits(s, 10)
    ensures '.' !in s && ':' !in s && 'x' !in s && '-' !in s
  {
    forall i | 0 <= i < |s| ensures s[i] != '.' && s[i] != ':' && s[i] != 'x' && s[i] != '-' {
    }
  }

  /** The four bytes of an address. */
  lemma FourBytes(ip: nat) returns (a: nat, b: nat, c: nat, d: nat)
    requires ip < IPV4_END
    ensures a <= 255 && b <= 255 && c <= 255 && d <= 255
    ensures ip == a * 0x100_0000 + b * 0x1_0000 + c * 0x100 + d
    ensures LowBytes(ip, 4) == [Show(a, 10), Show(b, 10), Show(c, 10), Show(d, 10)]
  {
    hide Show, LowBytes;
    var n1 := ip / 0x100;
    var n2 := n1 / 0x100;
    a, b, c, d := n2 / 0x100, n2 % 0x100, n1 % 0x100, ip % 0x100;
    assert a % 0x100 == a;
    LowBytesStep(a, 0);
    LowBytesStep(n2, 1);
    LowBytesStep(n1, 2);
    LowBytesStep(ip, 3);
  }

  lemma LowBytesStep(n: nat, k: nat)
    ensures LowBytes(n, 0) == [] && LowBytes(n, k + 1) == LowBytes(n / 0x100, k) + [Show(n % 0x100, 10)]
  {
  }

  lemma JoinFour(a: string, b: string, c: string, d: string, ch: char)
    ensures Join([a, b, c, d], ch) == a + [ch] + (b + [ch] + (c + [ch] + d))
  {
    assert [c, d][1..] == [d] && Join([c, d], ch) == c + [ch] + d;
    assert [b, c, d][1..] == [c, d] && Join([b, c, d], ch) == b + [ch] + Join([c, d], ch);
    assert [a, b, c, d][1..] == [b, c, d];
  }

  lemma ByteLength(n: nat)
    requires n <= 255
    ensures 1 <= |Show(n, 10)| <= 3
  {
    assert Power(10, 3) == 10 * (10 * Power(10, 1)) && Power(10, 1) == 10;
    ShowLength(n, 10, 3);
  }

  lemma DottedShape(ip: nat)
    requires ip < IPV4_END
    ensures var s := DottedText(ip);
            |s| < 32 && 'x' !in s && '-' !in s && '.' in s && ':' !in s && s != ""
    ensures Split(DottedText(ip), '.') == LowBytes(ip, 4)
  {
    hide Show, LowBytes, Join, AreDigits, Power, Split;
    var a, b, c, d := FourBytes(ip);
    var sa, sb, sc, sd := Show(a, 10), Show(b, 10), Show(c, 10), Show(d, 10);
    DecimalHasNoMarks(sa);
    DecimalHasNoMarks(sb);
    DecimalHasNoMarks(sc);
    DecimalHasNoMarks(sd);
    SplitJoin([sa, sb, sc, sd], '.');
    ByteLength(a);
    ByteLength(b);
    ByteLength(c);
    ByteLength(d);
    JoinFour(sa, sb, sc, sd, '.');
    assert DottedText(ip)[|sa|] == '.';
  }

  lemma NoHexPrefix(s: string)
    requires 'x' !in s
    ensures !StartsWith(s, "0x")
  {
    assert |s| >= 2 ==> s[..2][1] == s[1];
  }

  lemma DottedParses(s: string, four: seq<string>, a: nat, b: nat, c: nat, d: nat)
    requires |Split(s, '.')| <= 4 && FourParts(Split(s, '.')) == four
    requires a <= 255 && b <= 255 && c <= 255 && d <= 255
    requires PyInt(four[0], 10) == Ok(a) && PyInt(four[1], 10) == Ok(b)
    requires PyInt(four[2], 10) == Ok(c) && PyInt(four[3], 10) == Ok(d)
    ensures ParseDotted(s) == Ok(Parsed(a * 0x100_0000 + b * 0x1_0000 + c * 0x100 + d, 4))
  {
    hide Split, PyInt, Ints, FourParts;
    IntsAre(four, [a, b, c, d], 10);
    assert Ints(four, 10).value == [a, b, c, d];
  }

  /** Every IPv4 address is read back from its dotted text. */
  lemma DottedReadsBack(ip: nat)
    requires ip < IPV4_END
    ensures ParseAddress(DottedText(ip)) == Ok(Parsed(ip, 4)) && ParsePlain(DottedText(ip)) == Ok(Parsed(ip, 4))
  {
    hide DottedText, LowBytes, Show, Split, PyInt, ParseDotted;
    DottedShape(ip);
    var a, b, c, d := FourBytes(ip);
    PyIntOfShow(a, 10);
    PyIntOfShow(b, 10);
    PyIntOfShow(c, 10);
    PyIntOfShow(d, 10);
    assert FourParts(LowBytes(ip, 4))[..4] == LowBytes(ip, 4) && FourParts(LowBytes(ip, 4)) == LowBytes(ip, 4);
    DottedParses(DottedText(ip), LowBytes(ip, 4), a, b, c, d);
    NoHexPrefix(DottedText(ip));
  }

  // ---------------------------------------------------------------- intToIp

  /** The 39 characters of an IPv6 address written in full. */
  function FullText(ip: nat): string
    requires ip < IPV6_END
  {
    HexTextDigits(ip);
    Join(Groups(HexText(ip), 0), ':')
  }

  function IntToIpText(ip: int, version: int): Result<string> {
    if ip < 0 then Raised
    else if version == 4 then (if ip >= IPV4_END then Raised else Ok(DottedText(ip)))
    else if version == 6 then (if ip >= IPV6_END then Raised else Ok(FullText(ip)))
    else Raised
  }

  /** Every part with `c` after it. */
  function Ended(parts: seq<string>, c: char): string {
    if parts == [] then "" else parts[0] + [c] + Ended(parts[1..], c)
  }

  lemma {:induction false} EndedIsJoined(parts: seq<string>, c: char)
    requires parts != []
    ensures Ended(parts, c) == Join(parts, c) + [c]
  {
    if |parts| > 1 {
      EndedIsJoined(parts[1..], c);
      assert parts[0] + [c] + (Join(parts[1..], c) + [c]) == parts[0] + [c] + Join(parts[1..], c) + [c];
    } else {
      assert parts[1..] == [] && parts[0] + [c] + "" == parts[0] + [c];
    }
  }

  lemma EndedCons(x: string, parts: seq<string>, c: char)
    ensures Ended([x] + parts, c) == x + [c] + Ended(parts, c)
  {
    assert ([x] + parts)[1..] == parts;
  }

  /** Every part with `c` before it. */
  function Led(parts: seq<string>, c: char): string {
    if parts == [] then "" else [c] + parts[0] + Led(parts[1..], c)
  }

  lemma {:induction false} LedIsJoined(parts: seq<string>, c: char)
    requires parts != []
    ensures Led(parts, c) == [c] + Join(parts, c)
  {
    if |parts| > 1 {
      LedIsJoined(parts[1..], c);
      assert [c] + parts[0] + ([c] + Join(parts[1..], c)) == [c] + (parts[0] + [c] + Join(parts[1..], c));
    } else {
      assert parts[1..] == [] && [c] + parts[0] + "" == [c] + parts[0];
    }
  }

  /** One more group in front, once its four digits are there. */
  lemma LedGroup(digits: string, k: nat)
    requires |digits| == 32 && 1 <= k <= 8
    ensures Led(Groups(digits, 8 - k), ':') == ":" + digits[32 - 4 * k..36 - 4 * k] + Led(Groups(digits, 9 - k), ':')
  {
    assert Groups(digits, 8 - k)[1..] == Groups(digits, 9 - k);
  }

  method DottedFromInt(n: nat) returns (ret: string)
    requires n < IPV4_END
    ensures ret == DottedText(n)
  {
    hide Show, LowBytes, Ended;
    var ip := n;
    ret := "";
    ghost var tail: seq<string> := [];
    assert Ended(tail, '.') == "" by { EndedNothing('.'); }
    for l := 0 to 4
      invariant LowBytes(n, 4) == LowBytes(ip, 4 - l) + tail && |tail| == l && ret == Ended(tail, '.')
    {
      LowBytesStep(ip, 3 - l);
      EndedCons(Show(ip % 0x100, 10), tail, '.');
      assert LowBytes(n, 4) == LowBytes(ip / 0x100, 3 - l) + ([Show(ip % 0x100, 10)] + tail);
      tail := [Show(ip % 0x100, 10)] + tail;
      ret := Show(ip % 0x100, 10) + "." + ret;
      ip := ip / 0x100;
    }
    LowBytesStep(ip, 0);
    assert LowBytes(n, 4) == tail;
    EndedIsJoined(tail, '.');
    ret := ret[..|ret| - 1];
  }

  lemma EndedNothing(c: char)
    ensures Ended([], c) == ""
  {
  }

  /** What is written once `k` groups are done, and `d` more digits, from the right. */
  function Written(l: string, k: nat, d: nat): string
    requires |l| == 32 && k <= 8 && 4 * k + d <= 32
  {
    l[32 - 4 * k - d..32 - 4 * k] + Led(Groups(l, 8 - k), ':')
  }

  lemma WrittenStep(l: string, k: nat, d: nat)
    requires |l| == 32 && k <= 7 && d <= 3
    ensures Written(l, k, d + 1) == [l[31 - 4 * k - d]] + Written(l, k, d)
    ensures Written(l, k + 1, 0) == ":" + Written(l, k, 4)
  {
    hide Led, Groups;
    FirstOfSlice(l, 31 - 4 * k - d, 32 - 4 * k, Led(Groups(l, 8 - k), ':'));
    LedGroup(l, k + 1);
    EmptySlice(l, 28 - 4 * k, Led(Groups(l, 7 - k), ':'));
  }

  lemma EveryFourth(x: nat, k: nat, d: nat)
    requires x == 4 * k + d + 1 && d <= 3
    ensures x % 4 == 0 <==> d == 3
  {
  }

  lemma FirstOfSlice(l: string, i: nat, j: nat, rest: string)
    requires i < j <= |l|
    ensures l[i..j] + rest == [l[i]] + (l[i + 1..j] + rest)
  {
  }

  lemma EmptySlice(l: string, i: nat, rest: string)
    requires i <= |l|
    ensures l[i..i] + rest == rest
  {
  }

  method FullFromInt(ip: nat) returns (ret: string)
    requires ip < IPV6_END
    ensures ret == FullText(ip)
  {
    HexTextDigits(ip);
    var l := HexText(ip);
    assert Written(l, 0, 0) == "" by { LedNothing(':'); }
    assert Written(l, 8, 0) == Led(Groups(l, 0), ':');
    hide *;
    ret := "";
    ghost var k, d := 0, 0;
    for x := 1 to 33
      invariant k <= 8 && d <= 3 && x - 1 == 4 * k + d && ret == Written(l, k, d)
    {
      WrittenStep(l, k, d);
      EveryFourth(x, k, d);
      ret := [l[32 - x]] + ret;
      if x % 4 == 0 {
        ret := ":" + ret;
        k, d := k + 1, 0;
      } else {
        d := d + 1;
      }
    }
    LedIsJoined(Groups(l, 0), ':');
    ret := ret[1..];
  }

  lemma LedNothing(c: char)
    ensures Led([], c) == ""
  {
  }

  method IntToIp(ip: int, version: int) returns (r: Result<string>)
    ensures r == IntToIpText(ip, version)
  {
    if ip < 0 {
      return Raised;
    }
    if version == 4 {
      if ip > 0xFFFF_FFFF {
        return Raised;
      }
      var ret := DottedFromInt(ip);
      return Ok(ret);
    } else if version == 6 {
      if ip > 0xFFFF_FFFF_FFFF_FFFF_FFFF_FFFF_FFFF_FFFF {
        return Raised;
      }
      var ret := FullFromInt(ip);
      return Ok(ret);
    } else {
      return Raised;
    }
  }

  // ---------------------------------------------------------------- strFullsize and strNormal

  /** Eight groups without leading zeros. */
  function NormalText(ip: nat): string
    requires ip < IPV6_END
  {
    Join(Shows(HextetsOf(ip)), ':')
  }

  lemma GroupsDenote(ip: nat)
    requires ip < IPV6_END
    ensures |HexText(ip)| == 32 && Denote(Groups(HexText(ip), 0), HextetsOf(ip))
  {
    HexTextDigits(ip);
    HextetsOfNumber(ip);
    forall i | 0 <= i < 8 ensures DenotesOne(Groups(HexText(ip), 0)[i], HextetsOf(ip)[i]) {
      GroupBelow(HexText(ip), i);
    }
  }

  lemma SplitDenoted(items: seq<string>, hs: seq<nat>)
    requires Denote(items, hs) && items != []
    ensures Split(Join(items, ':'), ':') == items
  {
    forall x | x in items ensures ':' !in x {
      var i :| 0 <= i < |items| && items[i] == x;
      assert DenotesOne(items[i], hs[i]);
      HexHasNoMarks(x);
    }
    SplitJoin(items, ':');
  }

  /** [int(x, 16) for x in text.split(':')] gives the groups back. */
  lemma GroupsAreRead(items: seq<string>, hs: seq<nat>)
    requires Denote(items, hs) && items != []
    ensures var ns := Ints(Split(Join(items, ':'), ':'), 16);
            ns.Ok? && |ns.value| == |hs| && forall i :: 0 <= i < |hs| ==> ns.value[i] == hs[i]
  {
    SplitDenoted(items, hs);
    forall i | 0 <= i < |hs| ensures PyInt(items[i], 16) == Ok(hs[i]) {
      assert DenotesOne(items[i], hs[i]);
      PyIntOfDigits(items[i], 16);
    }
    IntsAre(items, hs, 16);
  }

  method ReadGroups(ip: int, version: int) returns (r: Result<seq<nat>>)
    requires version != 4
    ensures r == if version == 6 && 0 <= ip < IPV6_END then Ok(HextetsOf(ip)) else Raised
  {
    hide Denote, HextetsOf, Groups, HexText, Join, Split;
    var full := IntToIp(ip, version);
    if full.Raised? {
      return Raised;
    }
    GroupsDenote(ip);
    assert Groups(HexText(ip), 0) != [];
    DenotedLengths(Groups(HexText(ip), 0), HextetsOf(ip));
    GroupsAreRead(Groups(HexText(ip), 0), HextetsOf(ip));
    var ns := Ints(Split(full.value, ':'), 16);
    var hs := seq(|ns.value|, i requires 0 <= i < |ns.value| => ns.value[i] as nat);
    assert hs == HextetsOf(ip);
    return Ok(hs);
  }

  lemma DenotedLengths(items: seq<string>, hs: seq<nat>)
    requires Denote(items, hs)
    ensures |items| == |hs|
  {
  }

  method StrNormal(ip: int, version: int) returns (r: Result<string>)
    ensures r == if version == 6 && 0 <= ip < IPV6_END then Ok(NormalText(ip)) else IntToIpText(ip, version)
  {
    hide HextetsOf, Join;
    if version == 4 {
      r := IntToIp(ip, version);
    } else {
      var hs := ReadGroups(ip, version);
      if hs.Raised? {
        return Raised;
      }
      return Ok(Join(Shows(hs.value), ':'));
    }
  }
}
