/** The other ways in which addresses may be written, and the exact shape in which they are printed. */
module IpForms {
  import opened Common
  import opened IpText
  import opened IpParse
  import opened IpPrint
  import opened IpCompress

  // ---------------------------------------------------------------- reading

  /** An address of the version its size suggests. */
  function Guessed(n: nat): Parsed {
    if n < 0x1_0000_0000 then Parsed(n, 4) else Parsed(n, 6)
  }

  /** 0x and hexadecimal digits are read as the number they stand for, up to 128 bits. */
  lemma HexIsRead(n: nat)
    ensures ParseAddress("0x" + Show(n, 16)) == if n < IPV6_END then Ok(Guessed(n)) else Raised
  {
    var s := "0x" + Show(n, 16);
    assert s[..2] == "0x" && s[2..] == Show(n, 16);
    hide Show, PyInt;
    PyIntOfShow(n, 16);
  }

  /** 32 hexadecimal digits are read as an IPv6 address, whatever its size. */
  lemma DigitsAreRead(n: nat)
    requires n < IPV6_END
    ensures ParseAddress(ZFill(Show(n, 16), 32)) == Ok(Parsed(n, 6))
  {
    hide Show, PyInt, ZFill, AreDigits, Value;
    HexTextDigits(n);
    var s := ZFill(Show(n, 16), 32);
    PyIntOfDigits(s, 16);
    HexHasNoMarks(s);
    HexHasNoX(s);
  }

  lemma HexHasNoX(s: string)
    requires AreDigits(s, 16)
    ensures !StartsWith(s, "0x")
  {
    if |s| >= 2 {
      assert DigitValue(s[1]) < 16;
      assert s[..2][1] == s[1];
    }
  }

  lemma SmallIsShort(n: nat)
    ensures n < 256 ==> |Show(n, 10)| <= 3
  {
    if n < 256 {
      ByteLength(n);
    }
  }

  lemma ZeroIsRead()
    ensures PyInt("0", 10) == Ok(0)
  {
    PyIntOfShow(0, 10);
  }

  function Decimals(bs: seq<nat>): (parts: seq<string>)
    ensures |parts| == |bs| && forall i :: 0 <= i < |bs| ==> parts[i] == Show(bs[i], 10)
  {
    seq(|bs|, i requires 0 <= i < |bs| => Show(bs[i], 10))
  }

  function ByteAt(bs: seq<nat>, i: nat): nat {
    if i < |bs| then bs[i] else 0
  }

  lemma PartIsRead(bs: seq<nat>, i: nat)
    requires |bs| <= 4 && i < 4
    ensures PyInt(FourParts(Decimals(bs))[i], 10) == Ok(ByteAt(bs, i))
    ensures (forall k :: 0 <= k < |bs| ==> bs[k] <= 255) ==> ByteAt(bs, i) <= 255
  {
    hide Show, PyInt, FourParts;
    var parts := Decimals(bs);
    if i < |bs| {
      assert FourParts(parts)[..|parts|][i] == parts[i];
      PyIntOfShow(bs[i], 10);
    } else {
      ZeroIsRead();
    }
  }

  /** Without a dot a byte is the first of four. */
  lemma FirstByte(n: nat)
    requires n < 256
    ensures ParseDotted(Show(n, 10)) == Ok(Parsed(n * 0x100_0000, 4))
  {
    hide *;
    var s := Show(n, 10);
    OnePart(n);
    DecimalHasNoMarks(s);
    SplitJoin([s], '.');
    ByteOf(n, 0);
    ByteOf(n, 1);
    ByteOf(n, 2);
    ByteOf(n, 3);
    DottedParses(s, FourParts([s]), n, 0, 0, 0);
  }

  lemma OnePart(n: nat)
    ensures var s := Show(n, 10); Join([s], '.') == s && AreDigits(s, 10) && Decimals([n]) == [s]
  {
    hide Show, AreDigits;
  }

  lemma ByteOf(n: nat, i: nat)
    requires i < 4
    ensures PyInt(FourParts(Decimals([n]))[i], 10) == Ok(if i == 0 then n else 0)
  {
    PartIsRead([n], i);
  }

  /** Decimal digits are read as the number they stand for, except that up to 255 it is the first byte of four, and that
      32 digits are taken for hexadecimal ones. */
  lemma DecimalIsRead(n: nat)
    ensures ParseAddress(Show(n, 10))
         == if |Show(n, 10)| == 32 then Ok(Parsed(Value(Show(n, 10), 16), 6))
            else if n < 256 then Ok(Parsed(n * 0x100_0000, 4))
            else if n < IPV6_END then Ok(Guessed(n)) else Raised
  {
    var s := Show(n, 10);
    assert AreDigits(s, 10);
    DecimalIsHex(s);
    hide Show, PyInt, AreDigits, Value, ParseDotted;
    DecimalHasNoMarks(s);
    HexHasNoX(s);
    PyIntOfShow(n, 10);
    PyIntOfDigits(s, 16);
    SmallIsShort(n);
    if n < 256 {
      FirstByte(n);
    }
  }

  lemma DecimalIsHex(s: string)
    requires AreDigits(s, 10)
    ensures AreDigits(s, 16)
  {
    forall i | 0 <= i < |s| ensures DigitValue(s[i]) < 16 {
      assert DigitValue(s[i]) < 10;
    }
  }

  /** Two to four bytes with dots between them: those that are missing at the end are zero. */
  lemma DottedIsRead(bs: seq<nat>)
    requires 2 <= |bs| <= 4 && forall i :: 0 <= i < |bs| ==> bs[i] <= 255
    ensures ParseAddress(Join(Decimals(bs), '.'))
         == Ok(Parsed(ByteAt(bs, 0) * 0x100_0000 + ByteAt(bs, 1) * 0x1_0000 + ByteAt(bs, 2) * 0x100 + ByteAt(bs, 3), 4))
  {
    var parts := Decimals(bs);
    var s := Join(parts, '.');
    hide Show, PyInt, Join, Split, Ints, FourParts, Decimals, ParseDotted;
    DecimalsShape(bs);
    PartIsRead(bs, 0);
    PartIsRead(bs, 1);
    PartIsRead(bs, 2);
    PartIsRead(bs, 3);
    hide ByteAt;
    DottedParses(s, FourParts(parts), ByteAt(bs, 0), ByteAt(bs, 1), ByteAt(bs, 2), ByteAt(bs, 3));
  }

  lemma {:induction false} IntsReadAll(parts: seq<string>, base: nat, i: nat)
    requires i < |parts| && Ints(parts, base).Ok?
    ensures PyInt(parts[i], base) == Ok(Ints(parts, base).value[i])
  {
    hide PyInt;
  }

  /** Whatever else a text with dots may look like, it is refused when one of its parts is not a number from 0 to 255,
      or when there are more than four. */
  lemma BadBytesRaise(s: string, i: nat)
    requires '.' in s && ':' !in s && i < |Split(s, '.')|
    requires var n := PyInt(Split(s, '.')[i], 10); |Split(s, '.')| > 4 || n.Raised? || !(0 <= n.value <= 255)
    ensures ParseAddress(s).Raised?
  {
    hide PyInt, Split, Ints, FourParts;
    DotIsPlain(s);
    var parts := Split(s, '.');
    if |parts| <= 4 && Ints(FourParts(parts), 10).Ok? {
      var four := FourParts(parts);
      assert four[..|parts|][i] == parts[i] == four[i];
      IntsReadAll(four, 10, i);
      assert Ints(four, 10).value[i] in Ints(four, 10).value;
    }
  }

  lemma DotIsPlain(s: string)
    requires '.' in s && ':' !in s
    ensures ParseAddress(s).Ok? ==> ParseDotted(s) == ParseAddress(s)
  {
    hide PyInt, ParseDotted;
    if StartsWith(s, "0x") {
      assert s == s[..2] + s[2..];
      assert s[..2] == "0x";
      ForeignRaises(s[2..], '.', 16);
    } else if |s| == 32 {
      ForeignRaises(s, '.', 16);
    }
  }

  lemma DecimalsShape(bs: seq<nat>)
    requires 2 <= |bs| <= 4 && forall i :: 0 <= i < |bs| ==> bs[i] <= 255
    ensures var s := Join(Decimals(bs), '.');
            && '.' in s && ':' !in s && !StartsWith(s, "0x") && |s| < 32 && Split(s, '.') == Decimals(bs)
  {
    var parts := Decimals(bs);
    forall p | p in parts ensures '.' !in p && ':' !in p && 'x' !in p {
      var i :| 0 <= i < |parts| && parts[i] == p;
      DecimalHasNoMarks(p);
    }
    forall i | 0 <= i < |parts| ensures |parts[i]| <= 3 {
      ByteLength(bs[i]);
    }
    hide Show, Decimals;
    SplitJoin(parts, '.');
    JoinHas(parts, '.');
    JoinLength(parts, '.');
    JoinHasNo(parts, '.', ':');
    JoinHasNo(parts, '.', 'x');
    NoHexPrefix(Join(parts, '.'));
  }

  lemma {:induction false} JoinLength(parts: seq<string>, c: char)
    requires forall i :: 0 <= i < |parts| ==> |parts[i]| <= 3
    ensures |Join(parts, c)| <= 4 * |parts|
  {
    if |parts| > 1 {
      JoinLength(parts[1..], c);
    }
  }

  // ---------------------------------------------------------------- how many groups

  /** The groups written out, a dotted tail counting for two. */
  function GroupCount(t: Tokens): nat {
    |t.items| + if t.items != [] && '.' in t.items[|t.items| - 1] then 1 else 0
  }

  /** There are eight groups or, with a '::', fewer, and a dotted tail comes last. */
  lemma GroupsAreCounted(t: Tokens)
    requires WellFormed(t) && ParseIPv6(Text(t)).Ok?
    ensures if t.fill.None? then GroupCount(t) == 8 else GroupCount(t) < 8
    ensures t.fill.Some? && GroupCount(t) > |t.items| ==> t.fill.value < |t.items|
  {
    hide Text, WellFormed, Hextets, Number, ParsePlain, TwoGroups;
    ReadTokens(t);
  }

  // ---------------------------------------------------------------- printing

  predicate IsHexDigit(ch: char) {
    ch in "0123456789abcdef"
  }

  /** A numeral in lower case and without leading zeros. */
  predicate IsCanonical(s: string) {
    && s != "" && (forall i :: 0 <= i < |s| ==> IsHexDigit(s[i]))
    && (s[0] == '0' ==> s == "0")
  }

  lemma CanonicalShow(n: nat, base: nat)
    requires 2 <= base <= 16
    ensures IsCanonical(Show(n, base))
  {
    ShowIsCanonical(n, base);
  }

  /** Addresses of either version, and no others, have a text, and it is read back. */
  lemma IntToIpReadsBack(ip: int, version: int)
    ensures IntToIpText(ip, version).Ok?
            <==> (version == 4 && 0 <= ip < 0x1_0000_0000) || (version == 6 && 0 <= ip < IPV6_END)
    ensures IntToIpText(ip, version).Ok? ==> ParseAddress(IntToIpText(ip, version).value) == Ok(Parsed(ip, version))
  {
    hide ParseAddress, DottedText, FullText;
    if version == 4 && 0 <= ip < IPV4_END {
      DottedReadsBack(ip);
    } else if version == 6 && 0 <= ip < IPV6_END {
      LongFormsReadBack(ip);
    }
  }

  /** The normal text has eight canonical groups. */
  lemma NormalTextShape(ip: nat)
    requires ip < IPV6_END
    ensures var groups := Split(NormalText(ip), ':');
            |groups| == 8 && forall i :: 0 <= i < 8 ==> IsCanonical(groups[i]) && |groups[i]| <= 4
  {
    var hs := HextetsOf(ip);
    HextetsOfNumber(ip);
    hide HextetsOf, Show, Power;
    Power16();
    ShowsDenote(hs);
    SplitDenoted(Shows(hs), hs);
    forall i | 0 <= i < 8 ensures IsCanonical(Shows(hs)[i]) && |Shows(hs)[i]| <= 4 {
      CanonicalShow(hs[i], 16);
      ShowLength(hs[i], 16, 4);
    }
  }

  /** The dotted text has four canonical bytes. */
  lemma DottedTextShape(ip: nat)
    requires ip < IPV4_END
    ensures var bytes := Split(DottedText(ip), '.');
            && |bytes| == 4
            && forall i :: 0 <= i < 4 ==> IsCanonical(bytes[i]) && |bytes[i]| <= 3 && AreDigits(bytes[i], 10)
  {
    hide Show;
    DottedShape(ip);
    var a, b, c, d := FourBytes(ip);
    forall n: nat | n <= 255 ensures IsCanonical(Show(n, 10)) && |Show(n, 10)| <= 3 {
      CanonicalShow(n, 10);
      ByteLength(n);
    }
  }

  lemma {:induction false} JoinOfFours(parts: seq<string>, c: char, k: nat)
    requires parts != [] && (forall i :: 0 <= i < |parts| ==> |parts[i]| == 4) && k < 5 * |parts| - 1
    ensures |Join(parts, c)| == 5 * |parts| - 1
    ensures Join(parts, c)[k] == if k % 5 == 4 then c else parts[k / 5][k % 5]
  {
    if |parts| > 1 {
      JoinOfFours(parts[1..], c, if k < 5 then 0 else k - 5);
      if k >= 5 {
        assert (k - 5) / 5 == k / 5 - 1 && (k - 5) % 5 == k % 5;
        assert parts[1..][(k - 5) / 5] == parts[k / 5];
        assert Join(parts, c)[k] == Join(parts[1..], c)[k - 5];
      }
    }
  }

  /** The hexadecimal text of a number is in lower case. */
  lemma HexTextIsLower(ip: nat)
    requires ip < IPV6_END
    ensures |HexText(ip)| == 32 && forall i :: 0 <= i < 32 ==> IsHexDigit(HexText(ip)[i])
  {
    HexTextDigits(ip);
    ShowIsCanonical(ip, 16);
  }

  /** The full text has 39 characters: eight groups of four digits in lower case, with colons between them. */
  lemma FullTextShape(ip: nat)
    requires ip < IPV6_END
    ensures var s := FullText(ip);
            |s| == 39 && forall i :: 0 <= i < 39 ==> if i % 5 == 4 then s[i] == ':' else IsHexDigit(s[i])
  {
    HexTextIsLower(ip);
    var digits := HexText(ip);
    var s := FullText(ip);
    assert s == Join(Groups(digits, 0), ':');
    hide Join, HexText, FullText, Groups;
    JoinOfFours(Groups(digits, 0), ':', 0);
    forall i | 0 <= i < 39 ensures if i % 5 == 4 then s[i] == ':' else IsHexDigit(s[i]) {
      JoinOfFours(Groups(digits, 0), ':', i);
      if i % 5 != 4 {
        assert s[i] == Group(digits, i / 5)[i % 5] == digits[4 * (i / 5) + i % 5];
      }
    }
  }

  lemma CutHasNoDot(hs: seq<nat>, p: nat, l: nat)
    requires AreHextets(hs) && IsZeroRun(hs, p, l) && l >= 1
    ensures |Cut(hs, p, l).items| >= p && '.' !in Text(Cut(hs, p, l))
  {
    hide Denote, Shows;
    CutExpands(hs, p, l);
    CutSize(hs, p, l);
    var items := Cut(hs, p, l).items;
    DenotedHaveNoDot(items, hs[..p] + hs[p + l..]);
    var a, b := items[..p], items[p..];
    assert forall x :: x in a ==> x in items;
    assert forall x :: x in b ==> x in items;
    hide Join;
    JoinHasNo(a, ':', '.');
    JoinHasNo(b, ':', '.');
    assert Text(Cut(hs, p, l)) == Join(a, ':') + "::" + Join(b, ':');
  }

  lemma DenotedHaveNoDot(items: seq<string>, hs: seq<nat>)
    requires Denote(items, hs)
    ensures forall x :: x in items ==> '.' !in x
  {
    forall x | x in items ensures '.' !in x {
      var i :| 0 <= i < |items| && items[i] == x;
      assert DenotesOne(items[i], hs[i]);
      HexHasNoMarks(x);
    }
  }

  /** Exactly the IPv4-mapped addresses, those of ::ffff:0:0/96, are compressed to the dotted form of RFC 5952
      section 5. */
  lemma DottedIffMapped(ip: nat)
    requires ip < IPV6_END
    ensures '.' in CompressedText(ip) <==> ip / 0x1_0000_0000 == 0xFFFF
    ensures ip / 0x1_0000_0000 == 0xFFFF ==> CompressedText(ip) == "::ffff:" + DottedText(ip % 0x1_0000_0000)
  {
    HextetsOfNumber(ip);
    var hs := HextetsOf(ip);
    hide HextetsOf, DottedText, Text, Cut, Shows;
    if ip / 0x1_0000_0000 == 0xFFFF {
      DottedShape(ip % 0x1_0000_0000);
    } else {
      LongestRunIsFound(hs);
      if LongestLength(hs) > 1 {
        CutHasNoDot(hs, LongestStart(hs), LongestLength(hs));
      } else {
        ShowsDenote(hs);
        DenotedHaveNoDot(Shows(hs), hs);
        JoinHasNo(Shows(hs), ':', '.');
      }
    }
  }
}
