/** The '::' form of strCompressed (opsbro/misc/IPy.py): which zeros it leaves out, and that it is read back. */
module IpCompress {
  import opened Common
  import opened IpText
  import opened IpParse
  import opened IpPrint

  // ---------------------------------------------------------------- the run to leave out

  /** How many zeros the list begins with. */
  function CountFollowingZeros(l: seq<nat>): (n: nat)
    ensures n <= |l|
    ensures forall i :: 0 <= i < n ==> l[i] == 0
    ensures n < |l| ==> l[n] != 0
  {
    if l == [] || l[0] != 0 then 0 else 1 + CountFollowingZeros(l[1..])
  }

  /** max(counts) */
  function Max(counts: seq<nat>): (m: nat)
    requires counts != []
    ensures m in counts && forall i :: 0 <= i < |counts| ==> counts[i] <= m
  {
    if |counts| == 1 then counts[0]
    else
      var m := Max(counts[..|counts| - 1]);
      if m >= counts[|counts| - 1] then m else counts[|counts| - 1]
  }

  /** counts.index(x) */
  function Index(counts: seq<nat>, x: nat): (i: nat)
    requires x in counts
    ensures i < |counts| && counts[i] == x && forall k :: 0 <= k < i ==> counts[k] != x
  {
    if counts[0] == x then 0 else 1 + Index(counts[1..], x)
  }

  function ZeroCounts(hs: seq<nat>): (counts: seq<nat>)
    ensures |counts| == |hs| && forall i :: 0 <= i < |hs| ==> counts[i] == CountFollowingZeros(hs[i..])
  {
    seq(|hs|, i requires 0 <= i < |hs| => CountFollowingZeros(hs[i..]))
  }

  /** RFC 5952 section 4.2.3: the longest run of zero groups, the first one if there are several. */
  ghost predicate IsLongestRun(hs: seq<nat>, p: nat, l: nat) {
    && IsZeroRun(hs, p, l)
    && forall q: nat, m: nat :: IsZeroRun(hs, q, m) ==> m <= l && (m == l ==> p <= q)
  }

  lemma LongestRunIsUnique(hs: seq<nat>, p: nat, l: nat, q: nat, m: nat)
    requires IsLongestRun(hs, p, l) && IsLongestRun(hs, q, m)
    ensures p == q && l == m
  {
    assert IsZeroRun(hs, p, l) && IsZeroRun(hs, q, m);
  }

  function LongestLength(hs: seq<nat>): nat
    requires hs != []
  {
    Max(ZeroCounts(hs))
  }

  function LongestStart(hs: seq<nat>): nat
    requires hs != []
  {
    Index(ZeroCounts(hs), LongestLength(hs))
  }

  lemma CountOfRun(hs: seq<nat>, q: nat, m: nat)
    requires IsZeroRun(hs, q, m) && q < |hs|
    ensures m <= CountFollowingZeros(hs[q..])
  {
    var n := CountFollowingZeros(hs[q..]);
    assert n < |hs| - q ==> hs[q..][n] == hs[q + n];
  }

  /** The position and length that strCompressed computes are those of the longest run. */
  lemma LongestRunIsFound(hs: seq<nat>)
    requires hs != []
    ensures LongestStart(hs) < |hs| && IsLongestRun(hs, LongestStart(hs), LongestLength(hs))
  {
    var p, l := LongestStart(hs), LongestLength(hs);
    assert l == CountFollowingZeros(hs[p..]);
    assert forall i :: 0 <= i < l ==> hs[p..][i] == hs[p + i];
    forall i | p <= i < p + l ensures hs[i] == 0 {
      assert hs[p..][i - p] == 0;
    }
    forall q: nat, m: nat | IsZeroRun(hs, q, m) ensures m <= l && (m == l ==> p <= q) {
      if q < |hs| {
        CountOfRun(hs, q, m);
        assert ZeroCounts(hs)[q] <= l;
      }
    }
  }

  // ---------------------------------------------------------------- the text

  /** The text of eight groups: the longest run of at least two zeros is left out. */
  function CompressGroups(hs: seq<nat>): string
    requires |hs| == 8
  {
    LongestRunIsFound(hs);
    if LongestLength(hs) > 1 then Text(Cut(hs, LongestStart(hs), LongestLength(hs))) else Join(Shows(hs), ':')
  }

  function CompressedText(ip: nat): string
    requires ip < IPV6_END
  {
    HextetsOfNumber(ip);
    if ip / 0x1_0000_0000 == 0xFFFF then "::ffff:" + DottedText(ip % 0x1_0000_0000)
    else CompressGroups(HextetsOf(ip))
  }

  /** RFC 5952 sections 4.2.2 and 4.2.3: what is left out is the longest run of zeros, the leftmost of several,
      and never a single group. */
  lemma CompressionFollowsRfc5952(hs: seq<nat>, p: nat, l: nat)
    requires |hs| == 8 && IsLongestRun(hs, p, l)
    ensures CompressGroups(hs) == if l >= 2 then Text(Cut(hs, p, l)) else Join(Shows(hs), ':')
  {
    LongestRunIsFound(hs);
    LongestRunIsUnique(hs, p, l, LongestStart(hs), LongestLength(hs));
  }

  // ---------------------------------------------------------------- reading it back

  lemma JoinHas(parts: seq<string>, c: char)
    requires |parts| > 1
    ensures c in Join(parts, c)
  {
    assert Join(parts, c)[|parts[0]|] == c;
  }

  lemma DenotedHaveNoX(items: seq<string>, hs: seq<nat>)
    requires Denote(items, hs)
    ensures forall x :: x in items ==> 'x' !in x
  {
    forall x | x in items ensures 'x' !in x {
      var i :| 0 <= i < |items| && items[i] == x;
      assert DenotesOne(items[i], hs[i]);
      assert forall k :: 0 <= k < |x| ==> x[k] != 'x';
    }
  }

  /** Without an 'x' and with a colon, a text is read as an IPv6 address. */
  lemma ColonMeansIPv6(s: string, n: nat)
    requires 'x' !in s && ':' in s && ParseIPv6(s) == Ok(n)
    ensures ParseAddress(s) == Ok(Parsed(n, 6))
  {
    hide ParseIPv6, ParsePlain;
    NoHexPrefix(s);
  }

  /** Eight groups separated by colons are read as the number they stand for. */
  lemma JoinedGroupsReadBack(items: seq<string>, hs: seq<nat>)
    requires Denote(items, hs) && |hs| == 8
    ensures ParseAddress(Join(items, ':')) == Ok(Parsed(Number(hs), 6))
  {
    hide ParseIPv6, Number, Join;
    FullFormReadsBack(items, hs);
    DenotedHaveNoX(items, hs);
    JoinHasNo(items, ':', 'x');
    JoinHas(items, ':');
    ColonMeansIPv6(Join(items, ':'), Number(hs));
  }

  lemma CutTextMarks(hs: seq<nat>, p: nat, l: nat)
    requires AreHextets(hs) && IsZeroRun(hs, p, l) && l >= 1
    ensures |Cut(hs, p, l).items| >= p && 'x' !in Text(Cut(hs, p, l)) && ':' in Text(Cut(hs, p, l))
  {
    hide Denote, Shows;
    CutExpands(hs, p, l);
    CutSize(hs, p, l);
    var items := Cut(hs, p, l).items;
    DenotedHaveNoX(items, hs[..p] + hs[p + l..]);
    var a, b := items[..p], items[p..];
    assert forall x :: x in a ==> x in items;
    assert forall x :: x in b ==> x in items;
    hide Join;
    JoinHasNo(a, ':', 'x');
    JoinHasNo(b, ':', 'x');
    assert Text(Cut(hs, p, l)) == Join(a, ':') + "::" + Join(b, ':');
    assert Text(Cut(hs, p, l))[|Join(a, ':')|] == ':';
  }

  lemma CutReadsBack(hs: seq<nat>, p: nat, l: nat)
    requires AreHextets(hs) && IsZeroRun(hs, p, l) && l >= 1
    ensures |Cut(hs, p, l).items| >= p && ParseAddress(Text(Cut(hs, p, l))) == Ok(Parsed(Number(hs), 6))
  {
    hide Cut, Text, ParseIPv6, Number;
    CutTextMarks(hs, p, l);
    AnyCompressionReadsBack(hs, p, l);
    ColonMeansIPv6(Text(Cut(hs, p, l)), Number(hs));
  }

  /** The eight groups of an IPv4-mapped address, the last two taken from the dotted form. */
  function MappedItems(low: nat): (items: seq<string>)
    ensures |items| == 8
  {
    ["0", "0", "0", "0", "0", "ffff"] + TwoGroups(low)
  }

  lemma MappedDenotes(low: nat)
    requires low < IPV4_END
    ensures Denote(MappedItems(low), [0, 0, 0, 0, 0, 0xFFFF, low / 0x1_0000, low % 0x1_0000])
  {
    hide Show, Value, Power;
    ZeroDenotes();
    FfffDenotes();
    Power16();
    ZFillValue(low / 0x1_0000, 16, 4);
    ZFillValue(low % 0x1_0000, 16, 4);
  }

  lemma FfffDenotes()
    ensures DenotesOne("ffff", 0xFFFF)
  {
    assert "ffff"[..3] == "fff" && "fff"[..2] == "ff" && "ff"[..1] == "f" && "f"[..0] == "";
  }

  lemma {:induction false} NumberOfZeros(k: nat)
    ensures Number(seq(k, _ => 0)) == 0
  {
    if k > 0 {
      NumberOfZeros(k - 1);
      assert seq(k, _ => 0)[..k - 1] == seq(k - 1, _ => 0);
    }
  }

  lemma MappedNumber(low: nat)
    ensures Number([0, 0, 0, 0, 0, 0xFFFF, low / 0x1_0000, low % 0x1_0000]) == 0xFFFF * 0x1_0000_0000 + low
  {
    hide Number;
    var zeros := seq(5, _ => 0);
    var hi, lo := low / 0x1_0000, low % 0x1_0000;
    NumberOfZeros(5);
    NumberPush(zeros, 0xFFFF);
    NumberPush(zeros + [0xFFFF], hi);
    NumberPush(zeros + [0xFFFF] + [hi], lo);
    assert zeros + [0xFFFF] + [hi] + [lo] == [0, 0, 0, 0, 0, 0xFFFF, hi, lo];
  }

  lemma ExpandFront(items: seq<string>)
    requires |items| < 8
    ensures Expand(items, Some(0)) == Ok(seq(8 - |items|, _ => "0") + items)
  {
    var zeros := seq(8 - |items|, _ => "0");
    assert items[..0] == [] && items[0..] == items;
    assert Expand(items, Some(0)).value == zeros + items;
  }

  lemma MappedExpands(low: nat)
    ensures Expand(["ffff"] + TwoGroups(low), Some(0)) == Ok(MappedItems(low))
  {
    hide TwoGroups, Expand;
    var items := ["ffff"] + TwoGroups(low);
    ExpandFront(items);
    assert seq(8 - |items|, _ => "0") + items == MappedItems(low);
  }

  function MappedTokens(low: nat): Tokens {
    Tokens(["ffff", DottedText(low)], Some(0))
  }

  lemma MappedSplits(low: nat)
    requires low < IPV4_END
    ensures SplitDotted(MappedTokens(low)) == Ok(["ffff"] + TwoGroups(low))
  {
    hide DottedText, ParsePlain, TwoGroups;
    DottedShape(low);
    DottedReadsBack(low);
    assert MappedTokens(low).items[..1] == ["ffff"];
  }

  lemma MappedEvaluates(low: nat)
    requires low < IPV4_END
    ensures Evaluate(MappedTokens(low)) == Ok(0xFFFF * 0x1_0000_0000 + low)
  {
    assert MappedTokens(low).fill == Some(0);
    hide MappedTokens, SplitDotted, Expand, Hextets, Number, TwoGroups, MappedItems;
    MappedSplits(low);
    MappedExpands(low);
    MappedDenotes(low);
    DenotedHextets(MappedItems(low), [0, 0, 0, 0, 0, 0xFFFF, low / 0x1_0000, low % 0x1_0000]);
    MappedNumber(low);
  }

  lemma MappedText(low: nat)
    requires low < IPV4_END
    ensures WellFormed(MappedTokens(low)) && Text(MappedTokens(low)) == "::ffff:" + DottedText(low)
  {
    hide DottedText;
    DottedShape(low);
    var items := MappedTokens(low).items;
    assert items[..0] == [] && items[0..] == items && items[1..] == [DottedText(low)];
    assert Join(items, ':') == "ffff" + ":" + DottedText(low);
  }

  /** The IPv4-mapped form is read back. */
  lemma MappedReadsBack(low: nat)
    requires low < IPV4_END
    ensures ParseAddress("::ffff:" + DottedText(low)) == Ok(Parsed(0xFFFF * 0x1_0000_0000 + low, 6))
  {
    hide DottedText, Evaluate, MappedTokens, Text, WellFormed, ParseIPv6;
    var s := "::ffff:" + DottedText(low);
    DottedShape(low);
    MappedEvaluates(low);
    MappedText(low);
    ReadTokens(MappedTokens(low));
    assert s[0] == ':';
    ColonMeansIPv6(s, 0xFFFF * 0x1_0000_0000 + low);
  }

  /** Every IPv6 address is read back from its compressed text. */
  lemma CompressedReadsBack(ip: nat)
    requires ip < IPV6_END
    ensures ParseAddress(CompressedText(ip)) == Ok(Parsed(ip, 6))
  {
    hide ParseAddress, Number, HextetsOf, Text, Cut, DottedText;
    HextetsOfNumber(ip);
    var hs := HextetsOf(ip);
    if ip / 0x1_0000_0000 == 0xFFFF {
      MappedReadsBack(ip % 0x1_0000_0000);
    } else {
      LongestRunIsFound(hs);
      if LongestLength(hs) > 1 {
        CutReadsBack(hs, LongestStart(hs), LongestLength(hs));
      } else {
        ShowsDenote(hs);
        JoinedGroupsReadBack(Shows(hs), hs);
      }
    }
  }

  /** Every IPv6 address is read back from its normal and its full text. */
  lemma LongFormsReadBack(ip: nat)
    requires ip < IPV6_END
    ensures ParseAddress(NormalText(ip)) == Ok(Parsed(ip, 6)) && ParseAddress(FullText(ip)) == Ok(Parsed(ip, 6))
  {
    hide ParseAddress, Number, HextetsOf, Groups, HexText;
    HextetsOfNumber(ip);
    ShowsDenote(HextetsOf(ip));
    JoinedGroupsReadBack(Shows(HextetsOf(ip)), HextetsOf(ip));
    GroupsDenote(ip);
    JoinedGroupsReadBack(Groups(HexText(ip), 0), HextetsOf(ip));
  }

  // ---------------------------------------------------------------- strCompressed

  lemma ZeroIsShownAsZero(h: nat)
    ensures Show(h, 16) == "0" <==> h == 0
  {
    ShowValue(h, 16);
    assert "0"[..0] == "";
  }

  /** Where the zeros have been deleted, adding the empty strings and joining gives the '::'. */
  lemma JoinWithGap(a: seq<string>, b: seq<string>)
    ensures Join(Padded(a) + [""] + Padded(b), ':') == Join(a, ':') + "::" + Join(b, ':')
  {
    assert Join(Padded(a), ':') == Join(a, ':') && Join(Padded(b), ':') == Join(b, ':');
    assert Padded(a) != [] && Padded(b) != [];
    hide Join, Padded;
    JoinAppend(Padded(a) + [""], Padded(b), ':');
    JoinAppend(Padded(a), [""], ':');
    JoinOne("", ':');
  }

  function Padded(a: seq<string>): seq<string> {
    if a == [] then [""] else a
  }

  lemma JoinOne(x: string, c: char)
    ensures Join([x], c) == x
  {
  }

  /** The run that starts at `p` stops where the deleting loop stops. */
  lemma RunEnds(hs: seq<nat>, p: nat, k: nat)
    requires IsZeroRun(hs, p, k) && (p + k < |hs| ==> hs[p + k] != 0)
    ensures CountFollowingZeros(hs[p..]) == k
  {
    var n := CountFollowingZeros(hs[p..]);
    assert n < |hs| - p ==> hs[p..][n] == hs[p + n];
    assert forall i :: 0 <= i < n ==> hs[p..][i] == hs[p + i];
  }

  lemma RunGrows(hs: seq<nat>, p: nat, k: nat)
    requires IsZeroRun(hs, p, k) && p + k < |hs| && hs[p + k] == 0
    ensures IsZeroRun(hs, p, k + 1)
  {
  }

  /** The shown groups without the `k` that begin at `p`. */
  function Deleted(hs: seq<nat>, p: nat, k: nat): seq<string>
    requires p + k <= |hs|
  {
    Shows(hs[..p]) + Shows(hs[p + k..])
  }

  lemma DeletedSize(hs: seq<nat>, p: nat, k: nat)
    requires p + k <= |hs|
    ensures |Deleted(hs, p, k)| == |hs| - k && (k == 0 ==> Deleted(hs, p, k) == Shows(hs))
  {
    hide Show;
  }

  lemma DeleteOne(hs: seq<nat>, p: nat, k: nat)
    requires p + k < |hs|
    ensures |Deleted(hs, p, k)| == |hs| - k && Deleted(hs, p, k)[p] == Show(hs[p + k], 16)
    ensures Deleted(hs, p, k)[..p] + Deleted(hs, p, k)[p + 1..] == Deleted(hs, p, k + 1)
  {
    hide Show;
  }

  /** Delete the zeros from position `p` on. */
  method DeleteZeros(shown: seq<string>, ghost hs: seq<nat>, p: nat) returns (hextets: seq<string>)
    requires shown == Shows(hs) && p <= |hs|
    ensures CountFollowingZeros(hs[p..]) <= |hs| - p
    ensures hextets == Deleted(hs, p, CountFollowingZeros(hs[p..]))
  {
    hextets := shown;
    assert IsZeroRun(hs, p, 0);
    DeletedSize(hs, p, 0);
    hide *;
    ghost var k := 0;
    while p < |hextets| && hextets[p] == "0"
      invariant p + k <= |hs| && |hextets| == |hs| - k && IsZeroRun(hs, p, k) && hextets == Deleted(hs, p, k)
      decreases |hs| - k
    {
      DeleteOne(hs, p, k);
      ZeroIsShownAsZero(hs[p + k]);
      RunGrows(hs, p, k);
      DeletedSize(hs, p, k + 1);
      hextets := hextets[..p] + hextets[p + 1..];
      k := k + 1;
    }
    if p < |hextets| {
      DeleteOne(hs, p, k);
      ZeroIsShownAsZero(hs[p + k]);
    }
    RunEnds(hs, p, k);
  }

  method CountZeros(hextets: seq<nat>) returns (followingzeros: seq<nat>)
    ensures followingzeros == ZeroCounts(hextets)
  {
    hide CountFollowingZeros;
    followingzeros := seq(|hextets|, _ => 0);
    for i := 0 to |hextets|
      invariant |followingzeros| == |hextets| && followingzeros[..i] == ZeroCounts(hextets)[..i]
    {
      followingzeros := followingzeros[i := CountFollowingZeros(hextets[i..])];
    }
  }

  /** Put the empty strings where the zeros were, so that joining leaves two colons there. */
  method JoinAround(hextets: seq<string>, p: nat) returns (text: string)
    requires p <= |hextets|
    ensures text == Join(hextets[..p], ':') + "::" + Join(hextets[p..], ':')
  {
    hide Join;
    ghost var a, b := hextets[..p], hextets[p..];
    var items := hextets[..p] + [""] + hextets[p..];
    if p + 1 >= |items| {
      items := items + [""];
    }
    if p == 0 {
      items := [""] + items;
    }
    JoinWithGap(a, b);
    assert items == Padded(a) + [""] + Padded(b);
    return Join(items, ':');
  }

  lemma TextOfCut(t: Tokens)
    requires t.fill.Some? && t.fill.value <= |t.items|
    ensures Text(t) == Join(t.items[..t.fill.value], ':') + "::" + Join(t.items[t.fill.value..], ':')
  {
  }

  /** What is left after deleting the run, with two colons in its place, is the compressed text. */
  lemma CompressedIs(hs: seq<nat>)
    requires |hs| == 8
    ensures var p, l := LongestStart(hs), LongestLength(hs);
            && p < 8 && l == CountFollowingZeros(hs[p..]) && p + l <= 8 && |Deleted(hs, p, l)| >= p
            && CompressGroups(hs)
               == if l > 1 then Join(Deleted(hs, p, l)[..p], ':') + "::" + Join(Deleted(hs, p, l)[p..], ':')
                  else Join(Shows(hs), ':')
  {
    LongestRunIsFound(hs);
    hide Text, Join, CountFollowingZeros, Shows, LongestLength;
    var p, l := LongestStart(hs), LongestLength(hs);
    DeletedSize(hs, p, l);
    TextOfCut(Cut(hs, p, l));
  }

  lemma CountsOf(hs: seq<nat>)
    requires hs != []
    ensures LongestLength(hs) == Max(ZeroCounts(hs)) && LongestStart(hs) == Index(ZeroCounts(hs), Max(ZeroCounts(hs)))
  {
  }

  method CompressHextets(hextets: seq<nat>, normal: string) returns (text: string)
    requires AreHextets(hextets) && normal == Join(Shows(hextets), ':')
    ensures text == CompressGroups(hextets)
  {
    ShowsDenote(hextets);
    SplitDenoted(Shows(hextets), hextets);
    hide *;
    var followingzeros := CountZeros(hextets);
    CountsOf(hextets);
    CompressedIs(hextets);
    var compressionpos := Index(followingzeros, Max(followingzeros));
    if Max(followingzeros) > 1 {
      var items := DeleteZeros(Split(normal, ':'), hextets, compressionpos);
      text := JoinAround(items, compressionpos);
    } else {
      return normal;
    }
  }

  /** strCompressed of a single address. */
  method StrCompressed(ip: int, version: int) returns (r: Result<string>)
    requires version == 4 || version == 6
    ensures r == if version == 6 && 0 <= ip < IPV6_END then Ok(CompressedText(ip)) else IntToIpText(ip, version)
  {
    hide HextetsOf, CompressGroups, DottedText, FullText, Shows, Join;
    if version == 4 {
      r := IntToIp(ip, version);
    } else if ip / 0x1_0000_0000 == 0xFFFF {
      var ipv4 := IntToIp(ip % 0x1_0000_0000, 4);
      return Ok("::ffff:" + ipv4.value);
    } else {
      var hextets := ReadGroups(ip, version);
      if hextets.Raised? {
        return Raised;
      }
      HextetsOfNumber(ip);
      var normal := StrNormal(ip, version);
      var text := CompressHextets(hextets.value, normal.value);
      return Ok(text);
    }
  }
}
