/** Reading addresses (parseAddress and _parseAddressIPv6 of opsbro/misc/IPy.py). */
module IpParse {
  import opened Common
  import opened IpText

  const IPV4_END := 0x1_0000_0000
  const IPV6_END := 0x1_0000_0000_0000_0000_0000_0000_0000_0000

  /** An address and the IP version it is guessed to be of. */
  datatype Parsed = Parsed(ip: int, version: int)

  // ---------------------------------------------------------------- texts without a colon

  /** [int(x, base) for x in parts] */
  function Ints(parts: seq<string>, base: nat): (r: Result<seq<int>>)
    ensures r.Ok? ==> |r.value| == |parts| && forall i :: 0 <= i < |parts| ==> PyInt(parts[i], base) == Ok(r.value[i])
  {
    if parts == [] then Ok([])
    else
      var first, rest := PyInt(parts[0], base), Ints(parts[1..], base);
      if first.Raised? || rest.Raised? then Raised else Ok([first.value] + rest.value)
  }

  /** Missing bytes are zero. */
  function FourParts(parts: seq<string>): (four: seq<string>)
    requires |parts| <= 4
    ensures |four| == 4 && four[..|parts|] == parts && forall i :: |parts| <= i < 4 ==> four[i] == "0"
  {
    parts + seq(4 - |parts|, _ => "0")
  }

  function FromBytes(b: seq<int>): (r: Result<Parsed>)
    requires |b| == 4
    ensures r.Ok? ==> 0 <= r.value.ip < IPV4_END && r.value.version == 4
  {
    if exists x :: x in b && !(0 <= x <= 255) then Raised
    else
      assert b[0] in b && b[1] in b && b[2] in b && b[3] in b;
      Ok(Parsed(b[0] * 0x100_0000 + b[1] * 0x1_0000 + b[2] * 0x100 + b[3], 4))
  }

  /** Up to four decimal bytes. */
  function ParseDotted(s: string): (r: Result<Parsed>)
    ensures r.Ok? ==> 0 <= r.value.ip < IPV4_END && r.value.version == 4
  {
    var parts := Split(s, '.');
    if |parts| > 4 then Raised
    else
      var bytes := Ints(FourParts(parts), 10);
      if bytes.Raised? then Raised else FromBytes(bytes.value)
  }

  function Sized(value: int): Parsed {
    Parsed(value, if value < IPV4_END then 4 else 6)
  }

  /** An address written without a colon: 0x..., 32 hexadecimal digits, dotted bytes, or a decimal number. */
  function ParsePlain(s: string): Result<Parsed> {
    if StartsWith(s, "0x") then
      var n := PyInt(s[2..], 16);
      if n.Raised? || n.value >= IPV6_END then Raised else Ok(Sized(n.value))
    else if |s| == 32 then
      var n := PyInt(s, 16);
      if n.Raised? then Raised else Ok(Parsed(n.value, 6))
    else if '.' in s then ParseDotted(s)
    else
      var n := PyInt(s, 10);
      if n.Raised? then Raised
      else if |s| < 4 && n.value < 256 then ParseDotted(s)
      else if n.value >= IPV6_END then Raised
      else Ok(Sized(n.value))
  }

  /** A text with a dot can only be read as dotted bytes. */
  lemma DotMeansDotted(s: string)
    requires '.' in s
    ensures ParsePlain(s).Ok? ==> 0 <= ParsePlain(s).value.ip < IPV4_END && ParsePlain(s).value.version == 4
  {
    if StartsWith(s, "0x") {
      var i :| 0 <= i < |s| && s[i] == '.';
      assert i >= 2 && s[2..][i - 2] == '.';
      ForeignRaises(s[2..], '.', 16);
    } else if |s| == 32 {
      ForeignRaises(s, '.', 16);
    }
  }

  // ---------------------------------------------------------------- texts with colons: the tokens

  /** The texts between the colons, and how many of them come before the '::'. */
  datatype Tokens = Tokens(items: seq<string>, fill: Option<nat>)

  /** Cut the rest of an address into tokens, after those in `items`. */
  function Scan(text: string, items: seq<string>, fill: Option<nat>): Result<Tokens>
    decreases |text|
  {
    if text == "" then Ok(Tokens(items, fill))
    else if StartsWith(text, "::") then
      if fill.Some? then Raised else Scan(text[2..], items, Some(|items|))
    else
      var pos := Find(text, ':');
      if pos == 0 then Raised
      else if pos < 0 then Ok(Tokens(items + [text], fill))
      else
        var rest := if StartsWith(text[pos..], "::") then text[pos..] else text[pos + 1..];
        if rest == "" then Raised else Scan(rest, items + [text[..pos]], fill)
  }

  predicate ItemOk(item: string) {
    item != "" && ':' !in item
  }

  /** RFC 4291 section 2.2: groups separated by colons, with at most one '::' somewhere among them. */
  ghost predicate WellFormed(t: Tokens) {
    && (forall x :: x in t.items ==> ItemOk(x))
    && (t.fill.Some? ==> t.fill.value <= |t.items|)
  }

  function Text(t: Tokens): string
    requires t.fill.Some? ==> t.fill.value <= |t.items|
  {
    match t.fill
    case None => Join(t.items, ':')
    case Some(f) => Join(t.items[..f], ':') + "::" + Join(t.items[f..], ':')
  }

  function Shift(fill: Option<nat>, steps: int): Option<nat>
    requires fill.Some? ==> fill.value + steps >= 0
  {
    match fill
    case None => None
    case Some(f) => Some(f + steps)
  }

  /** An item in front of some tokens. */
  function Cons(x: string, t: Tokens): Tokens {
    Tokens([x] + t.items, Shift(t.fill, 1))
  }

  /** Tokens after `items`, where `fill` says whether the '::' has gone by already. */
  function After(items: seq<string>, fill: Option<nat>, t: Tokens): Tokens {
    Tokens(items + t.items, if t.fill.Some? then Shift(t.fill, |items|) else fill)
  }

  lemma AfterCons(items: seq<string>, fill: Option<nat>, x: string, t: Tokens)
    ensures After(items + [x], fill, t) == After(items, fill, Cons(x, t))
  {
    assert items + [x] + t.items == items + ([x] + t.items);
  }

  lemma Uncons(t: Tokens) returns (x: string, rest: Tokens)
    requires WellFormed(t) && t.items != [] && t.fill != Some(0)
    ensures t == Cons(x, rest) && WellFormed(rest) && ItemOk(x) && |rest.items| < |t.items|
  {
    x, rest := t.items[0], Tokens(t.items[1..], Shift(t.fill, -1));
    assert x in t.items && t.items == [x] + rest.items;
  }

  /** The text of one item followed by others. */
  lemma TextCons(x: string, t: Tokens)
    requires WellFormed(t) && ItemOk(x)
    ensures WellFormed(Cons(x, t))
    ensures Text(Cons(x, t)) == if t == Tokens([], None) then x
                                else if t.fill == Some(0) then x + Text(t)
                                else x + ":" + Text(t)
  {
    var items := [x] + t.items;
    assert items[1..] == t.items;
    if t.fill.Some? {
      var f := t.fill.value;
      assert items[f + 1..] == t.items[f..];
      assert items[..f + 1] == [x] + t.items[..f];
      if f > 0 {
        JoinAppend([x], t.items[..f], ':');
        assert Text(Tokens(items, Some(f + 1))) == x + ":" + Text(t);
      } else {
        assert items[..1] == [x];
        assert Text(t) == "::" + Join(t.items, ':');
      }
    }
  }

  lemma FirstIsNoColon(t: Tokens)
    requires WellFormed(t) && t != Tokens([], None) && t.fill != Some(0)
    ensures Text(t) != "" && Text(t)[0] != ':'
  {
    var x, rest := Uncons(t);
    TextCons(x, rest);
  }

  lemma FillText(t: Tokens)
    requires WellFormed(t) && t.fill == Some(0)
    ensures Text(t) == "::" + Text(t.(fill := None)) && Text(t)[2..] == Text(t.(fill := None))
    ensures StartsWith(Text(t), "::")
  {
    assert t.items[..0] == [] && t.items[0..] == t.items;
  }

  lemma ScanItem(x: string, text: string, items: seq<string>, fill: Option<nat>)
    requires ItemOk(x) && |text| >= 2 && text[0] == ':'
    ensures Scan(x + text, items, fill)
         == Scan(if StartsWith(text, "::") then text else text[1..], items + [x], fill)
  {
    var whole := x + text;
    FindIs(whole, ':', |x|);
    assert whole[|x|..] == text && whole[..|x|] == x && whole[|x| + 1..] == text[1..];
    assert whole[0] != ':';
  }

  lemma ScanLast(x: string, items: seq<string>, fill: Option<nat>)
    requires ItemOk(x)
    ensures Scan(x, items, fill) == Ok(Tokens(items + [x], fill))
  {
    assert Find(x, ':') < 0 && x[0] != ':';
  }

  /** Scanning takes one item off the front of a text. */
  lemma ScanCons(x: string, t: Tokens, items: seq<string>, fill: Option<nat>)
    requires WellFormed(t) && ItemOk(x)
    ensures Scan(Text(Cons(x, t)), items, fill)
         == if t == Tokens([], None) then Ok(Tokens(items + [x], fill)) else Scan(Text(t), items + [x], fill)
  {
    hide Scan, Text;
    TextCons(x, t);
    if t == Tokens([], None) {
      ScanLast(x, items, fill);
    } else if t.fill == Some(0) {
      FillText(t);
      ScanItem(x, Text(t), items, fill);
    } else {
      FirstIsNoColon(t);
      ScanColon(x, Text(t), items, fill);
    }
  }

  lemma ScanColon(x: string, rest: string, items: seq<string>, fill: Option<nat>)
    requires ItemOk(x) && rest != "" && rest[0] != ':'
    ensures Scan(x + ":" + rest, items, fill) == Scan(rest, items + [x], fill)
  {
    hide Scan;
    var text := ":" + rest;
    ScanItem(x, text, items, fill);
    assert text[1..] == rest && x + text == x + ":" + rest && !StartsWith(text, "::");
  }

  lemma ScanFill(t: Tokens, items: seq<string>)
    requires WellFormed(t) && t.fill == Some(0)
    ensures Scan(Text(t), items, None) == Scan(Text(t.(fill := None)), items, Some(|items|))
  {
    FillText(t);
  }

  lemma ScanNoItems(t: Tokens, items: seq<string>, fill: Option<nat>)
    requires WellFormed(t) && t.items == [] && t.fill != Some(0)
    ensures Scan(Text(t), items, fill) == Ok(After(items, fill, t))
  {
    assert items + [] == items;
  }

  lemma FillGone(t: Tokens)
    requires WellFormed(t)
    ensures WellFormed(t.(fill := None))
  {
  }

  /** Scanning finds the tokens of every well-formed text. */
  lemma {:induction false} ScanFinds(t: Tokens, items: seq<string>, fill: Option<nat>)
    requires WellFormed(t) && (fill.None? || t.fill.None?)
    ensures Scan(Text(t), items, fill) == Ok(After(items, fill, t))
    decreases |t.items|, if t.fill.Some? then 1 else 0
  {
    hide Scan, Text, WellFormed;
    if t.fill == Some(0) {
      FillGone(t);
      ScanFill(t, items);
      ScanFinds(t.(fill := None), items, Some(|items|));
    } else if t.items == [] {
      ScanNoItems(t, items, fill);
    } else {
      var x, rest := Uncons(t);
      ScanCons(x, rest, items, fill);
      AfterCons(items, fill, x, rest);
      if rest == Tokens([], None) {
        assert items + [x] + [] == items + [x];
      } else {
        ScanFinds(rest, items + [x], fill);
      }
    }
  }

  lemma CutAt(text: string)
    requires Find(text, ':') > 0
    ensures var pos := Find(text, ':');
            && text == text[..pos] + text[pos..] && ItemOk(text[..pos])
            && text[pos..][0] == ':' && text[pos..][1..] == text[pos + 1..]
  {
  }

  lemma SoundCons(x: string, tail: string, rest: Tokens)
    requires ItemOk(x) && WellFormed(rest) && |tail| >= 2 && tail[0] == ':'
    requires Text(rest) == if StartsWith(tail, "::") then tail else tail[1..]
    ensures WellFormed(Cons(x, rest)) && Text(Cons(x, rest)) == x + tail
  {
    assert Text(Tokens([], None)) == "" && tail[1..][0] == tail[1];
    hide Text;
    TextCons(x, rest);
    if rest.fill == Some(0) {
      FillText(rest);
    } else {
      FirstIsNoColon(rest);
      assert !StartsWith(tail, "::");
      assert x + ":" + tail[1..] == x + tail;
    }
  }

  /** The step of scanning over a text that begins with an item and a colon. */
  lemma ScanStep(text: string, items: seq<string>, fill: Option<nat>)
    requires text != "" && !StartsWith(text, "::") && Scan(text, items, fill).Ok? && Find(text, ':') >= 0
    ensures Find(text, ':') > 0
    ensures var tail := text[Find(text, ':')..];
            var next := if StartsWith(tail, "::") then tail else tail[1..];
            |tail| >= 2 && Scan(text, items, fill) == Scan(next, items + [text[..Find(text, ':')]], fill)
  {
    var pos := Find(text, ':');
    if pos > 0 {
      CutAt(text);
    }
  }

  /** Whatever scanning accepts is the text of the tokens it returns. */
  lemma {:induction false} ScanIsSound(text: string, items: seq<string>, fill: Option<nat>) returns (t: Tokens)
    requires Scan(text, items, fill).Ok?
    ensures WellFormed(t) && Text(t) == text && (fill.None? || t.fill.None?)
    ensures Scan(text, items, fill) == Ok(After(items, fill, t))
    decreases |text|
  {
    if text == "" {
      t := Tokens([], None);
      assert items + [] == items;
    } else if StartsWith(text, "::") {
      t := ScanIsSoundFill(text, items, fill);
    } else if Find(text, ':') < 0 {
      t := Tokens([text], None);
      ScanLast(text, items, fill);
    } else {
      t := ScanIsSoundStep(text, items, fill);
    }
  }

  lemma {:induction false} ScanIsSoundFill(text: string, items: seq<string>, fill: Option<nat>) returns (t: Tokens)
    requires StartsWith(text, "::") && Scan(text, items, fill).Ok?
    ensures WellFormed(t) && Text(t) == text && (fill.None? || t.fill.None?)
    ensures Scan(text, items, fill) == Ok(After(items, fill, t))
    decreases |text|, 0
  {
    hide Text, WellFormed, Find;
    var tail := text[2..];
    assert fill.None? && Scan(text, items, fill) == Scan(tail, items, Some(|items|));
    hide Scan;
    var rest := ScanIsSound(tail, items, Some(|items|));
    t := rest.(fill := Some(0));
    FillIsWellFormed(rest);
    FillText(t);
    assert text == "::" + tail;
  }

  lemma FillIsWellFormed(t: Tokens)
    requires WellFormed(t) && t.fill.None?
    ensures WellFormed(t.(fill := Some(0)))
  {
  }

  lemma {:induction false} ScanIsSoundStep(text: string, items: seq<string>, fill: Option<nat>) returns (t: Tokens)
    requires text != "" && !StartsWith(text, "::") && Find(text, ':') >= 0
    requires Scan(text, items, fill).Ok?
    ensures WellFormed(t) && Text(t) == text && (fill.None? || t.fill.None?)
    ensures Scan(text, items, fill) == Ok(After(items, fill, t))
    decreases |text|, 0
  {
    hide Scan, Text, Find, WellFormed;
    ScanStep(text, items, fill);
    CutAt(text);
    var x, tail := text[..Find(text, ':')], text[Find(text, ':')..];
    var rest := ScanIsSound(if StartsWith(tail, "::") then tail else tail[1..], items + [x], fill);
    t := Cons(x, rest);
    SoundCons(x, tail, rest);
    AfterCons(items, fill, x, rest);
  }

  // ---------------------------------------------------------------- texts with colons: the value

  function Hextet(item: string): Result<nat> {
    var n := PyInt(item, 16);
    if n.Raised? || !(0 <= n.value <= 0xFFFF) then Raised else Ok(n.value)
  }

  function Hextets(items: seq<string>): (r: Result<seq<nat>>)
    ensures r.Ok? ==> |r.value| == |items| && forall i :: 0 <= i < |items| ==> r.value[i] <= 0xFFFF
  {
    if items == [] then Ok([])
    else
      var rest, last := Hextets(items[..|items| - 1]), Hextet(items[|items| - 1]);
      if rest.Raised? || last.Raised? then Raised else Ok(rest.value + [last.value])
  }

  /** The number whose groups of 16 bits, highest first, are `hs`. */
  function Number(hs: seq<nat>): nat {
    if hs == [] then 0 else Number(hs[..|hs| - 1]) * 0x1_0000 + hs[|hs| - 1]
  }

  lemma HextetsPush(items: seq<string>, item: string)
    ensures Hextets(items + [item])
         == if Hextets(items).Raised? || Hextet(item).Raised? then Raised
            else Ok(Hextets(items).value + [Hextet(item).value])
  {
    assert (items + [item])[..|items + [item]| - 1] == items;
  }

  lemma NumberPush(hs: seq<nat>, h: nat)
    ensures Number(hs + [h]) == Number(hs) * 0x1_0000 + h
  {
    assert (hs + [h])[..|hs + [h]| - 1] == hs;
  }

  /** "%04x" % n */
  function Hex4(n: nat): string {
    ZFill(Show(n, 16), 4)
  }

  /** An IPv4 address as the two groups of 16 bits it stands for. */
  function TwoGroups(ip: nat): (groups: seq<string>)
    ensures |groups| == 2
  {
    [Hex4(ip / 0x1_0000), Hex4(ip % 0x1_0000)]
  }

  /** A last item in dotted form stands for two groups; no '::' may come after it. */
  function SplitDotted(t: Tokens): Result<seq<string>> {
    var n := |t.items|;
    if n == 0 || '.' !in t.items[n - 1] then Ok(t.items)
    else if t.fill.Some? && t.fill.value > n - 1 then Raised
    else
      DotMeansDotted(t.items[n - 1]);
      var tail := ParsePlain(t.items[n - 1]);
      if tail.Raised? then Raised
      else Ok(t.items[..n - 1] + TwoGroups(tail.value.ip))
  }

  /** The '::' stands for at least one group of zeros, as many as are missing. */
  function Expand(items: seq<string>, fill: Option<nat>): Result<seq<string>> {
    match fill
    case None => if |items| == 8 then Ok(items) else Raised
    case Some(f) =>
      if |items| >= 8 || f > |items| then Raised
      else Ok(items[..f] + seq(8 - |items|, _ => "0") + items[f..])
  }

  function Evaluate(t: Tokens): (r: Result<nat>)
  {
    var items := SplitDotted(t);
    if items.Raised? then Raised
    else
      var all := Expand(items.value, t.fill);
      if all.Raised? then Raised
      else
        var hs := Hextets(all.value);
        if hs.Raised? then Raised else Ok(Number(hs.value))
  }

  function ParseIPv6(s: string): Result<nat> {
    var t := Scan(s, [], None);
    if t.Raised? then Raised else Evaluate(t.value)
  }

  function ParseAddress(s: string): Result<Parsed> {
    if StartsWith(s, "0x") || ':' !in s then ParsePlain(s)
    else
      var n := ParseIPv6(s);
      if n.Raised? then Raised else Ok(Parsed(n.value, 6))
  }

  /** An IPv6 text is accepted exactly when it is written by the grammar and its groups can be evaluated. */
  lemma AcceptedIffWritten(s: string, n: nat)
    ensures ParseIPv6(s) == Ok(n) <==> exists t :: WellFormed(t) && Text(t) == s && Evaluate(t) == Ok(n)
  {
    if ParseIPv6(s).Ok? {
      var t := ScanIsSound(s, [], None);
      TokensOf(t);
    }
    if t :| WellFormed(t) && Text(t) == s && Evaluate(t) == Ok(n) {
      ScanFinds(t, [], None);
      TokensOf(t);
    }
  }

  lemma TokensOf(t: Tokens)
    ensures After([], None, t) == t
  {
    assert [] + t.items == t.items;
  }

  lemma {:induction false} NumberBelow(hs: seq<nat>, k: nat)
    requires |hs| == k && forall i :: 0 <= i < |hs| ==> hs[i] <= 0xFFFF
    ensures Number(hs) < Power(0x1_0000, k)
  {
    if k > 0 {
      NumberBelow(hs[..k - 1], k - 1);
    }
  }

  lemma ExpandsToEight(items: seq<string>, fill: Option<nat>)
    requires Expand(items, fill).Ok?
    ensures |Expand(items, fill).value| == 8
  {
  }

  /** Every accepted IPv6 text is a 128-bit number. */
  lemma ParseIPv6InRange(s: string)
    requires ParseIPv6(s).Ok?
    ensures ParseIPv6(s).value < IPV6_END
  {
    hide Scan, SplitDotted, Expand, Hextets, Number, Power;
    var t := Scan(s, [], None).value;
    var items := SplitDotted(t).value;
    ExpandsToEight(items, t.fill);
    NumberBelow(Hextets(Expand(items, t.fill).value).value, 8);
    Power8();
  }

  lemma Power8()
    ensures Power(0x1_0000, 8) == IPV6_END
  {
    var p := 0x1_0000;
    assert Power(p, 2) == p * p;
    assert Power(p, 4) == p * (p * Power(p, 2));
    assert Power(p, 6) == p * (p * Power(p, 4));
    assert Power(p, 8) == p * (p * Power(p, 6));
  }

  lemma {:induction false} HextetsPrefix(items: seq<string>, i: nat)
    requires i <= |items| && Hextets(items[..i]).Raised?
    ensures Hextets(items).Raised?
    decreases |items|
  {
    if i < |items| {
      assert items[..|items| - 1][..i] == items[..i];
      HextetsPrefix(items[..|items| - 1], i);
    } else {
      assert items[..i] == items;
    }
  }

  /** The groups from left to right, each shifted in below the ones before. */
  method AddUp(items: seq<string>) returns (r: Result<nat>)
    ensures r == if Hextets(items).Raised? then Raised else Ok(Number(Hextets(items).value))
  {
    hide PyInt;
    var value := 0;
    for i := 0 to |items|
      invariant Hextets(items[..i]).Ok? && value == Number(Hextets(items[..i]).value)
    {
      assert items[..i + 1][..i] == items[..i];
      var item := PyInt(items[i], 16);
      var error := item.Raised? || !(0 <= item.value <= 0xFFFF);
      if error {
        HextetsPrefix(items, i + 1);
        return Raised;
      }
      var hs := Hextets(items[..i]).value;
      assert (hs + [item.value])[..|hs|] == hs;
      value := value * 0x1_0000 + item.value;
    }
    assert items[..|items|] == items;
    return Ok(value);
  }

  lemma SliceOfSlice(s: string, i: nat, k: nat)
    requires i + k <= |s|
    ensures s[i..][k..] == s[i + k..]
  {
  }

  lemma ScanColons(text: string, items: seq<string>, fill: Option<nat>)
    requires StartsWith(text, "::")
    ensures Scan(text, items, fill) == if fill.Some? then Raised else Scan(text[2..], items, Some(|items|))
  {
  }

  lemma ScanUpToColon(text: string, items: seq<string>, fill: Option<nat>)
    requires text != "" && !StartsWith(text, "::")
    ensures var pos := Find(text, ':');
            && (pos == 0 ==> Scan(text, items, fill) == Raised)
            && (pos < 0 ==> Scan(text, items, fill) == Ok(Tokens(items + [text], fill)))
            && (pos > 0 ==>
                  var rest := if StartsWith(text[pos..], "::") then text[pos..] else text[pos + 1..];
                  Scan(text, items, fill) == if rest == "" then Raised else Scan(rest, items + [text[..pos]], fill))
  {
  }

  lemma ScanNothing(items: seq<string>, fill: Option<nat>)
    ensures Scan("", items, fill) == Ok(Tokens(items, fill))
  {
  }

  /** The loop that cuts an address into its items and finds the place of the '::'. */
  method SplitItems(ipstr: string) returns (r: Result<Tokens>)
    ensures r == Scan(ipstr, [], None)
  {
    hide Scan, Find;
    var items: seq<string> := [];
    var index := 0;
    var fillPos: Option<nat> := None;
    while index < |ipstr|
      invariant index <= |ipstr| && Scan(ipstr[index..], items, fillPos) == Scan(ipstr, [], None)
    {
      var text := ipstr[index..];
      if StartsWith(text, "::") {
        ScanColons(text, items, fillPos);
        if fillPos.Some? {
          return Raised;
        }
        fillPos := Some(|items|);
        SliceOfSlice(ipstr, index, 2);
        index := index + 2;
        continue;
      }
      var pos := Find(text, ':');
      ScanUpToColon(text, items, fillPos);
      if pos == 0 {
        return Raised;
      }
      if pos == -1 {
        items := items + [text];
        return Ok(Tokens(items, fillPos));
      }
      items := items + [text[..pos]];
      SliceOfSlice(ipstr, index, pos);
      SliceOfSlice(ipstr, index, pos + 1);
      if StartsWith(text[pos..], "::") {
        index := index + pos;
      } else {
        index := index + pos + 1;
      }
      if index == |ipstr| {
        return Raised;
      }
    }
    assert ipstr[index..] == "";
    ScanNothing(items, fillPos);
    return Ok(Tokens(items, fillPos));
  }

  method ReplaceDotted(t: Tokens) returns (r: Result<seq<string>>)
    ensures r == SplitDotted(t)
  {
    hide ParsePlain, TwoGroups;
    var items := t.items;
    if items != [] && '.' in items[|items| - 1] {
      if t.fill.Some? && !(t.fill.value <= |items| - 1) {
        return Raised;
      }
      var last := items[|items| - 1];
      DotMeansDotted(last);
      var value := ParsePlain(last);
      if value.Raised? {
        return Raised;
      }
      items := items[..|items| - 1] + TwoGroups(value.value.ip);
    }
    return Ok(items);
  }

  method FillWithZeros(items: seq<string>, fillPos: Option<nat>) returns (r: Result<seq<string>>)
    requires fillPos.Some? ==> fillPos.value <= |items|
    ensures r == Expand(items, fillPos)
  {
    var all := items;
    if fillPos.Some? {
      var diff := 8 - |items|;
      if diff <= 0 {
        return Raised;
      }
      all := items[..fillPos.value] + seq(diff, _ => "0") + items[fillPos.value..];
    }
    if |all| != 8 {
      return Raised;
    }
    return Ok(all);
  }

  method ParseAddressIPv6(ipstr: string) returns (r: Result<nat>)
    ensures r == ParseIPv6(ipstr)
  {
    hide Scan, Text, ParsePlain, Hextets, Number, Expand;
    var tokens := SplitItems(ipstr);
    if tokens.Raised? {
      return Raised;
    }
    ghost var t := ScanIsSound(ipstr, [], None);
    TokensOf(t);
    var items := ReplaceDotted(tokens.value);
    if items.Raised? {
      return Raised;
    }
    var all := FillWithZeros(items.value, tokens.value.fill);
    if all.Raised? {
      return Raised;
    }
    r := AddUp(all.value);
  }
}
