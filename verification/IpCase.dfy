/** Hexadecimal digits may be written in either case: addresses that differ only in that are read alike. */
module IpCase {
  import opened Common
  import opened IpText
  import opened IpParse

  predicate InUpperCase(a: char, b: char) {
    exists d: nat :: d < 6 && a == "abcdef"[d] && b == "ABCDEF"[d]
  }

  /** The same character, or the same hexadecimal digit in the other case. */
  predicate SameButCase(a: char, b: char) {
    a == b || InUpperCase(a, b) || InUpperCase(b, a)
  }

  predicate Alike(s: string, t: string) {
    |s| == |t| && forall i :: 0 <= i < |s| ==> SameButCase(s[i], t[i])
  }

  ghost predicate AllAlike(xs: seq<string>, ys: seq<string>) {
    |xs| == |ys| && forall i :: 0 <= i < |xs| ==> Alike(xs[i], ys[i])
  }

  predicate IsLetter(ch: char) {
    ch in "abcdefABCDEF"
  }

  lemma CaseOfDigit(a: char, b: char)
    requires SameButCase(a, b)
    ensures DigitValue(a) == DigitValue(b) && IsSpace(a) == IsSpace(b)
    ensures a != b ==> IsLetter(a) && IsLetter(b)
  {
  }

  /** A character other than the letters stands at the same places. */
  lemma MarkStays(s: string, t: string, i: nat, ch: char)
    requires Alike(s, t) && i < |s| && !IsLetter(ch)
    ensures s[i] == ch <==> t[i] == ch
  {
    assert SameButCase(s[i], t[i]);
    CaseOfDigit(s[i], t[i]);
  }

  lemma AlikeHead(s: string, t: string, i: nat)
    requires Alike(s, t) && i <= |s|
    ensures Alike(s[..i], t[..i])
  {
    hide SameButCase;
  }

  lemma AlikeTail(s: string, t: string, i: nat)
    requires Alike(s, t) && i <= |s|
    ensures Alike(s[i..], t[i..])
  {
    hide SameButCase;
  }

  // ---------------------------------------------------------------- numerals

  lemma AlikeDigits(s: string, t: string, base: nat)
    requires Alike(s, t)
    ensures AreDigits(s, base) <==> AreDigits(t, base)
  {
    hide SameButCase, DigitValue;
    forall i | 0 <= i < |s| ensures DigitValue(s[i]) == DigitValue(t[i]) {
      assert SameButCase(s[i], t[i]);
      CaseOfDigit(s[i], t[i]);
    }
  }

  /** A numeral has its value whatever the case of its digits. */
  lemma {:induction false} AlikeValue(s: string, t: string, base: nat)
    requires Alike(s, t)
    ensures Value(s, base) == Value(t, base)
  {
    hide SameButCase, DigitValue;
    if s != "" {
      var n := |s| - 1;
      AlikeHead(s, t, n);
      AlikeValue(s[..n], t[..n], base);
      assert SameButCase(s[n], t[n]);
      CaseOfDigit(s[n], t[n]);
    }
  }

  lemma {:induction false} AlikeLStrip(s: string, t: string)
    requires Alike(s, t)
    ensures Alike(LStrip(s), LStrip(t))
  {
    if s != "" {
      assert SameButCase(s[0], t[0]);
      CaseOfDigit(s[0], t[0]);
      hide SameButCase, IsSpace;
      AlikeTail(s, t, 1);
      AlikeLStrip(s[1..], t[1..]);
    }
  }

  lemma {:induction false} AlikeRStrip(s: string, t: string)
    requires Alike(s, t)
    ensures Alike(RStrip(s), RStrip(t))
  {
    if s != "" {
      var n := |s| - 1;
      assert SameButCase(s[n], t[n]);
      CaseOfDigit(s[n], t[n]);
      hide SameButCase, IsSpace;
      AlikeHead(s, t, n);
      AlikeRStrip(s[..n], t[..n]);
    }
  }

  lemma AlikeUnsigned(u: string, v: string, base: nat)
    requires Alike(u, v)
    ensures PyIntUnsigned(u, base) == PyIntUnsigned(v, base)
  {
    hide Value, AreDigits, Alike;
    if |u| >= 2 && |v| >= 2 {
      MarkStays(u, v, 0, '0');
      MarkStays(u, v, 1, 'x');
      MarkStays(u, v, 1, 'X');
      AlikeTail(u, v, 2);
      AlikeValue(u[2..], v[2..], base);
      AlikeDigits(u[2..], v[2..], base);
    }
    SameLength(u, v);
    AlikeValue(u, v, base);
    AlikeDigits(u, v, base);
  }

  lemma SameLength(s: string, t: string)
    requires Alike(s, t)
    ensures |s| == |t|
  {
  }

  lemma AlikeBody(s: string, t: string, base: nat)
    requires Alike(s, t)
    ensures PyIntBody(s, base) == PyIntBody(t, base)
  {
    hide PyIntUnsigned, Alike;
    SameLength(s, t);
    if s != "" {
      MarkStays(s, t, 0, '+');
      MarkStays(s, t, 0, '-');
      AlikeTail(s, t, 1);
      AlikeUnsigned(s[1..], t[1..], base);
    }
    AlikeUnsigned(s, t, base);
  }

  /** int() reads the same from both. */
  lemma AlikeInt(s: string, t: string, base: nat)
    requires Alike(s, t)
    ensures PyInt(s, base) == PyInt(t, base)
  {
    hide PyInt, PyIntBody, Alike, LStrip, RStrip;
    PyIntIsBody(s, base);
    PyIntIsBody(t, base);
    AlikeRStrip(s, t);
    AlikeLStrip(RStrip(s), RStrip(t));
    AlikeBody(Stripped(s), Stripped(t), base);
  }

  // ---------------------------------------------------------------- texts without a colon

  lemma AlikeFind(s: string, t: string, c: char)
    requires Alike(s, t) && !IsLetter(c)
    ensures Find(s, c) == Find(t, c)
  {
    hide Alike, Find;
    SameLength(s, t);
    forall k | 0 <= k < |s| ensures s[k] == c <==> t[k] == c {
      MarkStays(s, t, k, c);
    }
  }

  lemma AlikeHas(s: string, t: string, c: char)
    requires Alike(s, t) && !IsLetter(c)
    ensures c in s <==> c in t
  {
    hide Alike;
    SameLength(s, t);
    forall k | 0 <= k < |s| ensures s[k] == c <==> t[k] == c {
      MarkStays(s, t, k, c);
    }
  }

  lemma AlikeOne(s: string, t: string)
    requires Alike(s, t)
    ensures AllAlike([s], [t])
  {
  }

  lemma SplitStep(s: string, c: char)
    ensures var i := Find(s, c); Split(s, c) == if i < 0 then [s] else [s[..i]] + Split(s[i + 1..], c)
  {
  }

  lemma {:induction false} AlikeSplit(s: string, t: string, c: char)
    requires Alike(s, t) && !IsLetter(c)
    ensures AllAlike(Split(s, c), Split(t, c))
    decreases |s|
  {
    hide Alike, AllAlike, Find, Split, IsLetter;
    AlikeFind(s, t, c);
    SplitStep(s, c);
    SplitStep(t, c);
    SameLength(s, t);
    var i := Find(s, c);
    if i >= 0 {
      AlikeHead(s, t, i);
      AlikeTail(s, t, i + 1);
      AlikeSplit(s[i + 1..], t[i + 1..], c);
      AlikeOne(s[..i], t[..i]);
      AlikeAppend([s[..i]], [t[..i]], Split(s[i + 1..], c), Split(t[i + 1..], c));
    } else {
      AlikeOne(s, t);
    }
  }

  lemma {:induction false} AlikeInts(xs: seq<string>, ys: seq<string>, base: nat)
    requires AllAlike(xs, ys)
    ensures Ints(xs, base) == Ints(ys, base)
  {
    hide PyInt, Alike;
    if xs != [] {
      AlikeInt(xs[0], ys[0], base);
      AlikeInts(xs[1..], ys[1..], base);
    }
  }

  lemma SameCount(xs: seq<string>, ys: seq<string>)
    requires AllAlike(xs, ys)
    ensures |xs| == |ys|
  {
  }

  lemma Itself(x: string)
    ensures Alike(x, x)
  {
  }

  lemma ItselfAll(xs: seq<string>)
    ensures AllAlike(xs, xs)
  {
    forall i | 0 <= i < |xs| ensures Alike(xs[i], xs[i]) {
      Itself(xs[i]);
    }
  }

  lemma AlikeAppend(xs: seq<string>, ys: seq<string>, us: seq<string>, vs: seq<string>)
    requires AllAlike(xs, ys) && AllAlike(us, vs)
    ensures AllAlike(xs + us, ys + vs)
  {
    hide Alike;
  }

  lemma AlikePart(xs: seq<string>, ys: seq<string>, i: nat, j: nat)
    requires AllAlike(xs, ys) && i <= j <= |xs|
    ensures AllAlike(xs[i..j], ys[i..j])
  {
    hide Alike;
  }

  lemma AlikePrefix(s: string, t: string)
    requires Alike(s, t)
    ensures StartsWith(s, "0x") <==> StartsWith(t, "0x")
    ensures StartsWith(s, "::") <==> StartsWith(t, "::")
  {
    hide Alike;
    SameLength(s, t);
    if |s| >= 2 {
      MarkStays(s, t, 0, '0');
      MarkStays(s, t, 1, 'x');
      MarkStays(s, t, 0, ':');
      MarkStays(s, t, 1, ':');
      assert forall x: string :: |x| >= 2 ==> x[..2] == [x[0]] + [x[1]];
    }
  }

  lemma AlikeFour(xs: seq<string>, ys: seq<string>)
    requires AllAlike(xs, ys) && |xs| <= 4
    ensures AllAlike(FourParts(xs), FourParts(ys))
  {
    hide Alike;
    var none := seq(4 - |xs|, _ => "0");
    ItselfAll(none);
    AlikeAppend(xs, ys, none, none);
    assert FourParts(xs) == xs + none && FourParts(ys) == ys + none;
  }

  lemma AlikeDotted(s: string, t: string)
    requires Alike(s, t)
    ensures ParseDotted(s) == ParseDotted(t)
  {
    var xs, ys := Split(s, '.'), Split(t, '.');
    AlikeSplit(s, t, '.');
    SameCount(xs, ys);
    hide AllAlike, Split, Ints, FourParts, FromBytes;
    if |xs| <= 4 {
      AlikeFour(xs, ys);
      AlikeInts(FourParts(xs), FourParts(ys), 10);
    }
  }

  lemma AlikePlain(s: string, t: string)
    requires Alike(s, t)
    ensures ParsePlain(s) == ParsePlain(t)
  {
    hide Alike, PyInt, ParseDotted;
    SameLength(s, t);
    AlikePrefix(s, t);
    AlikeHas(s, t, '.');
    AlikeInt(s, t, 16);
    AlikeInt(s, t, 10);
    AlikeDotted(s, t);
    if StartsWith(s, "0x") {
      AlikeTail(s, t, 2);
      AlikeInt(s[2..], t[2..], 16);
    }
  }

  // ---------------------------------------------------------------- texts with colons

  ghost predicate TokensAlike(r: Result<Tokens>, q: Result<Tokens>) {
    if r.Raised? then q.Raised? else q.Ok? && r.value.fill == q.value.fill && AllAlike(r.value.items, q.value.items)
  }

  lemma AlikeItem(s: string, t: string, xs: seq<string>, ys: seq<string>)
    requires AllAlike(xs, ys) && Alike(s, t)
    ensures AllAlike(xs + [s], ys + [t])
  {
    hide Alike;
  }

  lemma {:induction false} AlikeScan(s: string, t: string, xs: seq<string>, ys: seq<string>, fill: Option<nat>)
    requires Alike(s, t) && AllAlike(xs, ys)
    ensures TokensAlike(Scan(s, xs, fill), Scan(t, ys, fill))
    decreases |s|
  {
    SameLength(s, t);
    AlikePrefix(s, t);
    AlikeFind(s, t, ':');
    hide Alike, Find, Scan;
    if s == "" {
      ScanNothing(xs, fill);
      ScanNothing(ys, fill);
    } else if StartsWith(s, "::") {
      ScanColons(s, xs, fill);
      ScanColons(t, ys, fill);
      if fill.None? {
        AlikeTail(s, t, 2);
        SameCount(xs, ys);
        AlikeScan(s[2..], t[2..], xs, ys, Some(|xs|));
      }
    } else {
      AlikeScanItem(s, t, xs, ys, fill);
    }
  }

  lemma {:induction false} AlikeScanItem(s: string, t: string, xs: seq<string>, ys: seq<string>, fill: Option<nat>)
    requires Alike(s, t) && AllAlike(xs, ys) && s != "" && !StartsWith(s, "::")
    ensures TokensAlike(Scan(s, xs, fill), Scan(t, ys, fill))
    decreases |s|, 0
  {
    SameLength(s, t);
    AlikePrefix(s, t);
    AlikeFind(s, t, ':');
    hide Alike, Find, Scan, AllAlike;
    ScanUpToColon(s, xs, fill);
    ScanUpToColon(t, ys, fill);
    var pos := Find(s, ':');
    if pos < 0 {
      AlikeItem(s, t, xs, ys);
    } else if pos > 0 {
      AlikeHead(s, t, pos);
      AlikeTail(s, t, pos);
      AlikeTail(s, t, pos + 1);
      AlikePrefix(s[pos..], t[pos..]);
      AlikeItem(s[..pos], t[..pos], xs, ys);
      var k := if StartsWith(s[pos..], "::") then pos else pos + 1;
      if s[k..] != "" {
        AlikeScan(s[k..], t[k..], xs + [s[..pos]], ys + [t[..pos]], fill);
      }
    }
  }

  ghost predicate ItemsAlike(r: Result<seq<string>>, q: Result<seq<string>>) {
    if r.Raised? then q.Raised? else q.Ok? && AllAlike(r.value, q.value)
  }

  lemma AlikeSplitDotted(t: Tokens, u: Tokens)
    requires t.fill == u.fill && AllAlike(t.items, u.items)
    ensures ItemsAlike(SplitDotted(t), SplitDotted(u))
  {
    var n := |t.items|;
    SameCount(t.items, u.items);
    if n > 0 {
      assert Alike(t.items[n - 1], u.items[n - 1]);
      AlikeHas(t.items[n - 1], u.items[n - 1], '.');
      AlikePlain(t.items[n - 1], u.items[n - 1]);
      AlikePart(t.items, u.items, 0, n - 1);
      assert t.items[0..n - 1] == t.items[..n - 1] && u.items[0..n - 1] == u.items[..n - 1];
      hide Alike, AllAlike, ParsePlain, TwoGroups;
      if SplitDotted(t).Ok? && '.' in t.items[n - 1] {
        DotMeansDotted(t.items[n - 1]);
        var groups := TwoGroups(ParsePlain(t.items[n - 1]).value.ip);
        ItselfAll(groups);
        AlikeAppend(t.items[..n - 1], u.items[..n - 1], groups, groups);
      }
    }
  }

  lemma AlikeExpand(xs: seq<string>, ys: seq<string>, fill: Option<nat>)
    requires AllAlike(xs, ys)
    ensures ItemsAlike(Expand(xs, fill), Expand(ys, fill))
  {
    SameCount(xs, ys);
    hide AllAlike;
    if fill.Some? && |xs| < 8 && fill.value <= |xs| {
      var f := fill.value;
      var zeros := seq(8 - |xs|, _ => "0");
      AlikePart(xs, ys, 0, f);
      AlikePart(xs, ys, f, |xs|);
      assert xs[0..f] == xs[..f] && ys[0..f] == ys[..f];
      ItselfAll(zeros);
      AlikeAppend(xs[..f], ys[..f], zeros, zeros);
      AlikeAppend(xs[..f] + zeros, ys[..f] + zeros, xs[f..], ys[f..]);
      assert Expand(ys, fill) == Ok(ys[..f] + zeros + ys[f..]);
    }
  }

  lemma {:induction false} AlikeHextets(xs: seq<string>, ys: seq<string>)
    requires AllAlike(xs, ys)
    ensures Hextets(xs) == Hextets(ys)
    decreases |xs|
  {
    hide PyInt, Alike;
    if xs != [] {
      var n := |xs| - 1;
      AlikeHextets(xs[..n], ys[..n]);
      AlikeInt(xs[n], ys[n], 16);
    }
  }

  lemma AlikeIPv6(s: string, t: string)
    requires Alike(s, t)
    ensures ParseIPv6(s) == ParseIPv6(t)
  {
    ItselfAll([]);
    hide Alike, AllAlike, Scan, SplitDotted, Expand, Hextets, Number;
    AlikeScan(s, t, [], [], None);
    if Scan(s, [], None).Ok? {
      var x, y := Scan(s, [], None).value, Scan(t, [], None).value;
      AlikeSplitDotted(x, y);
      if SplitDotted(x).Ok? {
        AlikeExpand(SplitDotted(x).value, SplitDotted(y).value, x.fill);
        if Expand(SplitDotted(x).value, x.fill).Ok? {
          AlikeHextets(Expand(SplitDotted(x).value, x.fill).value, Expand(SplitDotted(y).value, x.fill).value);
        }
      }
    }
  }

  /** Whether hexadecimal digits are in lower or in upper case makes no difference to any address. */
  lemma CaseDoesNotMatter(s: string, t: string)
    requires Alike(s, t)
    ensures ParseAddress(s) == ParseAddress(t)
  {
    hide Alike, ParsePlain, ParseIPv6;
    AlikePrefix(s, t);
    AlikeHas(s, t, ':');
    AlikePlain(s, t);
    AlikeIPv6(s, t);
  }
}
