/** The pieces of Python text handling that opsbro/misc/IPy.py is written with. */
module IpText {
  import opened Common

  predicate StartsWith(s: string, prefix: string) {
    |prefix| <= |s| && s[..|prefix|] == prefix
  }

  // ---------------------------------------------------------------- find, split, join

  /** The first position of `c`, or -1. */
  function Find(s: string, c: char): (i: int)
    ensures -1 <= i < |s|
    ensures forall k :: 0 <= k < (if i < 0 then |s| else i) ==> s[k] != c
    ensures i >= 0 ==> s[i] == c
  {
    if s == "" then -1
    else if s[0] == c then 0
    else
      var i := Find(s[1..], c);
      assert forall k :: 1 <= k < |s| ==> s[k] == s[1..][k - 1];
      if i < 0 then -1 else i + 1
  }

  lemma FindIs(s: string, c: char, i: nat)
    requires i < |s| && s[i] == c && forall k :: 0 <= k < i ==> s[k] != c
    ensures Find(s, c) == i
  {
  }

  function Split(s: string, c: char): (parts: seq<string>)
    ensures |parts| >= 1
    decreases |s|
  {
    var i := Find(s, c);
    if i < 0 then [s] else [s[..i]] + Split(s[i + 1..], c)
  }

  function Join(parts: seq<string>, c: char): string {
    if parts == [] then ""
    else if |parts| == 1 then parts[0]
    else parts[0] + [c] + Join(parts[1..], c)
  }

  lemma {:induction false} SplitJoin(parts: seq<string>, c: char)
    requires parts != [] && forall p :: p in parts ==> c !in p
    ensures Split(Join(parts, c), c) == parts
  {
    var text := Join(parts, c);
    assert parts[0] in parts;
    if |parts| == 1 {
      assert parts == [text];
    } else {
      var i := |parts[0]|;
      assert text[i] == c && text[..i] == parts[0];
      FindIs(text, c, i);
      assert text[i + 1..] == Join(parts[1..], c);
      SplitJoin(parts[1..], c);
    }
  }

  lemma {:induction false} JoinAppend(xs: seq<string>, ys: seq<string>, c: char)
    requires xs != [] && ys != []
    ensures Join(xs + ys, c) == Join(xs, c) + [c] + Join(ys, c)
  {
    if |xs| == 1 {
      assert (xs + ys)[1..] == ys;
    } else {
      assert (xs + ys)[1..] == xs[1..] + ys;
      JoinAppend(xs[1..], ys, c);
      assert xs[0] + [c] + (Join(xs[1..], c) + [c] + Join(ys, c)) == xs[0] + [c] + Join(xs[1..], c) + [c] + Join(ys, c);
    }
  }

  lemma {:induction false} JoinHasNo(parts: seq<string>, c: char, ch: char)
    requires ch != c && forall x :: x in parts ==> ch !in x
    ensures ch !in Join(parts, c)
  {
    if |parts| > 0 {
      assert parts[0] in parts;
    }
    if |parts| > 1 {
      JoinHasNo(parts[1..], c, ch);
    }
  }

  /** What is in the text is in one of the parts, and the parts have nothing else. */
  lemma {:induction false} SplitKeeps(s: string, c: char, ch: char)
    ensures ch != c && ch in s ==> exists i :: 0 <= i < |Split(s, c)| && ch in Split(s, c)[i]
    ensures ch == c || ch !in s ==> forall i :: 0 <= i < |Split(s, c)| ==> ch !in Split(s, c)[i]
    decreases |s|
  {
    var i := Find(s, c);
    if i >= 0 {
      var rest := s[i + 1..];
      SplitKeeps(rest, c, ch);
      assert s == s[..i] + [c] + rest;
      assert Split(s, c)[0] == s[..i] && Split(s, c)[1..] == Split(rest, c);
      if ch != c && ch in s && ch !in s[..i] {
        var k :| 0 <= k < |Split(rest, c)| && ch in Split(rest, c)[k];
        assert ch in Split(s, c)[k + 1];
      }
    } else {
      assert Split(s, c)[0] == s;
    }
  }

  // ---------------------------------------------------------------- numerals

  /** The value of a digit character, 99 for any other character. */
  function DigitValue(ch: char): nat {
    if '0' <= ch <= '9' then ch as int - '0' as int
    else if 'a' <= ch <= 'f' then ch as int - 'a' as int + 10
    else if 'A' <= ch <= 'F' then ch as int - 'A' as int + 10
    else 99
  }

  function Digit(d: nat): (ch: char)
    requires d < 16
    ensures DigitValue(ch) == d
  {
    "0123456789abcdef"[d]
  }

  predicate AreDigits(s: string, base: nat) {
    forall i :: 0 <= i < |s| ==> DigitValue(s[i]) < base
  }

  function Value(s: string, base: nat): nat {
    if s == "" then 0 else Value(s[..|s| - 1], base) * base + DigitValue(s[|s| - 1])
  }

  /** str(n) for base 10, and what follows the 0x of hex(n) for base 16. */
  function Show(n: nat, base: nat): (s: string)
    requires 2 <= base <= 16
    ensures s != "" && AreDigits(s, base)
    decreases n
  {
    if n < base then [Digit(n)] else Show(n / base, base) + [Digit(n % base)]
  }

  lemma DivMod(n: nat, base: nat)
    requires base > 0
    ensures (n / base) * base + n % base == n
  {
  }

  lemma {:induction false} ShowValue(n: nat, base: nat)
    requires 2 <= base <= 16
    ensures Value(Show(n, base), base) == n
    decreases n
  {
    if n < base {
      assert Show(n, base)[..0] == "";
    } else {
      ShowValue(n / base, base);
      var s := Show(n, base);
      assert s[..|s| - 1] == Show(n / base, base) && s[|s| - 1] == Digit(n % base);
      DivMod(n, base);
    }
  }

  function Power(base: nat, k: nat): nat {
    if k == 0 then 1 else base * Power(base, k - 1)
  }

  lemma Distribute(v: nat, p: nat, w: nat, base: nat)
    ensures (v * p + w) * base == v * (base * p) + w * base
  {
    assert (v * p) * base == v * (base * p);
  }

  lemma ValuePush(s: string, ch: char, base: nat)
    ensures Value(s + [ch], base) == Value(s, base) * base + DigitValue(ch)
  {
    assert (s + [ch])[..|s + [ch]| - 1] == s;
  }

  lemma {:induction false} ValueAppend(a: string, b: string, base: nat)
    ensures Value(a + b, base) == Value(a, base) * Power(base, |b|) + Value(b, base)
  {
    if b == "" {
      assert a + b == a;
    } else {
      var b', ch := b[..|b| - 1], b[|b| - 1];
      ValueAppend(a, b', base);
      assert a + b == (a + b') + [ch] && b == b' + [ch];
      ValuePush(a + b', ch, base);
      ValuePush(b', ch, base);
      Distribute(Value(a, base), Power(base, |b'|), Value(b', base), base);
      assert Power(base, |b|) == base * Power(base, |b'|);
      hide Value, Power, DigitValue;
    }
  }

  lemma Below(v: nat, p: nat, d: nat, base: nat)
    requires v < p && d < base
    ensures v * base + d < base * p
  {
    assert v * base <= (p - 1) * base;
  }

  lemma {:induction false} ValueBelow(s: string, base: nat)
    requires AreDigits(s, base)
    ensures Value(s, base) < Power(base, |s|)
  {
    if s != "" {
      var s' := s[..|s| - 1];
      ValueBelow(s', base);
      Below(Value(s', base), Power(base, |s'|), DigitValue(s[|s| - 1]), base);
    }
  }

  lemma MulMono(a: nat, b: nat, c: nat)
    ensures a >= b ==> a * c >= b * c
  {
    if a >= b {
      assert a * c == b * c + (a - b) * c;
    }
  }

  lemma QuotientBelow(n: nat, base: nat, p: nat)
    requires base > 0 && n < base * p
    ensures n / base < p
  {
    DivMod(n, base);
    MulMono(n / base, p, base);
  }

  lemma PowerStep(base: nat, k: nat)
    requires k >= 1
    ensures Power(base, k) == base * Power(base, k - 1) && (k == 1 ==> Power(base, k) == base)
  {
  }

  /** A numeral has as few digits as its value allows: below base^k there are at most k of them. */
  lemma {:induction false} ShowLength(n: nat, base: nat, k: nat)
    requires 2 <= base <= 16 && k >= 1 && n < Power(base, k)
    ensures |Show(n, base)| <= k
    decreases k
  {
    hide Power;
    PowerStep(base, k);
    if n >= base {
      QuotientBelow(n, base, Power(base, k - 1));
      ShowLength(n / base, base, k - 1);
    }
  }

  function Zeros(k: nat): (s: string)
    ensures |s| == k && forall i :: 0 <= i < k ==> s[i] == '0'
  {
    seq(k, _ => '0')
  }

  /** Pad with zeros on the left up to `width` characters. */
  function ZFill(s: string, width: nat): string {
    if |s| >= width then s else Zeros(width - |s|) + s
  }

  lemma {:induction false} ValueOfZeros(k: nat, base: nat)
    ensures Value(Zeros(k), base) == 0
  {
    if k > 0 {
      assert Zeros(k)[..k - 1] == Zeros(k - 1);
      ValueOfZeros(k - 1, base);
    }
  }

  lemma ZFillValue(n: nat, base: nat, width: nat)
    requires 2 <= base <= 16 && width >= 1 && n < Power(base, width)
    ensures var s := ZFill(Show(n, base), width);
            |s| == width && AreDigits(s, base) && Value(s, base) == n
  {
    hide Show, Value, Power;
    ShowLength(n, base, width);
    ShowValue(n, base);
    var pad := width - |Show(n, base)|;
    ValueOfZeros(pad, base);
    ValueAppend(Zeros(pad), Show(n, base), base);
    assert ZFill(Show(n, base), width) == Zeros(pad) + Show(n, base);
  }

  // ---------------------------------------------------------------- int()

  predicate IsSpace(ch: char) {
    ch in {' ', '\t', '\n', '\r'} || 11 <= ch as int <= 12 || 28 <= ch as int <= 31
  }

  function LStrip(s: string): (t: string)
    ensures |t| <= |s|
  {
    if s != "" && IsSpace(s[0]) then LStrip(s[1..]) else s
  }

  function RStrip(s: string): (t: string)
    ensures |t| <= |s|
  {
    if s != "" && IsSpace(s[|s| - 1]) then RStrip(s[..|s| - 1]) else s
  }

  /** int(s, base): blanks around, a sign, for base 16 an optional 0x, then digits; anything else raises. */
  function PyInt(s: string, base: nat): Result<int> {
    var t := LStrip(RStrip(s));
    var signed := t != "" && t[0] in {'+', '-'};
    var u := if signed then t[1..] else t;
    var v := if base == 16 && |u| >= 2 && u[0] == '0' && u[1] in {'x', 'X'} then u[2..] else u;
    if v == "" || !AreDigits(v, base) then Raised
    else if signed && t[0] == '-' then Ok(0 - Value(v, base) as int)
    else Ok(Value(v, base))
  }

  lemma PyIntOfDigits(s: string, base: nat)
    requires base <= 16 && s != "" && AreDigits(s, base)
    ensures PyInt(s, base) == Ok(Value(s, base))
  {
    assert DigitValue(s[0]) < base && DigitValue(s[|s| - 1]) < base;
    assert RStrip(s) == s && LStrip(s) == s;
    assert |s| >= 2 ==> DigitValue(s[1]) < base;
  }

  /** int() reads back what str() and hex() write. */
  lemma PyIntOfShow(n: nat, base: nat)
    requires 2 <= base <= 16
    ensures PyInt(Show(n, base), base) == Ok(n)
  {
    PyIntOfDigits(Show(n, base), base);
    ShowValue(n, base);
  }

  lemma {:induction false} StripKeeps(s: string, ch: char)
    requires !IsSpace(ch) && ch in s
    ensures ch in LStrip(s) && ch in RStrip(s)
  {
    if IsSpace(s[0]) {
      assert s == [s[0]] + s[1..];
      StripKeeps(s[1..], ch);
    }
    if IsSpace(s[|s| - 1]) {
      assert s == s[..|s| - 1] + [s[|s| - 1]];
      StripKeeps(s[..|s| - 1], ch);
    }
  }

  /** A character that int() allows nowhere. */
  predicate IsForeign(ch: char) {
    DigitValue(ch) == 99 && !IsSpace(ch) && ch !in {'+', '-', 'x', 'X'}
  }

  lemma ForeignIsNoDigit(u: string, ch: char, base: nat)
    requires base <= 16 && IsForeign(ch) && ch in u
    ensures !AreDigits(u, base)
  {
    var i :| 0 <= i < |u| && u[i] == ch;
    assert DigitValue(u[i]) == 99;
  }

  lemma InTail(u: string, k: nat, ch: char)
    requires k <= |u| && ch in u && ch !in u[..k]
    ensures ch in u[k..]
  {
    assert u == u[..k] + u[k..];
  }

  /** No numeral contains a foreign character. */
  lemma ForeignRaises(s: string, ch: char, base: nat)
    requires base <= 16 && IsForeign(ch) && ch in s
    ensures PyInt(s, base).Raised?
  {
    assert ch != '0';
    hide AreDigits, LStrip, RStrip, Value, DigitValue;
    StripKeeps(s, ch);
    StripKeeps(RStrip(s), ch);
    var t := LStrip(RStrip(s));
    var signed := t[0] in {'+', '-'};
    var u := if signed then t[1..] else t;
    if signed { InTail(t, 1, ch); }
    ForeignIsNoDigit(u, ch, base);
    if |u| >= 2 && u[0] == '0' && u[1] in {'x', 'X'} {
      InTail(u, 2, ch);
      ForeignIsNoDigit(u[2..], ch, base);
    }
  }

  lemma {:induction false} StripHasNo(s: string, ch: char)
    requires ch !in s
    ensures ch !in LStrip(s) && ch !in RStrip(s)
  {
    if s != "" {
      StripHasNo(s[1..], ch);
      StripHasNo(s[..|s| - 1], ch);
    }
  }

  /** The text int() looks at once blanks are gone. */
  function Stripped(s: string): string {
    LStrip(RStrip(s))
  }

  predicate HasNonzeroDigit(s: string) {
    exists i :: 0 <= i < |s| && 1 <= DigitValue(s[i]) < 99
  }

  lemma NonzeroSplit(a: string, b: string)
    ensures HasNonzeroDigit(a + b) <==> HasNonzeroDigit(a) || HasNonzeroDigit(b)
  {
    var s := a + b;
    if i :| 0 <= i < |a| && 1 <= DigitValue(a[i]) < 99 {
      assert s[i] == a[i];
    }
    if i :| 0 <= i < |b| && 1 <= DigitValue(b[i]) < 99 {
      assert s[|a| + i] == b[i];
    }
    if i :| 0 <= i < |s| && 1 <= DigitValue(s[i]) < 99 {
      assert s[i] == if i < |a| then a[i] else b[i - |a|];
    }
  }

  lemma OneIsNonzero(ch: char)
    ensures HasNonzeroDigit([ch]) <==> 1 <= DigitValue(ch) < 99
  {
    assert [ch][0] == ch;
  }

  lemma SpaceIsNoDigit(ch: char)
    requires IsSpace(ch)
    ensures !HasNonzeroDigit([ch])
  {
    assert DigitValue(ch) == 99;
  }

  lemma {:induction false} StripKeepsDigits(s: string)
    ensures HasNonzeroDigit(LStrip(s)) <==> HasNonzeroDigit(s)
    ensures HasNonzeroDigit(RStrip(s)) <==> HasNonzeroDigit(s)
  {
    hide HasNonzeroDigit, IsSpace;
    if s != "" {
      var n := |s| - 1;
      if IsSpace(s[0]) {
        StripKeepsDigits(s[1..]);
        SpaceIsNoDigit(s[0]);
        NonzeroSplit([s[0]], s[1..]);
        assert s == [s[0]] + s[1..];
      }
      if IsSpace(s[n]) {
        StripKeepsDigits(s[..n]);
        SpaceIsNoDigit(s[n]);
        NonzeroSplit(s[..n], [s[n]]);
        assert s == s[..n] + [s[n]];
      }
    }
  }

  lemma SumIsZero(v: nat, base: nat, d: nat)
    requires base >= 1
    ensures v * base + d == 0 <==> v == 0 && d == 0
  {
    MulMono(base, 1, v);
  }

  /** A numeral stands for zero exactly when it has no other digit. */
  lemma {:induction false} ValueIsZero(v: string, base: nat)
    requires 1 <= base <= 16 && AreDigits(v, base)
    ensures Value(v, base) == 0 <==> !HasNonzeroDigit(v)
  {
    if v != "" {
      var front, last := v[..|v| - 1], v[|v| - 1];
      assert v == front + [last] && DigitValue(last) < base;
      assert AreDigits(front, base);
      hide *;
      ValueIsZero(front, base);
      NonzeroSplit(front, [last]);
      OneIsNonzero(last);
      ValuePush(front, last, base);
      SumIsZero(Value(front, base), base, DigitValue(last));
    } else {
      assert !HasNonzeroDigit(v);
    }
  }

  /** The digits of a numeral: what is left without blanks, sign and 0x. */
  lemma PyIntParts(s: string, base: nat) returns (v: string)
    requires 1 <= base <= 16 && PyInt(s, base).Ok?
    ensures AreDigits(v, base) && |v| <= |s| && (HasNonzeroDigit(v) <==> HasNonzeroDigit(s))
    ensures PyInt(s, base) == Ok(if StartsWith(Stripped(s), "-") then 0 - Value(v, base) as int else Value(v, base))
  {
    hide AreDigits, Value, HasNonzeroDigit, LStrip, RStrip;
    StripKeepsDigits(s);
    StripKeepsDigits(RStrip(s));
    var t := Stripped(s);
    var signed := t != "" && t[0] in {'+', '-'};
    var u := if signed then t[1..] else t;
    v := if base == 16 && |u| >= 2 && u[0] == '0' && u[1] in {'x', 'X'} then u[2..] else u;
    if signed {
      assert t == [t[0]] + u;
      NonzeroSplit([t[0]], u);
      OneIsNonzero(t[0]);
    }
    if v != u {
      assert u == ([u[0]] + [u[1]]) + v;
      NonzeroSplit([u[0]] + [u[1]], v);
      NonzeroSplit([u[0]], [u[1]]);
      OneIsNonzero(u[0]);
      OneIsNonzero(u[1]);
    }
    assert StartsWith(t, "-") <==> t != "" && t[0] == '-';
  }

  /** The sign of what int() reads: negative exactly when the text begins with a minus sign, blanks aside, and has
      a digit other than zero; and never more than the digits allow. */
  lemma PyIntSign(s: string, base: nat)
    requires 1 <= base <= 16 && PyInt(s, base).Ok?
    ensures PyInt(s, base).value < 0 <==> StartsWith(Stripped(s), "-") && HasNonzeroDigit(s)
    ensures PyInt(s, base).value < Power(base, |s|)
  {
    hide PyInt, Power, Value, HasNonzeroDigit, Stripped, AreDigits;
    var v := PyIntParts(s, base);
    ValueIsZero(v, base);
    ValueBelow(v, base);
    PowerMono(base, |v|, |s|);
  }

  lemma {:induction false} PowerMono(base: nat, i: nat, j: nat)
    requires base >= 1 && i <= j
    ensures 1 <= Power(base, i) <= Power(base, j)
    decreases j
  {
    if i < j {
      PowerMono(base, i, j - 1);
      MulMono(base, 1, Power(base, j - 1));
    } else if i > 0 {
      PowerMono(base, i - 1, j - 1);
      MulMono(base, 1, Power(base, j - 1));
    }
  }

  // ---------------------------------------------------------------- which texts int() reads

  /** The digits, in either case, and no other characters. */
  lemma Digits()
    ensures forall d: nat :: d < 16 ==> DigitValue("0123456789abcdef"[d]) == d && DigitValue("0123456789ABCDEF"[d]) == d
    ensures forall ch :: ch !in "0123456789abcdefABCDEF" ==> DigitValue(ch) == 99
    ensures forall d: nat :: d < 16 ==> Digit(d) == "0123456789abcdef"[d]
  {
  }

  /** The blanks are those that str.strip() takes off: tab to carriage return, and 28 to the blank itself. */
  lemma Spaces(ch: char)
    ensures IsSpace(ch) <==> 9 <= ch as int <= 13 || 28 <= ch as int <= 32
  {
    assert ' ' as int == 32 && '\t' as int == 9 && '\n' as int == 10 && '\r' as int == 13;
  }

  predicate AllSpaces(s: string) {
    forall i :: 0 <= i < |s| ==> IsSpace(s[i])
  }

  /** A numeral as it may be written: blanks, a sign, for base 16 a mark, digits, blanks. */
  datatype Numeral = Numeral(left: string, sign: string, mark: string, digits: string, right: string)

  predicate IsSign(sign: string) {
    |sign| == 1 && sign[0] in {'+', '-'}
  }

  predicate IsMark(mark: string) {
    |mark| == 2 && mark[0] == '0' && mark[1] in {'x', 'X'}
  }

  ghost predicate IsNumeral(n: Numeral, base: nat) {
    && AllSpaces(n.left) && AllSpaces(n.right)
    && (n.sign == "" || IsSign(n.sign))
    && (n.mark == "" || (base == 16 && IsMark(n.mark)))
    && n.digits != "" && AreDigits(n.digits, base)
  }

  function NumeralText(n: Numeral): string {
    n.left + (n.sign + (n.mark + n.digits)) + n.right
  }

  function NumeralValue(n: Numeral, base: nat): int {
    if n.sign != "" && n.sign[0] == '-' then 0 - Value(n.digits, base) as int else Value(n.digits, base)
  }

  lemma {:induction false} LStripIs(left: string, s: string)
    requires AllSpaces(left) && (s == "" || !IsSpace(s[0]))
    ensures LStrip(left + s) == s
  {
    if left != "" {
      assert (left + s)[1..] == left[1..] + s;
      LStripIs(left[1..], s);
    } else {
      assert left + s == s;
    }
  }

  lemma {:induction false} RStripIs(s: string, right: string)
    requires AllSpaces(right) && (s == "" || !IsSpace(s[|s| - 1]))
    ensures RStrip(s + right) == s
  {
    var all := s + right;
    if right != "" {
      assert all[..|all| - 1] == s + right[..|right| - 1];
      RStripIs(s, right[..|right| - 1]);
    } else {
      assert all == s;
    }
  }

  lemma {:induction false} LStripParts(s: string) returns (left: string)
    ensures AllSpaces(left) && s == left + LStrip(s)
  {
    if s != "" && IsSpace(s[0]) {
      var rest := LStripParts(s[1..]);
      left := [s[0]] + rest;
      assert s == [s[0]] + (rest + LStrip(s));
    } else {
      left := "";
    }
  }

  lemma {:induction false} RStripParts(s: string) returns (right: string)
    ensures AllSpaces(right) && s == RStrip(s) + right
  {
    var n := |s| - 1;
    if s != "" && IsSpace(s[n]) {
      var rest := RStripParts(s[..n]);
      right := rest + [s[n]];
      assert s == RStrip(s) + rest + [s[n]];
    } else {
      right := "";
    }
  }

  predicate HasMark(u: string, base: nat) {
    base == 16 && |u| >= 2 && u[0] == '0' && u[1] in {'x', 'X'}
  }

  /** What int() makes of a text without blanks around it and without a sign. */
  function PyIntUnsigned(u: string, base: nat): Result<nat> {
    var v := if HasMark(u, base) then u[2..] else u;
    if v == "" || !AreDigits(v, base) then Raised else Ok(Value(v, base))
  }

  /** What int() makes of a text without blanks around it. */
  function PyIntBody(t: string, base: nat): Result<int> {
    var signed := t != "" && t[0] in {'+', '-'};
    var n := PyIntUnsigned(if signed then t[1..] else t, base);
    if n.Raised? then Raised else Ok(if signed && t[0] == '-' then 0 - n.value as int else n.value)
  }

  lemma PyIntIsBody(s: string, base: nat)
    ensures PyInt(s, base) == PyIntBody(Stripped(s), base)
  {
    hide Value, AreDigits, LStrip, RStrip;
  }

  lemma DigitAt(digits: string, i: nat, base: nat)
    requires AreDigits(digits, base) && i < |digits| && base <= 16
    ensures DigitValue(digits[i]) < base && digits[i] !in {'x', 'X'}
  {
  }

  lemma UnsignedMarked(mark: string, digits: string)
    requires IsMark(mark) && digits != "" && AreDigits(digits, 16)
    ensures PyIntUnsigned(mark + digits, 16) == Ok(Value(digits, 16))
    ensures DigitValue((mark + digits)[0]) < 16
  {
    hide Value, AreDigits;
    var u := mark + digits;
    assert u[2..] == digits && u[0] == mark[0] && u[1] == mark[1];
  }

  lemma UnsignedOfDigits(mark: string, digits: string, base: nat)
    requires base <= 16 && (mark == "" || (base == 16 && IsMark(mark))) && digits != "" && AreDigits(digits, base)
    ensures PyIntUnsigned(mark + digits, base) == Ok(Value(digits, base))
    ensures DigitValue((mark + digits)[0]) < base && DigitValue((mark + digits)[|mark + digits| - 1]) < base
  {
    hide Value, AreDigits, DigitValue;
    var u := mark + digits;
    DigitAt(digits, 0, base);
    DigitAt(digits, |digits| - 1, base);
    assert u[|u| - 1] == digits[|digits| - 1];
    if mark == "" {
      assert u == digits;
      if |u| >= 2 {
        DigitAt(digits, 1, base);
      }
    } else {
      UnsignedMarked(mark, digits);
    }
  }

  lemma DigitsOfUnsigned(u: string, base: nat) returns (mark: string, digits: string)
    requires PyIntUnsigned(u, base).Ok?
    ensures (mark == "" || (base == 16 && IsMark(mark))) && digits != "" && AreDigits(digits, base)
    ensures mark + digits == u
    ensures PyIntUnsigned(u, base) == Ok(Value(digits, base))
  {
    hide Value;
    mark, digits := "", u;
    if HasMark(u, base) {
      mark, digits := u[..2], u[2..];
    }
  }

  lemma DigitIsPlain(ch: char)
    requires DigitValue(ch) < 16
    ensures !IsSpace(ch) && ch !in {'+', '-'}
  {
  }

  lemma SignIsNoSpace(sign: string)
    requires IsSign(sign)
    ensures !IsSpace(sign[0])
  {
  }

  lemma SignedBody(sign: string, u: string, base: nat)
    requires IsSign(sign) && u != "" && PyIntUnsigned(u, base).Ok?
    ensures (sign + u)[0] == sign[0] && (sign + u)[|u|] == u[|u| - 1]
    ensures PyIntBody(sign + u, base)
         == Ok(if sign[0] == '-' then 0 - PyIntUnsigned(u, base).value as int else PyIntUnsigned(u, base).value)
  {
    hide PyIntUnsigned;
    assert (sign + u)[1..] == u;
  }

  lemma UnsignedBody(u: string, base: nat)
    requires u != "" && u[0] !in {'+', '-'} && PyIntUnsigned(u, base).Ok?
    ensures "" + u == u && PyIntBody(u, base) == Ok(PyIntUnsigned(u, base).value)
  {
    hide PyIntUnsigned;
  }

  lemma BodyOfNumeral(n: Numeral, base: nat)
    requires base <= 16 && IsNumeral(n, base)
    ensures PyIntBody(n.sign + (n.mark + n.digits), base) == Ok(NumeralValue(n, base))
    ensures var t := n.sign + (n.mark + n.digits); t != "" && !IsSpace(t[0]) && !IsSpace(t[|t| - 1])
  {
    hide Value, AreDigits, AllSpaces, PyIntUnsigned, PyIntBody, IsMark, DigitValue, IsSpace;
    UnsignedOfDigits(n.mark, n.digits, base);
    var u := n.mark + n.digits;
    DigitIsPlain(u[0]);
    DigitIsPlain(u[|u| - 1]);
    if n.sign == "" {
      UnsignedBody(u, base);
    } else {
      assert !IsSpace(n.sign[0]) by { SignIsNoSpace(n.sign); }
      SignedBody(n.sign, u, base);
    }
  }

  lemma NumeralOfBody(t: string, base: nat) returns (n: Numeral)
    requires PyIntBody(t, base).Ok?
    ensures IsNumeral(n, base) && n.left == n.right == "" && n.sign + (n.mark + n.digits) == t
    ensures PyIntBody(t, base) == Ok(NumeralValue(n, base))
  {
    hide Value, AreDigits, PyIntUnsigned, IsMark;
    var signed := t != "" && t[0] in {'+', '-'};
    var u := if signed then t[1..] else t;
    var mark, digits := DigitsOfUnsigned(u, base);
    n := Numeral("", if signed then [t[0]] else "", mark, digits, "");
    assert signed ==> t == [t[0]] + u;
  }

  /** int() reads exactly the numerals: blanks around, a sign, a mark when the base is 16, and at least one digit. */
  lemma PyIntReadsNumerals(s: string, base: nat, value: int)
    requires base <= 16
    ensures PyInt(s, base) == Ok(value)
            <==> exists n :: IsNumeral(n, base) && NumeralText(n) == s && NumeralValue(n, base) == value
  {
    PyIntIsBody(s, base);
    hide PyInt, PyIntBody, AreDigits, NumeralValue, IsMark;
    if PyInt(s, base) == Ok(value) {
      var right := RStripParts(s);
      var left := LStripParts(RStrip(s));
      var n := NumeralOfBody(Stripped(s), base);
      var whole := n.(left := left, right := right);
      SameValue(n, whole, base);
      assert NumeralText(whole) == s && IsNumeral(whole, base);
    }
    if n :| IsNumeral(n, base) && NumeralText(n) == s && NumeralValue(n, base) == value {
      BodyOfNumeral(n, base);
      var t := n.sign + (n.mark + n.digits);
      assert (n.left + t)[|n.left + t| - 1] == t[|t| - 1];
      RStripIs(n.left + t, n.right);
      LStripIs(n.left, t);
    }
  }

  lemma SameValue(m: Numeral, n: Numeral, base: nat)
    requires m.sign == n.sign && m.digits == n.digits
    ensures NumeralValue(m, base) == NumeralValue(n, base)
  {
  }

  // ---------------------------------------------------------------- how numerals are written

  /** A numeral is written in lower case and without leading zeros. */
  lemma {:induction false} ShowIsCanonical(n: nat, base: nat)
    requires 2 <= base <= 16
    ensures forall i :: 0 <= i < |Show(n, base)| ==> Show(n, base)[i] in "0123456789abcdef"
    ensures Show(n, base)[0] == '0' <==> n == 0
    ensures n == 0 ==> Show(n, base) == "0"
    decreases n
  {
    hide *;
    ShowStep(n, base);
    if n >= base {
      QuotientIsPositive(n, base);
      ShowIsCanonical(n / base, base);
      DigitIsCanonical(n % base);
    } else {
      DigitIsCanonical(n);
    }
  }

  lemma ShowStep(n: nat, base: nat)
    requires 2 <= base <= 16
    ensures Show(n, base) == if n < base then [Digit(n)] else Show(n / base, base) + [Digit(n % base)]
  {
  }

  lemma QuotientIsPositive(n: nat, base: nat)
    requires 2 <= base <= n
    ensures 0 < n / base < n
  {
    DivMod(n, base);
    MulMono(base, 2, n / base);
  }

  lemma DigitIsCanonical(d: nat)
    requires d < 16
    ensures Digit(d) in "0123456789abcdef" && (Digit(d) == '0' <==> d == 0)
  {
  }
}
