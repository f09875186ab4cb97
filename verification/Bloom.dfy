/** The Bloom filter (spike/bloom_filter.c). */
module Bloom {
  import opened Bits

  /** The size of the filter in bits is 2 to this power. */
  const FILTER_SIZE := 20
  const FILTER_SIZE_BYTES := 0x2_0000
  const NUM_HASHES := 7
  const WORD_BUF_SIZE := 32

  type Byte = n: nat | n < 0x100

  type Hash = n: nat | n < 0x1_0000_0000

  /** The seven hash functions, applied to a word. */
  type Hashes = string -> seq<Hash>

  ghost predicate Seven(hashes: Hashes) {
    forall w :: |hashes(w)| == NUM_HASHES
  }

  /** A 32-bit hash folded into the bits of the filter. */
  function Fold(h: Hash): (f: nat)
    ensures f < 8 * FILTER_SIZE_BYTES
  {
    FoldBelow(h);
    Xor(h / 0x10_0000, h % 0x10_0000)
  }

  lemma FoldBelow(h: Hash)
    ensures Xor(h / 0x10_0000, h % 0x10_0000) < 8 * FILTER_SIZE_BYTES
  {
    hide Xor, Pow2;
    SizeInBits();
    XorBelow(h / 0x10_0000, h % 0x10_0000, FILTER_SIZE);
  }

  lemma SizeInBits()
    ensures Pow2(FILTER_SIZE) == 0x10_0000 == 8 * FILTER_SIZE_BYTES
  {
    hide Pow2;
    Pow2Byte();
    Pow2Add(8, 8);
    Pow2Add(16, 4);
    SmallPowers();
  }

  lemma SmallPowers()
    ensures Pow2(4) == 16
  {
    assert Pow2(2) == 4 && Pow2(4) == 4 * Pow2(2);
  }

  /** Which bit of the filter a hash stands for: bit `k` of the place is set exactly when one, and only one, of the
      bits `k` and `k + 20` of the hash is. */
  lemma FoldedBits(h: Hash, k: nat)
    ensures Bit(Fold(h), k) <==> k < 20 && Bit(h, k) != Bit(h, k + 20)
  {
    hide Xor, Pow2;
    SizeInBits();
    BitOfXor(h / 0x10_0000, h % 0x10_0000, k);
    BitOfParts(h, h / 0x10_0000, h % 0x10_0000, FILTER_SIZE, k);
    if k >= FILTER_SIZE {
      NoBitAbove(Fold(h), FILTER_SIZE, k);
    }
  }

  /** The bits of a number below a power of two are all below its exponent. */
  lemma {:induction false} NoBitAbove(n: nat, j: nat, k: nat)
    requires n < Pow2(j) && k >= j
    ensures !Bit(n, k)
  {
    if j > 0 {
      NoBitAbove(n / 2, j - 1, k - 1);
    } else {
      ZeroHasNoBits(k);
    }
  }

  /** The bits that stand for a word. */
  ghost predicate StandsFor(b: nat, word: string, hashes: Hashes) {
    exists i :: 0 <= i < |hashes(word)| && Fold(hashes(word)[i]) == b
  }

  predicate IsSet(filter: seq<Byte>, b: nat)
    requires |filter| == FILTER_SIZE_BYTES && b < 8 * FILTER_SIZE_BYTES
  {
    Bit(filter[b / 8], b % 8)
  }

  lemma ByteOr(byte: Byte, k: nat)
    requires k < 8
    ensures Or(byte, Pow2(k)) < 0x100
    ensures forall j :: 0 <= j < 8 ==> (Bit(Or(byte, Pow2(k)), j) <==> Bit(byte, j) || j == k)
  {
    hide *;
    Pow2Byte();
    Pow2Grows(k, 8);
    OrBelow(byte, Pow2(k), 8);
    forall j | 0 <= j < 8 ensures Bit(Or(byte, Pow2(k)), j) <==> Bit(byte, j) || j == k {
      BitOfOr(byte, Pow2(k), j);
      BitOfPow2(k, j);
    }
  }

  /** Setting a bit sets that bit only. */
  lemma SetOne(filter: seq<Byte>, f: nat, b: nat)
    requires |filter| == FILTER_SIZE_BYTES && f < 8 * FILTER_SIZE_BYTES && b < 8 * FILTER_SIZE_BYTES
    ensures Or(filter[f / 8], Pow2(f % 8)) < 0x100
    ensures IsSet(filter[f / 8 := Or(filter[f / 8], Pow2(f % 8))], b) <==> IsSet(filter, b) || b == f
  {
    hide Or, Pow2, Bit;
    ByteOr(filter[f / 8], f % 8);
  }

  method InsertWord(filter: array<Byte>, word: string, hashes: Hashes)
    requires filter.Length == FILTER_SIZE_BYTES && Seven(hashes)
    modifies filter
    ensures forall b :: 0 <= b < 8 * FILTER_SIZE_BYTES ==>
      (IsSet(filter[..], b) <==> IsSet(old(filter[..]), b) || StandsFor(b, word, hashes))
  {
    hide Fold, Or, Pow2, IsSet;
    var hash := hashes(word);
    ghost var before := filter[..];
    for i := 0 to |hash|
      invariant forall b :: 0 <= b < 8 * FILTER_SIZE_BYTES ==>
        (IsSet(filter[..], b) <==> IsSet(before, b) || exists j :: 0 <= j < i && Fold(hash[j]) == b)
    {
      var f := Fold(hash[i]);
      ghost var was := filter[..];
      SetOne(was, f, f);
      filter[f / 8] := Or(filter[f / 8], Pow2(f % 8));
      assert filter[..] == was[f / 8 := Or(was[f / 8], Pow2(f % 8))];
      forall b | 0 <= b < 8 * FILTER_SIZE_BYTES ensures IsSet(filter[..], b) <==> IsSet(was, b) || b == f {
        SetOne(was, f, b);
      }
    }
  }

  /** All the bits that stand for the word are set. */
  ghost predicate Reported(filter: seq<Byte>, word: string, hashes: Hashes)
    requires |filter| == FILTER_SIZE_BYTES
  {
    forall b: nat :: StandsFor(b, word, hashes) ==> b < 8 * FILTER_SIZE_BYTES && IsSet(filter, b)
  }

  method InDict(filter: array<Byte>, word: string, hashes: Hashes) returns (found: bool)
    requires filter.Length == FILTER_SIZE_BYTES && Seven(hashes)
    ensures found <==> Reported(filter[..], word, hashes)
  {
    hide Fold, And, Pow2, Bit;
    var hash := hashes(word);
    for i := 0 to |hash|
      invariant forall j :: 0 <= j < i ==> IsSet(filter[..], Fold(hash[j]))
    {
      var f := Fold(hash[i]);
      AndPow2(filter[f / 8], f % 8);
      if And(filter[f / 8], Pow2(f % 8)) == 0 {
        assert StandsFor(f, word, hashes) && !IsSet(filter[..], f);
        return false;
      }
    }
    return true;
  }

  /** The bits of the filter are those of the words and no others. */
  ghost predicate Holds(filter: seq<Byte>, words: seq<string>, hashes: Hashes) {
    && |filter| == FILTER_SIZE_BYTES
    && forall b :: 0 <= b < 8 * FILTER_SIZE_BYTES ==>
         (IsSet(filter, b) <==> exists i :: 0 <= i < |words| && StandsFor(b, words[i], hashes))
  }

  /** The finished lines of a text. */
  function Lines(text: string): seq<string> {
    if text == "" then []
    else
      var front := text[..|text| - 1];
      Lines(front) + if text[|text| - 1] == '\n' then [Rest(front)] else []
  }

  /** What follows the last line end. */
  function Rest(text: string): string {
    if text == "" || text[|text| - 1] == '\n' then "" else Rest(text[..|text| - 1]) + [text[|text| - 1]]
  }

  function Unlines(lines: seq<string>): string {
    if lines == [] then "" else Unlines(lines[..|lines| - 1]) + lines[|lines| - 1] + "\n"
  }

  /** Lines are what they should be: free of line ends, and with these and the rest they make up the text. */
  lemma {:induction false} LinesMakeText(text: string)
    ensures Unlines(Lines(text)) + Rest(text) == text
    ensures '\n' !in Rest(text) && forall i :: 0 <= i < |Lines(text)| ==> '\n' !in Lines(text)[i]
  {
    if text != "" {
      var front, last := text[..|text| - 1], text[|text| - 1];
      LinesMakeText(front);
      assert text == front + [last] && text[..|text|] == text && text[..|front|] == front;
      LinesPush(text, |front|);
      hide Lines, Rest, Unlines;
      if last == '\n' {
        UnlinesPush(Lines(front), Rest(front));
      } else {
        assert Unlines(Lines(front)) + (Rest(front) + [last]) == front + [last];
      }
    }
  }

  lemma UnlinesPush(lines: seq<string>, line: string)
    ensures Unlines(lines + [line]) == Unlines(lines) + line + "\n"
  {
    assert (lines + [line])[..|lines|] == lines;
  }

  lemma LinesPush(text: string, i: nat)
    requires i < |text|
    ensures text[i] == '\n' ==> Lines(text[..i + 1]) == Lines(text[..i]) + [Rest(text[..i])]
    ensures text[i] == '\n' ==> Rest(text[..i + 1]) == ""
    ensures text[i] != '\n' ==> Lines(text[..i + 1]) == Lines(text[..i])
    ensures text[i] != '\n' ==> Rest(text[..i + 1]) == Rest(text[..i]) + [text[i]]
  {
    assert text[..i + 1][..i] == text[..i];
  }

  /** Every finished line is inserted; what follows the last line end is not. Loading gives up where a line gets
      longer than the buffer, `n` characters into the text. */
  method LoadWords(filter: array<Byte>, text: string, hashes: Hashes) returns (ok: bool, ghost n: nat)
    requires Holds(filter[..], [], hashes) && Seven(hashes)
    modifies filter
    ensures n <= |text| && Holds(filter[..], Lines(text[..n]), hashes)
    ensures forall i :: 0 <= i < |Lines(text[..n])| ==> |Lines(text[..n])[i]| < 32
    ensures if ok then n == |text| && |Rest(text)| < 32 else |Rest(text[..n])| == 32
  {
    assert text[..0] == "";
    hide IsSet, StandsFor, Lines, Rest, Holds;
    Nothing();
    var buf := "";
    for i := 0 to |text|
      invariant buf == Rest(text[..i]) && |buf| < WORD_BUF_SIZE && Holds(filter[..], Lines(text[..i]), hashes)
      invariant forall k :: 0 <= k < |Lines(text[..i])| ==> |Lines(text[..i])[k]| < WORD_BUF_SIZE
    {
      LinesPush(text, i);
      var c := text[i];
      if c != '\n' {
        if |buf| > WORD_BUF_SIZE - 2 {
          return false, i + 1;
        }
        buf := buf + [c];
      } else {
        ghost var before := filter[..];
        HoldsSize(before, Lines(text[..i]), hashes);
        InsertWord(filter, buf, hashes);
        HoldsMore(before, filter[..], Lines(text[..i]), buf, hashes);
        buf := "";
      }
    }
    assert text[..|text|] == text;
    return true, |text|;
  }

  lemma Nothing()
    ensures Lines("") == [] && Rest("") == ""
  {
  }

  lemma HoldsSize(filter: seq<Byte>, words: seq<string>, hashes: Hashes)
    requires Holds(filter, words, hashes)
    ensures |filter| == FILTER_SIZE_BYTES
  {
  }

  lemma HoldsMore(before: seq<Byte>, after: seq<Byte>, words: seq<string>, word: string, hashes: Hashes)
    requires Holds(before, words, hashes) && |after| == FILTER_SIZE_BYTES
    requires forall b :: 0 <= b < 8 * FILTER_SIZE_BYTES ==>
      (IsSet(after, b) <==> IsSet(before, b) || StandsFor(b, word, hashes))
    ensures Holds(after, words + [word], hashes)
  {
    hide IsSet, StandsFor;
    var all := words + [word];
    forall b | 0 <= b < 8 * FILTER_SIZE_BYTES
      ensures IsSet(after, b) <==> exists i :: 0 <= i < |all| && StandsFor(b, all[i], hashes)
    {
      assert StandsFor(b, word, hashes) ==> StandsFor(b, all[|words|], hashes);
      assert forall i :: 0 <= i < |words| ==> all[i] == words[i];
      if i :| 0 <= i < |words| && StandsFor(b, words[i], hashes) {
        assert StandsFor(b, all[i], hashes);
      }
    }
  }

  lemma StandsWithin(b: nat, word: string, hashes: Hashes)
    requires StandsFor(b, word, hashes)
    ensures b < 8 * FILTER_SIZE_BYTES
  {
  }

  /** A word is reported exactly when every bit that stands for it stands for one of the inserted words too; in
      particular every inserted word is. */
  lemma ReportedIffCovered(filter: seq<Byte>, words: seq<string>, word: string, hashes: Hashes)
    requires Holds(filter, words, hashes)
    ensures Reported(filter, word, hashes)
            <==> forall b: nat :: StandsFor(b, word, hashes) ==>
              exists i :: 0 <= i < |words| && StandsFor(b, words[i], hashes)
    ensures word in words ==> Reported(filter, word, hashes)
  {
    hide StandsFor, IsSet;
    forall b: nat | StandsFor(b, word, hashes) ensures b < 8 * FILTER_SIZE_BYTES {
      StandsWithin(b, word, hashes);
    }
  }

  /** The filter is a function of the words alone: in whatever order and however often they were inserted, the same
      words leave the same bytes. */
  lemma SameWordsSameFilter(f: seq<Byte>, g: seq<Byte>, ws: seq<string>, vs: seq<string>, hashes: Hashes)
    requires Holds(f, ws, hashes) && Holds(g, vs, hashes) && forall w :: w in ws <==> w in vs
    ensures f == g
  {
    forall k | 0 <= k < FILTER_SIZE_BYTES ensures f[k] == g[k] {
      forall j | 0 <= j < 8 ensures Bit(f[k], j) <==> Bit(g[k], j) {
        SameBit(f, g, ws, vs, hashes, 8 * k + j);
      }
      SameByte(f[k], g[k]);
    }
  }

  lemma SameByte(a: Byte, b: Byte)
    requires forall j :: 0 <= j < 8 ==> (Bit(a, j) <==> Bit(b, j))
    ensures a == b
  {
    hide Bit;
    Pow2Byte();
    BitsTellApart(a, b, 8);
  }

  lemma SameBit(f: seq<Byte>, g: seq<Byte>, ws: seq<string>, vs: seq<string>, hashes: Hashes, b: nat)
    requires Holds(f, ws, hashes) && Holds(g, vs, hashes) && forall w :: w in ws <==> w in vs
    requires b < 8 * FILTER_SIZE_BYTES
    ensures Bit(f[b / 8], b % 8) <==> Bit(g[b / 8], b % 8)
  {
    hide StandsFor, Bit;
    if i :| 0 <= i < |ws| && StandsFor(b, ws[i], hashes) {
      assert ws[i] in vs;
    }
    if i :| 0 <= i < |vs| && StandsFor(b, vs[i], hashes) {
      assert vs[i] in ws;
    }
    assert IsSet(f, b) <==> IsSet(g, b);
  }
}
