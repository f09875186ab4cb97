/** Numbers as strings of binary digits. */
module Bits {
  // ---------------------------------------------------------------- powers of two

  function Pow2(k: nat): (p: nat)
    ensures p >= 1
  {
    if k == 0 then 1 else 2 * Pow2(k - 1)
  }

  lemma {:induction false} Pow2Add(i: nat, j: nat)
    ensures Pow2(i + j) == Pow2(i) * Pow2(j)
  {
    if i > 0 {
      Pow2Add(i - 1, j);
      assert Pow2(i) * Pow2(j) == 2 * (Pow2(i - 1) * Pow2(j));
    }
  }

  lemma {:induction false} Pow2Grows(i: nat, j: nat)
    requires i < j
    ensures 2 * Pow2(i) <= Pow2(j)
    decreases j
  {
    if i + 1 < j {
      Pow2Grows(i, j - 1);
    }
  }

  lemma Pow2Byte()
    ensures Pow2(8) == 0x100 && Pow2(1) == 2
  {
    assert Pow2(2) == 4 && Pow2(4) == 4 * Pow2(2) && Pow2(6) == 4 * Pow2(4);
  }

  lemma Pow2Bits()
    ensures Pow2(32) == 0x1_0000_0000 && Pow2(128) == 0x1_0000_0000_0000_0000_0000_0000_0000_0000
  {
    hide *;
    Pow2Byte();
    Pow2Add(8, 8);
    Pow2Add(16, 16);
    Pow2Add(32, 32);
    Pow2Add(64, 64);
  }

  // ---------------------------------------------------------------- bitwise operators

  /** The bitwise and of two numbers. */
  function And(a: nat, b: nat): nat {
    if a == 0 || b == 0 then 0 else 2 * And(a / 2, b / 2) + (a % 2) * (b % 2)
  }

  /** The bitwise or of two numbers. */
  function Or(a: nat, b: nat): nat {
    if a == 0 then b else if b == 0 then a
    else 2 * Or(a / 2, b / 2) + if a % 2 == 1 || b % 2 == 1 then 1 else 0
  }

  /** The bitwise exclusive or of two numbers. */
  function Xor(a: nat, b: nat): nat {
    if a == 0 then b else if b == 0 then a
    else 2 * Xor(a / 2, b / 2) + (a % 2 + b % 2) % 2
  }

  predicate Bit(n: nat, k: nat) {
    if k == 0 then n % 2 == 1 else Bit(n / 2, k - 1)
  }

  lemma {:induction false} ZeroHasNoBits(k: nat)
    ensures !Bit(0, k)
  {
    if k > 0 {
      ZeroHasNoBits(k - 1);
    }
  }

  lemma {:induction false} BitOfOr(a: nat, b: nat, k: nat)
    ensures Bit(Or(a, b), k) <==> Bit(a, k) || Bit(b, k)
    decreases k
  {
    if a == 0 || b == 0 {
      ZeroHasNoBits(k);
    } else if k > 0 {
      BitOfOr(a / 2, b / 2, k - 1);
    }
  }

  lemma {:induction false} BitOfPow2(i: nat, k: nat)
    ensures Bit(Pow2(i), k) <==> i == k
    decreases k
  {
    if i == 0 {
      if k > 0 {
        ZeroHasNoBits(k - 1);
      }
    } else if k > 0 {
      BitOfPow2(i - 1, k - 1);
    }
  }

  /** A single bit is tested by the and with its power of two. */
  lemma {:induction false} AndPow2(n: nat, k: nat)
    ensures And(n, Pow2(k)) != 0 <==> Bit(n, k)
    decreases k
  {
    if n == 0 {
      ZeroHasNoBits(k);
    } else if k > 0 {
      AndPow2(n / 2, k - 1);
    }
  }

  lemma {:induction false} OrBelow(a: nat, b: nat, k: nat)
    requires a < Pow2(k) && b < Pow2(k)
    ensures Or(a, b) < Pow2(k)
    decreases k
  {
    if a != 0 && b != 0 {
      OrBelow(a / 2, b / 2, k - 1);
    }
  }

  lemma {:induction false} XorBelow(a: nat, b: nat, k: nat)
    requires a < Pow2(k) && b < Pow2(k)
    ensures Xor(a, b) < Pow2(k)
    decreases k
  {
    if a != 0 && b != 0 {
      XorBelow(a / 2, b / 2, k - 1);
    }
  }

  lemma {:induction false} BitOfXor(a: nat, b: nat, k: nat)
    ensures Bit(Xor(a, b), k) <==> Bit(a, k) != Bit(b, k)
    decreases k
  {
    if a == 0 || b == 0 {
      ZeroHasNoBits(k);
    } else if k > 0 {
      BitOfXor(a / 2, b / 2, k - 1);
    }
  }

  lemma {:induction false} BitOfAnd(a: nat, b: nat, k: nat)
    ensures Bit(And(a, b), k) <==> Bit(a, k) && Bit(b, k)
    decreases k
  {
    if a == 0 || b == 0 {
      ZeroHasNoBits(k);
    } else if k > 0 {
      BitOfAnd(a / 2, b / 2, k - 1);
    }
  }

  /** Halving a number of which `q` is what is above the lowest `j` bits, and `r` what is in them. */
  lemma HalfOfParts(n: nat, q: nat, r: nat, j: nat)
    requires j > 0 && r < Pow2(j) && n == q * Pow2(j) + r
    ensures n % 2 == r % 2 && n / 2 == q * Pow2(j - 1) + r / 2 && r / 2 < Pow2(j - 1)
  {
    assert q * Pow2(j) == 2 * (q * Pow2(j - 1));
  }

  /** The parts have the bits of the whole, at their places. */
  lemma {:induction false} BitOfParts(n: nat, q: nat, r: nat, j: nat, k: nat)
    requires r < Pow2(j) && n == q * Pow2(j) + r
    ensures Bit(q, k) <==> Bit(n, j + k)
    ensures Bit(r, k) <==> k < j && Bit(n, k)
    decreases j
  {
    if j == 0 {
      ZeroHasNoBits(k);
    } else {
      HalfOfParts(n, q, r, j);
      BitOfParts(n / 2, q, r / 2, j - 1, k);
      if k > 0 {
        BitOfParts(n / 2, q, r / 2, j - 1, k - 1);
      }
    }
  }

  /** Numbers are told apart by their bits. */
  lemma {:induction false} BitsTellApart(a: nat, b: nat, k: nat)
    requires a < Pow2(k) && b < Pow2(k) && forall j :: 0 <= j < k ==> (Bit(a, j) <==> Bit(b, j))
    ensures a == b
  {
    if k > 0 {
      assert Bit(a, 0) <==> Bit(b, 0);
      forall j | 0 <= j < k - 1 ensures Bit(a / 2, j) <==> Bit(b / 2, j) {
        assert Bit(a, j + 1) <==> Bit(b, j + 1);
      }
      BitsTellApart(a / 2, b / 2, k - 1);
    }
  }
}
