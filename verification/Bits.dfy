/** Bits of whole numbers, and numbers given by their bits. */
module Bits {
  import opened Seqs

  function Pow2(n: nat): (p: nat)
    ensures p > 0
  {
    if n == 0 then 1 else 2 * Pow2(n - 1)
  }

  /** Bit i of m. Negative numbers have their two's complement bits, without end. */
  function Bit(m: int, i: nat): bool
    decreases i
  {
    if i == 0 then m % 2 == 1 else Bit(m / 2, i - 1)
  }

  /** The number whose bits are given, lowest first. */
  function Value(s: seq<bool>): (v: nat)
    ensures v < Pow2(|s|)
  {
    if s == [] then 0 else (if s[0] then 1 else 0) + 2 * Value(s[1..])
  }

  lemma {:induction false} ValueBit(s: seq<bool>, i: nat)
    ensures Bit(Value(s), i) <==> i < |s| && s[i]
    decreases i
  {
    if s == [] {
      ZeroBit(i);
    } else if i > 0 {
      ValueBit(s[1..], i - 1);
    }
  }

  lemma ZeroBit(i: nat)
    ensures !Bit(0, i)
  {
  }

  /** Numbers below 2^n with the same bits are the same. */
  lemma {:induction false} SameBits(n: nat, a: int, b: int)
    requires 0 <= a < Pow2(n) && 0 <= b < Pow2(n)
    requires forall i: nat | i < n :: Bit(a, i) == Bit(b, i)
    ensures a == b
  {
    if n > 0 {
      forall i: nat | i < n - 1
        ensures Bit(a / 2, i) == Bit(b / 2, i)
      {
        assert Bit(a, i + 1) == Bit(b, i + 1);
      }
      SameBits(n - 1, a / 2, b / 2);
      assert Bit(a, 0) == Bit(b, 0);
    }
  }

  lemma HalfOf(hi: int, p: nat, lo: int)
    requires 0 <= lo < 2 * p
    ensures (hi * (2 * p) + lo) / 2 == hi * p + lo / 2 && (hi * (2 * p) + lo) % 2 == lo % 2
  {
    DivModUnique(hi * (2 * p) + lo, 2, hi * p + lo / 2, lo % 2);
  }

  /** Bits of a number put together from a high and a low part. */
  lemma {:induction false} JoinedBit(hi: int, w: nat, lo: int, i: nat)
    requires 0 <= lo < Pow2(w)
    ensures Bit(hi * Pow2(w) + lo, i) == if i < w then Bit(lo, i) else Bit(hi, i - w)
    decreases i
  {
    if w > 0 {
      HalfOf(hi, Pow2(w - 1), lo);
      if i > 0 {
        JoinedBit(hi, w - 1, lo / 2, i - 1);
      }
    }
  }
}
