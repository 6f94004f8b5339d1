/** The hash of each key type, with C's 32- and 64-bit arithmetic spelled out (LP64: int is 32 bits wide,
    long 64). */
module HashFn {
  import opened Seqs
  import opened Chains
  import opened Elf

  const MULTIPLIER: int := 2654435761

  predicate IsInt32(x: int) { -0x8000_0000 <= x < 0x8000_0000 }

  /** C's remainder: the sign follows the dividend. */
  function CRem(a: int, n: int): int
    requires n > 0
  {
    if a >= 0 then a % n else -((-a) % n)
  }

  function ToUInt32(x: int): int { x % TWO32 }

  function ToInt32(u: int): int {
    if u % TWO32 >= 0x8000_0000 then u % TWO32 - TWO32 else u % TWO32
  }

  /** cal_hash_int: a 64-bit product, C's remainder, returned as unsigned int. */
  function CalHashInt(key: int): int {
    ToUInt32(CRem(key * MULTIPLIER, BUCKETS))
  }

  /** calc_hash on an int key: the unsigned result lands in a signed int again. */
  function HashInt(key: int): int {
    ToInt32(CalHashInt(key))
  }

  /** calc_hash on a string key: the accumulator is cut down to an int before cal_hash_int. */
  function HashStr(s: seq<Byte>): int {
    HashInt(ToInt32(ElfHash(s)))
  }

  /** No int key overflows the 64-bit product. */
  lemma ProductFits(key: int)
    requires IsInt32(key)
    ensures -0x8000_0000_0000_0000 <= key * MULTIPLIER < 0x8000_0000_0000_0000
  {
  }

  /** The round trip through unsigned int changes nothing. */
  lemma HashIntIs(key: int)
    ensures HashInt(key) == CRem(key * MULTIPLIER, BUCKETS)
    ensures -1021 < HashInt(key) < 1021
  {
  }

  lemma Congruent(a: int, b: int, q: int)
    requires a == b + BUCKETS * q
    ensures a % BUCKETS == b % BUCKETS
  {
  }

  /** Modulo 1021 the multiplier is invertible (it is 142, and 151 undoes it), so it keeps congruence both ways. */
  lemma MultiplierInvertible(k1: int, k2: int)
    ensures (k1 * MULTIPLIER) % BUCKETS == (k2 * MULTIPLIER) % BUCKETS <==> k1 % BUCKETS == k2 % BUCKETS
  {
    var p1, p2 := k1 * MULTIPLIER, k2 * MULTIPLIER;
    if p1 % BUCKETS == p2 % BUCKETS {
      var q := p1 / BUCKETS - p2 / BUCKETS;
      assert p1 == p2 + BUCKETS * q;
      Congruent(k1, k2, 151 * q - (k1 - k2) * 392575710);
    }
    if k1 % BUCKETS == k2 % BUCKETS {
      var q := k1 / BUCKETS - k2 / BUCKETS;
      assert k1 == k2 + BUCKETS * q;
      Congruent(p1, p2, q * MULTIPLIER);
    }
  }

  /** The bucket of every key, with the multiplier reduced modulo 1021. Negative keys land below 0. */
  lemma HashIntExact(key: int)
    ensures HashInt(key) == if key >= 0 then 142 * key % BUCKETS else -(142 * -key % BUCKETS)
  {
    HashIntIs(key);
    var k := if key >= 0 then key else -key;
    Congruent(k * MULTIPLIER, 142 * k, 2599839 * k);
    assert key * MULTIPLIER == if key >= 0 then k * MULTIPLIER else -(k * MULTIPLIER);
  }

  /** Non-negative keys share a bucket exactly when they are congruent modulo 1021. */
  lemma SameBucket(k1: int, k2: int)
    requires k1 >= 0 && k2 >= 0
    ensures HashInt(k1) == HashInt(k2) <==> k1 % BUCKETS == k2 % BUCKETS
  {
    MultiplierInvertible(k1, k2);
    HashIntIs(k1);
    HashIntIs(k2);
  }

  /** A key is accepted exactly when it is non-negative or a multiple of 1021; the multiples share bucket 0. */
  lemma Accepted(key: int)
    ensures Available(HashInt(key)) <==> key >= 0 || key % BUCKETS == 0
    ensures HashInt(key) == 0 <==> key % BUCKETS == 0
  {
    var k := if key >= 0 then key else -key;
    HashIntIs(key);
    MultiplierInvertible(k, 0);
    NegatedMod(key);
    assert HashInt(key) == if key >= 0 then (k * MULTIPLIER) % BUCKETS else -((k * MULTIPLIER) % BUCKETS);
  }

  lemma NegatedMod(k: int)
    ensures k % BUCKETS == 0 <==> (-k) % BUCKETS == 0
  {
    var q, r := k / BUCKETS, k % BUCKETS;
    if r == 0 {
      DivModUnique(-k, BUCKETS, -q, 0);
    } else {
      DivModUnique(-k, BUCKETS, -q - 1, BUCKETS - r);
    }
  }

  /** Every string, of any length and any bytes, hashes to a bucket: the low word of its ELF hash, hashed as a key. */
  lemma HashStrAvailable(s: seq<Byte>)
    ensures 0 <= ToInt32(ElfHash(s)) < TWO28
    ensures Available(HashStr(s)) && HashStr(s) == 142 * (ElfHash(s) % TWO32) % BUCKETS
  {
    ElfBound(s);
    Accepted(ToInt32(ElfHash(s)));
    HashIntExact(ToInt32(ElfHash(s)));
  }

  /** The bucket of "sockets". */
  lemma SocketsBucket()
    ensures HashStr([115, 111, 99, 107, 101, 116, 115]) == 619
  {
    SocketsHash();
    HashStrAvailable([115, 111, 99, 107, 101, 116, 115]);
  }

  lemma {:induction false} PigeonHole(s: seq<nat>, n: nat)
    requires forall i | 0 <= i < |s| :: s[i] < n
    requires forall i, j | 0 <= i < j < |s| :: s[i] != s[j]
    ensures |s| <= n
  {
    if s != [] {
      var k := IndexOf(s, n - 1);
      PigeonHole(if k < |s| then RemoveAt(s, k) else s[1..], n - 1);
    }
  }

  /** With keys from [0, limit) no chain is longer than limit / 1021, rounded up. */
  lemma ChainBound<V>(c: Chain<int, V>, b: int, limit: nat)
    requires ChainOk(HashInt, b, c)
    requires forall i | 0 <= i < |c| :: 0 <= c[i].key < limit
    ensures |c| <= (limit + 1020) / BUCKETS
  {
    var quotients: seq<nat> := seq(|c|, i requires 0 <= i < |c| => c[i].key / BUCKETS);
    forall i, j | 0 <= i < j < |c|
      ensures quotients[i] != quotients[j]
    {
      SameBucket(c[i].key, c[j].key);
    }
    forall i | 0 <= i < |c|
      ensures quotients[i] < (limit + 1020) / BUCKETS
    {
      QuotientBelow(c[i].key, limit);
    }
    PigeonHole(quotients, (limit + 1020) / BUCKETS);
  }

  lemma QuotientBelow(k: nat, limit: nat)
    requires k < limit
    ensures k / BUCKETS < (limit + 1020) / BUCKETS
  {
  }
}
