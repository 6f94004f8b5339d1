/** The ELF string hash. A long is kept as its residue modulo 2^64, so that every carry and wrap-around is
    visible; the masks and shifts of the loop only ever pick out and move single nibbles. */
module Elf {
  import opened Seqs
  import opened Bits

  const TWO8: int := 0x100
  const TWO28: int := 0x1000_0000
  const TWO32: int := 0x1_0000_0000
  const TWO64: int := 0x1_0000_0000_0000_0000

  type Byte = b: int | 0 <= b < 256

  /** (long) of a signed char: the number in [-128, 128) with that low byte. */
  function SignedChar(b: Byte): (c: int)
    ensures -128 <= c < 128 && c % 256 == b
  {
    if b < 128 then b else b - 256
  }

  /** Bits 28 to 31: (h & 0xF0000000) >> 28. */
  function HighNibble(h: int): int { h / TWO28 % 16 }

  /** Bits 4 to 7, where the high nibble lands after >> 24. */
  function LowNibble(h: int): int { h / 16 % 16 }

  function XorNibble(m: int, n: int): (x: int)
    ensures 0 <= x < 16
  {
    assert Pow2(4) == 16;
    Value(seq(4, (i: nat) => Bit(m, i) != Bit(n, i)))
  }

  lemma XorZero(m: int)
    requires 0 <= m < 16
    ensures XorNibble(m, 0) == m
  {
    forall i: nat | i < 4
      ensures Bit(XorNibble(m, 0), i) == Bit(m, i)
    {
      XorNibbleBit(m, 0, i);
      ZeroBit(i);
    }
    assert Pow2(4) == 16;
    SameBits(4, XorNibble(m, 0), m);
  }

  lemma XorNibbleBit(m: int, n: int, i: nat)
    ensures Bit(XorNibble(m, n), i) <==> i < 4 && Bit(m, i) != Bit(n, i)
  {
    ValueBit(seq(4, (j: nat) => Bit(m, j) != Bit(n, j)), i);
  }

  /** Exclusive-or of the high nibble into bits 4 to 7; then the high nibble is cleared. */
  function Mix(h: int): int {
    h + 16 * (XorNibble(LowNibble(h), HighNibble(h)) - LowNibble(h)) - TWO28 * HighNibble(h)
  }

  /** One turn of the loop of cal_hash_str, on a long. */
  function ElfTurn(h: int, c: int): int { Mix((h * 16 + c) % TWO64) }

  // The operators of C on 32-bit words.

  function And32(a: int, b: int): int { Value(seq(32, (i: nat) => Bit(a, i) && Bit(b, i))) }

  function AndNot32(a: int, b: int): int { Value(seq(32, (i: nat) => Bit(a, i) && !Bit(b, i))) }

  function Xor32(a: int, b: int): int { Value(seq(32, (i: nat) => Bit(a, i) != Bit(b, i))) }

  /** The top four bits of a word, exclusive-ored into it 24 places lower and then cleared. */
  function AbiMix(v: int): int {
    var g := And32(v, 0xF000_0000);
    AndNot32(Xor32(v, g / 0x100_0000), g)
  }

  /** One turn of the loop given in the System V ABI, chapter 5, "Hash Table", on a 32-bit word. */
  function AbiTurn(h: int, c: int): int { AbiMix((h * 16 + c) % TWO32) }

  function Fold(turn: (int, int) -> int, cs: seq<int>): int {
    if cs == [] then 0 else turn(Fold(turn, cs[..|cs| - 1]), cs[|cs| - 1])
  }

  function Signed(s: seq<Byte>): seq<int> {
    seq(|s|, i requires 0 <= i < |s| => SignedChar(s[i]))
  }

  /** cal_hash_str's accumulator at the end of the string. */
  function ElfHash(s: seq<Byte>): int { Fold(ElfTurn, Signed(s)) }

  /** The ABI's hash, over unsigned characters. */
  function AbiHash(s: seq<Byte>): int { Fold(AbiTurn, s) }

  /** A number taken apart around the two nibbles. */
  lemma Parts(h: int, a: int, n: int, c: int, m: int, d: int)
    requires 0 <= n < 16 && 0 <= c < 0x10_0000 && 0 <= m < 16 && 0 <= d < 16
    requires h == a * TWO32 + n * TWO28 + c * TWO8 + m * 16 + d
    ensures HighNibble(h) == n && LowNibble(h) == m
    ensures h % TWO32 == n * TWO28 + c * TWO8 + m * 16 + d
    ensures Mix(h) == a * TWO32 + c * TWO8 + XorNibble(m, n) * 16 + d
  {
    DivModUnique(h, TWO28, a * 16 + n, c * TWO8 + m * 16 + d);
    DivModUnique(a * 16 + n, 16, a, n);
    DivModUnique(h, 16, a * 0x1000_0000 + n * 0x100_0000 + c * 16 + m, d);
    DivModUnique(a * 0x1000_0000 + n * 0x100_0000 + c * 16 + m, 16, a * 0x100_0000 + n * 0x10_0000 + c, m);
    DivModUnique(h, TWO32, a, n * TWO28 + c * TWO8 + m * 16 + d);
  }

  /** Where the bits of these parts are. */
  lemma PartBit(h: int, a: int, n: int, c: int, m: int, d: int, i: nat)
    requires 0 <= n < 16 && 0 <= c < 0x10_0000 && 0 <= m < 16 && 0 <= d < 16
    requires h == a * TWO32 + n * TWO28 + c * TWO8 + m * 16 + d
    ensures Bit(h, i) == if i < 4 then Bit(d, i) else if i < 8 then Bit(m, i - 4) else if i < 28 then Bit(c, i - 8)
                         else if i < 32 then Bit(n, i - 28) else Bit(a, i - 32)
  {
    var h1 := a * 16 + n;
    var h2 := h1 * 0x10_0000 + c;
    var h3 := h2 * 16 + m;
    assert h == h3 * 16 + d;
    NibbleBit(h3, d, i);
    if i >= 4 {
      NibbleBit(h2, m, i - 4);
    }
    if i >= 8 {
      MiddleBit(h1, c, i - 8);
    }
    if i >= 28 {
      NibbleBit(a, n, i - 28);
    }
  }

  lemma NibbleBit(hi: int, lo: int, i: nat)
    requires 0 <= lo < 16
    ensures Bit(hi * 16 + lo, i) == if i < 4 then Bit(lo, i) else Bit(hi, i - 4)
  {
    assert Pow2(4) == 16;
    JoinedBit(hi, 4, lo, i);
  }

  lemma MiddleBit(hi: int, lo: int, i: nat)
    requires 0 <= lo < 0x10_0000
    ensures Bit(hi * 0x10_0000 + lo, i) == if i < 20 then Bit(lo, i) else Bit(hi, i - 20)
  {
    Pow2Values();
    JoinedBit(hi, 20, lo, i);
  }

  lemma Pow2Values()
    ensures Pow2(4) == 16 && Pow2(20) == 0x10_0000 && Pow2(24) == 0x100_0000 && Pow2(32) == TWO32
  {
    assert Pow2(8) == 256 && Pow2(12) == 4096 && Pow2(16) == 65536;
    assert Pow2(24) == 0x100_0000;
    assert Pow2(28) == TWO28;
  }

  /** What the second half of the loop body does to each bit: bits 28 to 31 are cleared after they were
      exclusive-ored into bits 4 to 7; no other bit changes. */
  lemma MixBits(v: int, i: nat)
    ensures Bit(Mix(v), i) <==>
            !(28 <= i < 32) && (Bit(v, i) != (4 <= i < 8 && Bit(v, i + 24)))
  {
    var a, n, c, m, d := TakeApart(v);
    Parts(v, a, n, c, m, d);
    PartBit(v, a, n, c, m, d, i);
    PartBit(v, a, n, c, m, d, i + 24);
    PartBit(Mix(v), a, 0, c, XorNibble(m, n), d, i);
    if 4 <= i < 8 {
      XorNibbleBit(m, n, i - 4);
    } else if 28 <= i < 32 {
      ZeroBit(i - 28);
    }
  }

  lemma And32Bit(a: int, b: int, i: nat)
    ensures Bit(And32(a, b), i) <==> i < 32 && Bit(a, i) && Bit(b, i)
  {
    ValueBit(seq(32, (j: nat) => Bit(a, j) && Bit(b, j)), i);
  }

  lemma AndNot32Bit(a: int, b: int, i: nat)
    ensures Bit(AndNot32(a, b), i) <==> i < 32 && Bit(a, i) && !Bit(b, i)
  {
    ValueBit(seq(32, (j: nat) => Bit(a, j) && !Bit(b, j)), i);
  }

  lemma Xor32Bit(a: int, b: int, i: nat)
    ensures Bit(Xor32(a, b), i) <==> i < 32 && Bit(a, i) != Bit(b, i)
  {
    ValueBit(seq(32, (j: nat) => Bit(a, j) != Bit(b, j)), i);
  }

  lemma MaskBit(i: nat)
    ensures Bit(0xF000_0000, i) <==> 28 <= i < 32
  {
    PartBit(0xF000_0000, 0, 15, 0, 0, 0, i);
    ZeroBit(i);
    if 28 <= i < 32 {
      assert Bit(15, 0) && Bit(15, 1) && Bit(15, 2) && Bit(15, 3);
    } else if i < 28 {
      ZeroBit(if i < 4 then i else if i < 8 then i - 4 else i - 8);
    } else {
      ZeroBit(i - 32);
    }
  }

  /** The top four bits of a word, moved down to bits 4 to 7. */
  lemma TopBits(v: int, i: nat)
    ensures Bit(And32(v, 0xF000_0000), i) <==> 28 <= i < 32 && Bit(v, i)
    ensures Bit(And32(v, 0xF000_0000) / 0x100_0000, i) <==> 4 <= i < 8 && Bit(v, i + 24)
  {
    var g := And32(v, 0xF000_0000);
    And32Bit(v, 0xF000_0000, i);
    MaskBit(i);
    And32Bit(v, 0xF000_0000, i + 24);
    MaskBit(i + 24);
    Pow2Values();
    JoinedBit(g / 0x100_0000, 24, g % 0x100_0000, i + 24);
  }

  /** The ABI's turn and the mix of nibbles are the same on a 32-bit word. */
  lemma AbiTurnIs(h: int, c: int)
    ensures AbiTurn(h, c) == Mix((h * 16 + c) % TWO32)
  {
    AbiMixIs((h * 16 + c) % TWO32);
  }

  lemma AbiMixBit(v: int, i: nat)
    requires i < 32
    ensures Bit(AbiMix(v), i) == Bit(Mix(v), i)
  {
    var g := And32(v, 0xF000_0000);
    TopBits(v, i);
    Xor32Bit(v, g / 0x100_0000, i);
    AndNot32Bit(Xor32(v, g / 0x100_0000), g, i);
    MixBits(v, i);
  }

  lemma AbiMixIs(v: int)
    requires 0 <= v < TWO32
    ensures AbiMix(v) == Mix(v)
  {
    forall i: nat | i < 32
      ensures Bit(AbiMix(v), i) == Bit(Mix(v), i)
    {
      AbiMixBit(v, i);
    }
    AbiMixRange(v);
    MixWord(v);
    SameWord(AbiMix(v), Mix(v));
  }

  lemma SameWord(a: int, b: int)
    requires 0 <= a < TWO32 && 0 <= b < TWO32
    requires forall i: nat | i < 32 :: Bit(a, i) == Bit(b, i)
    ensures a == b
  {
    Pow2Values();
    SameBits(32, a, b);
  }

  lemma AbiMixRange(v: int)
    ensures 0 <= AbiMix(v) < TWO32
  {
    AndNot32Range(Xor32(v, And32(v, 0xF000_0000) / 0x100_0000), And32(v, 0xF000_0000));
  }

  lemma MixWord(v: int)
    requires 0 <= v < TWO32
    ensures 0 <= Mix(v) < TWO32
  {
    MixFacts(v);
  }

  lemma AndNot32Range(a: int, b: int)
    ensures 0 <= AndNot32(a, b) < TWO32
  {
    Pow2Values();
  }

  /** Every number has such parts. */
  lemma TakeApart(h: int) returns (a: int, n: int, c: int, m: int, d: int)
    ensures 0 <= n < 16 && 0 <= c < 0x10_0000 && 0 <= m < 16 && 0 <= d < 16
    ensures h == a * TWO32 + n * TWO28 + c * TWO8 + m * 16 + d
    ensures a == h / TWO32
  {
    a := h / TWO32;
    var r := h % TWO32;
    n := r / TWO28;
    var r2 := r % TWO28;
    c := r2 / TWO8;
    var r3 := r2 % TWO8;
    m := r3 / 16;
    d := r3 % 16;
  }

  /** Whatever carries went above bit 31, a mixed accumulator has bits 28 to 31 clear, and its low
      32 bits are the mix of the low 32 bits. */
  lemma MixFacts(h: int)
    ensures HighNibble(Mix(h)) == 0
    ensures Mix(h) % TWO32 == Mix(h % TWO32) && 0 <= Mix(h % TWO32) < TWO28
  {
    var a, n, c, m, d := TakeApart(h);
    Parts(h, a, n, c, m, d);
    Parts(h % TWO32, 0, n, c, m, d);
    Parts(Mix(h), a, 0, c, XorNibble(m, n), d);
  }

  lemma MixRange(h: int)
    requires 0 <= h < TWO64
    ensures 0 <= Mix(h) < TWO64
  {
    var a, n, c, m, d := TakeApart(h);
    Parts(h, a, n, c, m, d);
    assert 0 <= a < TWO32;
  }

  lemma ModMod(x: int)
    ensures x % TWO64 % TWO32 == x % TWO32
  {
  }

  lemma ModShift(h: int, c: int)
    ensures (h * 16 + c) % TWO32 == (h % TWO32 * 16 + c) % TWO32
  {
  }

  ghost predicate Truncates(mix: int -> int) {
    forall v :: mix(v) % TWO32 == mix(v % TWO32)
  }

  ghost predicate KeepsBit8(mix: int -> int) {
    forall v :: mix(v) / TWO8 % 2 == v / TWO8 % 2
  }

  lemma MixTruncates()
    ensures Truncates(Mix)
  {
    forall v
      ensures Mix(v) % TWO32 == Mix(v % TWO32)
    {
      MixFacts(v);
    }
  }

  /** Truncating after a turn or before it makes no difference to the low 32 bits. */
  lemma TruncateTurn(mix: int -> int, h: int, c: int)
    requires Truncates(mix)
    ensures mix((h * 16 + c) % TWO64) % TWO32 == mix((h % TWO32 * 16 + c) % TWO32)
  {
    ModMod(h * 16 + c);
    ModShift(h, c);
  }

  lemma TurnTruncates(h: int, c: int)
    ensures ElfTurn(h, c) % TWO32 == AbiTurn(h % TWO32, c)
  {
    MixTruncates();
    TruncateTurn(Mix, h, c);
    AbiTurnIs(h % TWO32, c);
  }

  lemma {:induction false} FoldTruncates(wide: (int, int) -> int, narrow: (int, int) -> int, cs: seq<int>)
    requires forall h, c :: wide(h, c) % TWO32 == narrow(h % TWO32, c)
    ensures Fold(wide, cs) % TWO32 == Fold(narrow, cs)
  {
    if cs != [] {
      FoldTruncates(wide, narrow, cs[..|cs| - 1]);
    }
  }

  /** The 64-bit loop, truncated at the end, is the 32-bit loop. */
  lemma LoopTruncates(cs: seq<int>)
    ensures Fold(ElfTurn, cs) % TWO32 == Fold(AbiTurn, cs)
  {
    forall h, c
      ensures ElfTurn(h, c) % TWO32 == AbiTurn(h % TWO32, c)
    {
      TurnTruncates(h, c);
    }
    FoldTruncates(ElfTurn, AbiTurn, cs);
  }

  lemma TurnClear(h: int, c: int)
    ensures 0 <= ElfTurn(h, c) < TWO64 && HighNibble(ElfTurn(h, c)) == 0
    ensures 0 <= ElfTurn(h, c) % TWO32 < TWO28
  {
    MixFacts((h * 16 + c) % TWO64);
    MixRange((h * 16 + c) % TWO64);
  }

  /** The loop of cal_hash_str. Bits 28 to 31 are clear after every turn. */
  method ElfLoop(s: seq<Byte>) returns (hash: int)
    ensures hash == ElfHash(s)
    ensures 0 <= hash < TWO64 && HighNibble(hash) == 0
  {
    hash := 0;
    var i := 0;
    while i < |s|
      invariant 0 <= i <= |s|
      invariant hash == Fold(ElfTurn, Signed(s)[..i])
      invariant 0 <= hash < TWO64 && HighNibble(hash) == 0
    {
      assert Signed(s)[..i + 1][..i] == Signed(s)[..i];
      hash := Turn(hash, SignedChar(s[i]));
      i := i + 1;
    }
    assert Signed(s)[..i] == Signed(s);
  }

  /** The loop body. */
  method Turn(before: int, c: int) returns (hash: int)
    ensures hash == ElfTurn(before, c)
    ensures 0 <= hash < TWO64 && HighNibble(hash) == 0
  {
    TurnClear(before, c);
    hash := FoldBack((before * 16 + c) % TWO64);
  }

  /** The second half of the loop body. */
  method FoldBack(v: int) returns (hash: int)
    ensures hash == Mix(v)
  {
    hash := v;
    var x := HighNibble(hash);
    XorZero(LowNibble(hash));
    if x != 0 {
      hash := hash + 16 * (XorNibble(LowNibble(hash), x) - LowNibble(hash));
    }
    hash := hash - TWO28 * x;
  }

  /** Truncation to int gives a number below 2^28 for every string, of any length and any bytes. */
  lemma ElfBound(s: seq<Byte>)
    ensures 0 <= ElfHash(s) % TWO32 < TWO28
  {
    var cs := Signed(s);
    if s != [] {
      TurnClear(Fold(ElfTurn, cs[..|cs| - 1]), cs[|cs| - 1]);
    }
  }

  /** On bytes below 128 the truncated hash is the hash of the System V ABI. */
  lemma AsciiIsAbi(s: seq<Byte>)
    requires forall i | 0 <= i < |s| :: s[i] < 128
    ensures ElfHash(s) % TWO32 == AbiHash(s)
  {
    assert Signed(s) == s;
    LoopTruncates(s);
  }

  lemma MixSmall(h: int)
    requires 0 <= h < TWO28
    ensures Mix(h) == h
  {
    var a, n, c, m, d := TakeApart(h);
    Parts(h, a, n, c, m, d);
    XorZero(m);
  }

  /** Up to 28 bits a turn only shifts. */
  lemma ShortTurn(h: int, c: int)
    requires 0 <= h * 16 + c < TWO28
    ensures ElfTurn(h, c) == h * 16 + c
  {
    var v := h * 16 + c;
    DivModUnique(v, TWO64, 0, v);
    MixSmall(v);
  }

  lemma FoldNext(turn: (int, int) -> int, cs: seq<int>, k: nat)
    requires k < |cs|
    ensures Fold(turn, cs[..k + 1]) == turn(Fold(turn, cs[..k]), cs[k])
  {
    assert cs[..k + 1][..k] == cs[..k];
  }

  lemma XorElevenSeven()
    ensures XorNibble(11, 7) == 12
  {
    assert Pow2(4) == 16;
    forall i: nat | i < 4
      ensures Bit(XorNibble(11, 7), i) == Bit(12, i)
    {
      XorNibbleBit(11, 7, i);
    }
    SameBits(4, XorNibble(11, 7), 12);
  }

  lemma SeventhTurn()
    ensures ElfTurn(0x7a5_a1c4, 115) == 0x0a5a_1cc3
  {
    Parts(0x7a5a_1cb3, 0, 7, 0xa_5a1c, 11, 3);
    XorElevenSeven();
  }

  /** A known answer: the seventh character of "sockets" is the first to be folded. */
  lemma SocketsHash()
    ensures ElfHash([115, 111, 99, 107, 101, 116, 115]) == 0x0a5a_1cc3
  {
    var s: seq<Byte> := [115, 111, 99, 107, 101, 116, 115];
    var cs := Signed(s);
    ShortTurn(0, 115);
    ShortTurn(0x73, 111);
    ShortTurn(0x79f, 99);
    ShortTurn(0x7a53, 107);
    ShortTurn(0x7_a59b, 101);
    ShortTurn(0x7a_5a15, 116);
    SeventhTurn();
    FoldNext(ElfTurn, cs, 0);
    FoldNext(ElfTurn, cs, 1);
    FoldNext(ElfTurn, cs, 2);
    FoldNext(ElfTurn, cs, 3);
    FoldNext(ElfTurn, cs, 4);
    FoldNext(ElfTurn, cs, 5);
    FoldNext(ElfTurn, cs, 6);
    assert cs[..7] == cs;
  }

  lemma MixKeepsBit8()
    ensures KeepsBit8(Mix)
  {
    forall v
      ensures Mix(v) / TWO8 % 2 == v / TWO8 % 2
    {
      MixBit8(v);
    }
  }

  /** Bit 8 survives mixing. */
  lemma MixBit8(v: int)
    ensures Mix(v) / TWO8 % 2 == v / TWO8 % 2
  {
    var a, n, c, m, d := TakeApart(v);
    Parts(v, a, n, c, m, d);
    DivModUnique(v, TWO8, a * 0x100_0000 + n * 0x10_0000 + c, m * 16 + d);
    DivModUnique(Mix(v), TWO8, a * 0x100_0000 + c, XorNibble(m, n) * 16 + d);
    Even(a * 0x80_0000 + n * 0x8_0000, c);
    Even(a * 0x80_0000, c);
  }

  lemma Even(q: int, c: int)
    ensures (2 * q + c) % 2 == c % 2
  {
  }

  lemma BorrowFlipsBit8(v: int)
    ensures (v - 256) % TWO32 / TWO8 % 2 != v % TWO32 / TWO8 % 2
  {
    var q, r := v / TWO32, v % TWO32;
    if r >= 256 {
      DivModUnique(v - 256, TWO32, q, r - 256);
    } else {
      DivModUnique(v - 256, TWO32, q - 1, r - 256 + TWO32);
    }
  }

  /** Adding c - 256 in place of c shows in the mixed word. */
  lemma MixedDiffers(mix: int -> int, v: int)
    requires KeepsBit8(mix)
    ensures mix((v - 256) % TWO32) != mix(v % TWO32)
  {
    BorrowFlipsBit8(v);
    var x, y := (v - 256) % TWO32, v % TWO32;
    assert mix(x) / TWO8 % 2 == x / TWO8 % 2 && mix(y) / TWO8 % 2 == y / TWO8 % 2;
  }

  lemma TurnDiffers(h: int, b: int)
    ensures AbiTurn(h, b - 256) != AbiTurn(h, b)
  {
    MixKeepsBit8();
    MixedDiffers(Mix, h * 16 + b);
    AbiTurnIs(h, b - 256);
    AbiTurnIs(h, b);
  }

  /** The first byte of 128 or more makes the two hashes differ: its sign is extended here and not there. */
  lemma FirstHighByte(s: seq<Byte>, b: Byte)
    requires forall i | 0 <= i < |s| :: s[i] < 128
    ensures ElfHash(s + [b]) % TWO32 == AbiHash(s + [b]) <==> b < 128
  {
    if b < 128 {
      AsciiIsAbi(s + [b]);
    } else {
      var cs: seq<int> := s;
      assert Signed(s + [b]) == cs + [b - 256];
      LoopTruncates(cs + [b - 256]);
      TurnDiffers(Fold(AbiTurn, cs), b);
      assert (cs + [b - 256])[..|cs|] == cs && (cs + [b])[..|cs|] == cs;
    }
  }
}
