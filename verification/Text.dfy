/** Trimming a string in its own buffer. */
module Text {
  import opened Seqs
  import opened Elf

  predicate Blank(b: Byte) { b == 32 || b == 9 }

  predicate Solid(b: Byte) { !Blank(b) }

  predicate HasSolid(s: seq<Byte>) { exists i | 0 <= i < |s| :: Solid(s[i]) }

  /** Position after the last character that is neither space nor tab. */
  function SolidEnd(s: seq<Byte>): (e: nat)
    ensures e <= |s|
    ensures e > 0 ==> Solid(s[e - 1])
    ensures forall i | e <= i < |s| :: Blank(s[i])
  {
    if s == [] then 0 else if Solid(s[|s| - 1]) then |s| else SolidEnd(s[..|s| - 1])
  }

  /** From the first to the last character that is neither space nor tab. */
  function Trimmed(s: seq<Byte>): seq<Byte> {
    var h, e := FirstIndex(s, Solid), SolidEnd(s);
    if h < e then s[h..e] else []
  }

  function StrLen(s: seq<Byte>): nat {
    FirstIndex(s, (b: Byte) => b == 0)
  }

  /** A string: `len` characters in a buffer, then a terminator. */
  class Str {
    const ptr: array<Byte>
    var len: nat

    ghost predicate Valid()
      reads this, ptr
    {
      len < ptr.Length && ptr[len] == 0
    }

    ghost function Chars(): seq<Byte>
      requires Valid()
      reads this, ptr
    {
      ptr[..len]
    }

    constructor (s: seq<Byte>)
      ensures Valid() && fresh(ptr) && Chars() == s
    {
      ptr := new Byte[|s| + 1](i => if 0 <= i < |s| then s[i] else 0);
      len := |s|;
    }

    /** mcl_trim. The forward copy may overlap its source. */
    method Trim()
      requires Valid() && HasSolid(Chars())
      modifies this, ptr
      ensures Valid()
      ensures var t := Trimmed(old(Chars()));
              && ptr[..|t|] == t && ptr[|t|] == 0
              && len == StrLen(t) && Chars() == t[..len]
    {
      ghost var was := Chars();
      var head, tail := Ends();
      TrimmedIs(was, head, tail + 1);
      assert ptr[head..tail + 1] == was[head..tail + 1];
      CopyDown(head, tail);
      len := ScanLen(Trimmed(was));
    }

    /** The first and the last solid character. */
    method Ends() returns (head: nat, tail: nat)
      requires Valid() && HasSolid(Chars())
      ensures head <= tail < len && Solid(ptr[head]) && Solid(ptr[tail])
      ensures forall i | 0 <= i < head || tail < i < len :: Blank(ptr[i])
    {
      ghost var k :| 0 <= k < len && Solid(Chars()[k]);
      head := 0;
      while Blank(ptr[head])
        invariant 0 <= head <= k
        invariant forall i | 0 <= i < head :: Blank(ptr[i])
        decreases len - head
      {
        head := head + 1;
      }
      tail := len - 1;
      while Blank(ptr[tail])
        invariant k <= tail < len
        invariant forall i | tail < i < len :: Blank(ptr[i])
        decreases tail
      {
        tail := tail - 1;
      }
    }

    /** Moves [head, tail] to the front and terminates it. */
    method CopyDown(head: nat, tail: nat)
      requires head <= tail < ptr.Length - 1
      modifies ptr
      ensures ptr[..tail + 1 - head] == old(ptr[head..tail + 1]) && ptr[tail + 1 - head] == 0
    {
      ghost var was := ptr[..];
      var src, from := 0, head;
      while from <= tail
        invariant head <= from <= tail + 1 && src == from - head
        invariant forall i | 0 <= i < src :: ptr[i] == was[head + i]
        invariant forall i | from <= i < ptr.Length :: ptr[i] == was[i]
      {
        ptr[src] := ptr[from];
        src, from := src + 1, from + 1;
      }
      ptr[src] := 0;
    }

    /** strlen on the buffer. */
    method ScanLen(ghost t: seq<Byte>) returns (n: nat)
      requires |t| < ptr.Length && ptr[..|t|] == t && ptr[|t|] == 0
      ensures n == StrLen(t) && ptr[n] == 0
    {
      n := 0;
      while ptr[n] != 0
        invariant 0 <= n <= |t|
        invariant forall i | 0 <= i < n :: t[i] != 0
        decreases |t| - n
      {
        assert ptr[n] == t[n];
        n := n + 1;
      }
      assert n < |t| ==> t[n] == ptr[n];
    }
  }

  /** Spaces (32) and tabs (9), then a part that begins and ends with another character, then spaces and tabs: that
      part is the trim. */
  lemma TrimmedIs(s: seq<Byte>, h: nat, e: nat)
    requires h < e <= |s| && s[h] !in {32, 9} && s[e - 1] !in {32, 9}
    requires forall i | 0 <= i < h || e <= i < |s| :: s[i] in {32, 9}
    ensures Trimmed(s) == s[h..e]
  {
  }

  /** Trimming again changes nothing, and what is left has a solid character at each end. */
  lemma TrimmedTwice(s: seq<Byte>)
    requires HasSolid(s)
    ensures var t := Trimmed(s);
            && t != [] && Solid(t[0]) && Solid(t[|t| - 1])
            && Trimmed(t) == t
  {
  }

  /** The length that is kept ends before the first NUL; it is the whole trim exactly when no NUL is inside it. */
  lemma WholeTrim(t: seq<Byte>)
    ensures StrLen(t) <= |t| && 0 !in t[..StrLen(t)] && (StrLen(t) < |t| ==> t[StrLen(t)] == 0)
    ensures StrLen(t) == |t| <==> 0 !in t
  {
  }
}
