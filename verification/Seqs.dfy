/** Sequence vocabulary shared by every layer of the model. */
module Seqs {

  datatype Option<+T> = None | Some(value: T)

  /** The sequence without its element at position i. */
  function RemoveAt<T>(s: seq<T>, i: nat): (r: seq<T>)
    requires i < |s|
    ensures |r| == |s| - 1
  {
    s[..i] + s[i + 1..]
  }

  lemma SliceHead<T>(s: seq<T>, i: nat)
    requires i < |s|
    ensures s[i..] == [s[i]] + s[i + 1..]
  {
  }

  lemma HeadThenRest<T>(s: seq<T>, i: nat, rest: seq<T>)
    requires i < |s|
    ensures s[i..] + rest == [s[i]] + (s[i + 1..] + rest)
  {
    SliceHead(s, i);
    Assoc([s[i]], s[i + 1..], rest);
  }

  lemma LastThenRest<T>(s: seq<T>, i: nat, rest: seq<T>)
    requires i + 1 == |s|
    ensures s[i..] + rest == [s[i]] + rest
  {
    assert s[i..] == [s[i]];
  }

  lemma SplitInside<T>(l: seq<T>, c: seq<T>, r: seq<T>, i: nat)
    requires i <= |c|
    ensures l + c + r == (l + c[..i]) + (c[i..] + r)
  {
    assert c == c[..i] + c[i..];
    Assoc(l, c[..i], c[i..]);
    Assoc(l + c[..i], c[i..], r);
  }

  lemma UpdateBehind<T>(s: seq<T>, i: nat, x: T, j: nat)
    requires i < j <= |s|
    ensures s[i := x][j..] == s[j..]
  {
  }

  lemma RemoveAtBehind<T>(s: seq<T>, i: nat)
    requires i < |s|
    ensures RemoveAt(s, i)[i..] == s[i + 1..]
  {
  }

  /** Slices of a prefix. */
  lemma PrefixSlices<T>(s: seq<T>, n: nat, b: nat, e: nat)
    requires b <= e <= n <= |s|
    ensures s[..n][..b] == s[..b] && s[..n][b..e] == s[b..e] && s[..n][e..] == s[e..n]
  {
  }

  lemma SplitThree<T>(s: seq<T>, b: nat, e: nat)
    requires b <= e <= |s|
    ensures s == s[..b] + s[b..e] + s[e..]
  {
  }

  lemma Assoc<T>(a: seq<T>, b: seq<T>, c: seq<T>)
    ensures (a + b) + c == a + (b + c)
  {
  }

  lemma CountSum<T>(a: seq<T>, b: seq<T>, x: T)
    ensures multiset(a + b)[x] == multiset(a)[x] + multiset(b)[x]
  {
  }

  lemma RemoveInside<T>(s: seq<T>, s': seq<T>, l: seq<T>, c: seq<T>, r: seq<T>, i: nat)
    requires i < |c| && s == l + c + r && s' == l + RemoveAt(c, i) + r
    ensures s' == RemoveAt(s, |l| + i)
  {
  }

  lemma PrefixSnoc<T>(a: seq<T>, x: T, s: seq<T>)
    requires a <= s && |a| < |s| && s[|a|] == x
    ensures a + [x] <= s
  {
  }

  /** Position of the first element that satisfies p, or |s| when there is none. */
  function FirstIndex<T>(s: seq<T>, p: T -> bool): (r: nat)
    ensures r <= |s|
    ensures r < |s| ==> p(s[r])
    ensures forall j | 0 <= j < r :: !p(s[j])
  {
    if s == [] then 0
    else if p(s[0]) then 0
    else 1 + FirstIndex(s[1..], p)
  }

  lemma FirstIndexIs<T>(s: seq<T>, p: T -> bool, i: nat)
    requires i <= |s| && (forall j | 0 <= j < i :: !p(s[j])) && (i < |s| ==> p(s[i]))
    ensures FirstIndex(s, p) == i
  {
  }

  /** Position of the first occurrence of x, or |s| when there is none. */
  function IndexOf<T(==)>(s: seq<T>, x: T): (r: nat)
    ensures r <= |s|
    ensures r < |s| ==> s[r] == x
    ensures forall j | 0 <= j < r :: s[j] != x
  {
    FirstIndex(s, y => y == x)
  }

  /** The elements that satisfy p, in order. */
  function Filter<T>(s: seq<T>, p: T -> bool): (r: seq<T>)
  {
    if s == [] then []
    else (if p(s[0]) then [s[0]] else []) + Filter(s[1..], p)
  }

  lemma {:induction false} FilterSnoc<T>(s: seq<T>, x: T, p: T -> bool)
    ensures Filter(s + [x], p) == Filter(s, p) + if p(x) then [x] else []
  {
    if s == [] {
      assert [] + [x] == [x];
    } else {
      assert (s + [x])[1..] == s[1..] + [x];
      FilterSnoc(s[1..], x, p);
      Assoc(if p(s[0]) then [s[0]] else [], Filter(s[1..], p), if p(x) then [x] else []);
    }
  }

  lemma CountHead<T>(s: seq<T>, x: T)
    requires s != []
    ensures multiset(s)[x] == (if s[0] == x then 1 else 0) + multiset(s[1..])[x]
  {
    assert s == [s[0]] + s[1..];
  }

  lemma DivModUnique(a: int, n: nat, q: int, r: int)
    requires 0 < n && 0 <= r < n && a == q * n + r
    ensures a % n == r && a / n == q
  {
    var d := q - a / n;
    assert d * n == a % n - r;
    assert d >= 1 ==> d * n >= n;
    assert d <= -1 ==> d * n + n <= 0;
  }

  lemma StepMod(k: nat, n: nat)
    requires 0 < n
    ensures (k + 1) % n == if k % n + 1 == n then 0 else k % n + 1
  {
    var q, r := k / n, k % n;
    if r + 1 == n {
      DivModUnique(k + 1, n, q + 1, 0);
    } else {
      DivModUnique(k + 1, n, q, r + 1);
    }
  }

  /** What a walk over s leaves when it erases its k-th element exactly if choose(n + k). */
  function Kept<T>(s: seq<T>, choose: nat -> bool, n: nat): seq<T> {
    if s == [] then [] else (if choose(n) then [] else [s[0]]) + Kept(s[1..], choose, n + 1)
  }

  lemma KeptCons<T>(x: T, s: seq<T>, choose: nat -> bool, n: nat)
    ensures Kept([x] + s, choose, n) == (if choose(n) then [] else [x]) + Kept(s, choose, n + 1)
  {
    assert ([x] + s)[1..] == s;
  }

  /** What such a walk erases. */
  function Erased<T>(s: seq<T>, choose: nat -> bool, n: nat): seq<T> {
    if s == [] then [] else (if choose(n) then [s[0]] else []) + Erased(s[1..], choose, n + 1)
  }

  lemma {:induction false} KeptSnoc<T>(s: seq<T>, x: T, choose: nat -> bool, n: nat)
    ensures Kept(s + [x], choose, n) == Kept(s, choose, n) + if choose(n + |s|) then [] else [x]
  {
    if s == [] {
      assert s + [x] == [x];
    } else {
      assert (s + [x])[1..] == s[1..] + [x];
      KeptSnoc(s[1..], x, choose, n + 1);
      Assoc(if choose(n) then [] else [s[0]], Kept(s[1..], choose, n + 1), if choose(n + |s|) then [] else [x]);
    }
  }

  lemma {:induction false} ErasedSnoc<T>(s: seq<T>, x: T, choose: nat -> bool, n: nat)
    ensures Erased(s + [x], choose, n) == Erased(s, choose, n) + if choose(n + |s|) then [x] else []
  {
    if s == [] {
      assert s + [x] == [x];
    } else {
      assert (s + [x])[1..] == s[1..] + [x];
      ErasedSnoc(s[1..], x, choose, n + 1);
      Assoc(if choose(n) then [s[0]] else [], Erased(s[1..], choose, n + 1), if choose(n + |s|) then [x] else []);
    }
  }
}
