/** What a chained hash table holds, as a value: the chains in bucket order. A bucket whose list was
    never created and a bucket whose list is empty look the same here; the heap model tells them apart. */
module Chains {
  import opened Seqs
  import opened Lists

  const BUCKETS: nat := 1021

  datatype Pair<K, V> = Pair(key: K, val: V)

  type Chain<K, V> = seq<Pair<K, V>>
  type Table<K, V> = seq<Chain<K, V>>

  predicate Available(hash: int) {
    0 <= hash < BUCKETS
  }

  /** Position of the pair with key k, or the length of the chain. */
  function KeyIndex<K(==), V>(c: Chain<K, V>, k: K): (i: nat)
    ensures i <= |c|
    ensures i < |c| ==> c[i].key == k
    ensures forall j | 0 <= j < i :: c[j].key != k
  {
    FirstIndex(c, (p: Pair<K, V>) => p.key == k)
  }

  /** A chain of bucket b: bounded, every key belongs to b, no key twice. */
  ghost predicate ChainOk<K, V>(h: K -> int, b: int, c: Chain<K, V>) {
    && |c| <= MAX_SIZE
    && (forall i | 0 <= i < |c| :: h(c[i].key) == b)
    && (forall i, j | 0 <= i < j < |c| :: c[i].key != c[j].key)
  }

  ghost predicate TableOk<K, V>(h: K -> int, t: Table<K, V>) {
    |t| == BUCKETS && forall b | 0 <= b < BUCKETS :: ChainOk(h, b, t[b])
  }

  function EmptyTable<K, V>(): Table<K, V> {
    seq(BUCKETS, _ => [])
  }

  function Lookup<K(==), V>(h: K -> int, t: Table<K, V>, k: K): Option<V>
    requires |t| == BUCKETS
  {
    if !Available(h(k)) then None
    else
      var c := t[h(k)];
      var i := KeyIndex(c, k);
      if i < |c| then Some(c[i].val) else None
  }

  /** The result of an update: the new table, the return value, the values of the pairs destroyed. */
  datatype Update<K, V> = Update(table: Table<K, V>, ok: bool, dropped: seq<V>)

  /** What an insertion does to the chain of its key. */
  function PutChain<K(==), V>(c: Chain<K, V>, p: Pair<K, V>, replace: bool): (Chain<K, V>, bool, seq<V>) {
    var i := KeyIndex(c, p.key);
    if i < |c| && !replace then (c, false, [])
    else
      var (c', dropped) := if i < |c| then (RemoveAt(c, i), [c[i].val]) else (c, []);
      if |c'| < MAX_SIZE then ([p] + c', true, dropped) else (c', false, dropped)
  }

  /** hash_insert: a NULL value, a refused hash or a full chain is turned down. */
  function Put<K(==), V>(h: K -> int, t: Table<K, V>, k: K, v: Option<V>, replace: bool): Update<K, V>
    requires |t| == BUCKETS
  {
    if v == None || !Available(h(k)) then Update(t, false, [])
    else
      var (c, ok, dropped) := PutChain(t[h(k)], Pair(k, v.value), replace);
      Update(t[h(k) := c], ok, dropped)
  }

  function Remove<K(==), V>(h: K -> int, t: Table<K, V>, k: K): Update<K, V>
    requires |t| == BUCKETS
  {
    if !Available(h(k)) then Update(t, false, [])
    else
      var c := t[h(k)];
      var i := KeyIndex(c, k);
      if i < |c| then Update(t[h(k) := RemoveAt(c, i)], true, [c[i].val]) else Update(t, false, [])
  }

  /** All pairs in bucket order: the order of a walk. */
  function Flatten<K, V>(t: Table<K, V>): seq<Pair<K, V>> {
    if t == [] then [] else t[0] + Flatten(t[1..])
  }

  function Vals<K, V>(c: Chain<K, V>): seq<V> {
    seq(|c|, i requires 0 <= i < |c| => c[i].val)
  }

  // ------------------------------------------------------------------ walking

  datatype Pos = End | At(b: nat, i: nat)

  predicate OnTable<K, V>(t: Table<K, V>, pos: Pos) {
    pos.At? ==> pos.b < |t| && pos.i < |t[pos.b]|
  }

  /** The first pair of the first non-empty bucket from b on. */
  function FirstFrom<K, V>(t: Table<K, V>, b: nat): (pos: Pos)
    requires b <= |t|
    ensures OnTable(t, pos)
    ensures pos.At? ==> b <= pos.b && pos.i == 0
    ensures forall c | b <= c < (if pos.At? then pos.b else |t|) :: t[c] == []
    decreases |t| - b
  {
    if b == |t| then End else if t[b] != [] then At(b, 0) else FirstFrom(t, b + 1)
  }

  lemma {:induction false} FirstFromIs<K, V>(t: Table<K, V>, b: nat, i: nat)
    requires b <= i <= |t| && (forall c | b <= c < i :: t[c] == []) && (i < |t| ==> t[i] != [])
    ensures FirstFrom(t, b) == if i < |t| then At(i, 0) else End
    decreases i - b
  {
  }

  function NextPos<K, V>(t: Table<K, V>, pos: Pos): (next: Pos)
    requires OnTable(t, pos)
    ensures OnTable(t, next)
  {
    match pos
    case End => End
    case At(b, i) => if i + 1 < |t[b]| then At(b, i + 1) else FirstFrom(t, b + 1)
  }

  function EraseAt<K, V>(t: Table<K, V>, pos: Pos): Table<K, V>
    requires OnTable(t, pos) && pos.At?
  {
    t[pos.b := RemoveAt(t[pos.b], pos.i)]
  }

  /** Where the iterator stands after erasing: on the pair that followed, one place lower if that pair
      is in the same chain. */
  function ErasePos<K, V>(t: Table<K, V>, pos: Pos): (next: Pos)
    requires OnTable(t, pos) && pos.At?
    ensures OnTable(EraseAt(t, pos), next)
  {
    var next := NextPos(t, pos);
    if next.At? && next.b == pos.b then pos else next
  }

  /** The pairs a walk from pos has still to visit. */
  function Remaining<K, V>(t: Table<K, V>, pos: Pos): seq<Pair<K, V>>
    requires OnTable(t, pos)
  {
    match pos
    case End => []
    case At(b, i) => t[b][i..] + Flatten(t[b + 1..])
  }

  /** A walk that erases the n-th visited pair when choose(n), and steps otherwise. */
  function Walk<K, V>(t: Table<K, V>, pos: Pos, choose: nat -> bool, n: nat): (r: (seq<Pair<K, V>>, Table<K, V>))
    requires OnTable(t, pos)
    decreases |Remaining(t, pos)|
  {
    match pos
    case End => ([], t)
    case At(b, i) =>
      RemainingSteps(t, pos);
      if choose(n) then
        var (visited, final) := Walk(EraseAt(t, pos), ErasePos(t, pos), choose, n + 1);
        ([t[b][i]] + visited, final)
      else
        var (visited, final) := Walk(t, NextPos(t, pos), choose, n + 1);
        ([t[b][i]] + visited, final)
  }

  // ------------------------------------------------------------------ lemmas

  lemma {:induction false} FlattenSplit<K, V>(t: Table<K, V>, b: nat)
    requires b <= |t|
    ensures Flatten(t) == Flatten(t[..b]) + Flatten(t[b..])
  {
    if b == 0 {
      assert t[..0] == [] && t[0..] == t;
    } else {
      FlattenSplit(t[1..], b - 1);
      assert t[..b][1..] == t[1..][..b - 1];
      assert t[1..][b - 1..] == t[b..];
    }
  }

  lemma FlattenSnoc<K, V>(t: Table<K, V>, b: nat)
    requires b < |t|
    ensures Flatten(t[..b + 1]) == Flatten(t[..b]) + t[b]
    ensures Vals(Flatten(t[..b + 1])) == Vals(Flatten(t[..b])) + Vals(t[b])
  {
    FlattenSplit(t[..b + 1], b);
    assert t[..b + 1][..b] == t[..b] && t[..b + 1][b..] == [t[b]];
    assert Flatten([t[b]]) == t[b];
  }

  /** Flatten, seen from one bucket. */
  lemma FlattenAt<K, V>(t: Table<K, V>, b: nat)
    requires b < |t|
    ensures Flatten(t) == Flatten(t[..b]) + t[b] + Flatten(t[b + 1..])
  {
    FlattenSplit(t, b);
    assert t[b..][1..] == t[b + 1..];
  }

  lemma FlattenUpdate<K, V>(t: Table<K, V>, b: nat, c: Chain<K, V>)
    requires b < |t|
    ensures Flatten(t[b := c]) == Flatten(t[..b]) + c + Flatten(t[b + 1..])
  {
    var t' := t[b := c];
    FlattenAt(t', b);
    assert t'[..b] == t[..b] && t'[b + 1..] == t[b + 1..];
  }

  lemma {:induction false} FirstFromRemaining<K, V>(t: Table<K, V>, b: nat)
    requires b <= |t|
    ensures Remaining(t, FirstFrom(t, b)) == Flatten(t[b..])
    decreases |t| - b
  {
    if b < |t| {
      assert t[b..][1..] == t[b + 1..];
      if t[b] == [] {
        FirstFromRemaining(t, b + 1);
      } else {
        assert t[b][0..] == t[b];
      }
    }
  }

  lemma NextInside<K, V>(t: Table<K, V>, b: nat, i: nat)
    requires b < |t| && i + 1 < |t[b]|
    ensures Remaining(t, At(b, i)) == [t[b][i]] + Remaining(t, At(b, i + 1))
  {
    HeadThenRest(t[b], i, Flatten(t[b + 1..]));
  }

  lemma NextAcross<K, V>(t: Table<K, V>, b: nat, i: nat)
    requires b < |t| && i + 1 == |t[b]|
    ensures Remaining(t, At(b, i)) == [t[b][i]] + Remaining(t, FirstFrom(t, b + 1))
  {
    LastThenRest(t[b], i, Flatten(t[b + 1..]));
    FirstFromRemaining(t, b + 1);
  }

  lemma RemainingNext<K, V>(t: Table<K, V>, pos: Pos)
    requires OnTable(t, pos) && pos.At?
    ensures Remaining(t, pos) == [t[pos.b][pos.i]] + Remaining(t, NextPos(t, pos))
  {
    var At(b, i) := pos;
    if i + 1 < |t[b]| {
      NextInside(t, b, i);
      assert NextPos(t, pos) == At(b, i + 1);
    } else {
      NextAcross(t, b, i);
      assert NextPos(t, pos) == FirstFrom(t, b + 1);
    }
  }

  lemma EraseInside<K, V>(t: Table<K, V>, b: nat, i: nat)
    requires b < |t| && i + 1 < |t[b]|
    ensures Remaining(EraseAt(t, At(b, i)), At(b, i)) == Remaining(t, At(b, i + 1))
  {
    UpdateBehind(t, b, RemoveAt(t[b], i), b + 1);
    RemoveAtBehind(t[b], i);
  }

  lemma RemainingUpdate<K, V>(t: Table<K, V>, b: nat, c: Chain<K, V>, pos: Pos)
    requires b < |t| && OnTable(t, pos) && pos.At? && b < pos.b
    ensures Remaining(t[b := c], pos) == Remaining(t, pos)
  {
    UpdateBehind(t, b, c, pos.b + 1);
  }

  lemma RemainingErase<K, V>(t: Table<K, V>, pos: Pos)
    requires OnTable(t, pos) && pos.At?
    ensures Remaining(EraseAt(t, pos), ErasePos(t, pos)) == Remaining(t, NextPos(t, pos))
  {
    var At(b, i) := pos;
    if i + 1 < |t[b]| {
      EraseInside(t, b, i);
    } else {
      var next := FirstFrom(t, b + 1);
      if next.At? {
        RemainingUpdate(t, b, RemoveAt(t[b], i), next);
      }
    }
  }

  /** Stepping and erasing both leave exactly the rest of the walk ahead. */
  lemma RemainingSteps<K, V>(t: Table<K, V>, pos: Pos)
    requires OnTable(t, pos) && pos.At?
    ensures Remaining(t, pos) == [t[pos.b][pos.i]] + Remaining(t, NextPos(t, pos))
    ensures Remaining(EraseAt(t, pos), ErasePos(t, pos)) == Remaining(t, NextPos(t, pos))
  {
    RemainingNext(t, pos);
    RemainingErase(t, pos);
  }

  /** The pairs a walk at pos has already passed. */
  function Passed<K, V>(t: Table<K, V>, pos: Pos): seq<Pair<K, V>>
    requires OnTable(t, pos)
  {
    match pos
    case End => Flatten(t)
    case At(b, i) => Flatten(t[..b]) + t[b][..i]
  }

  lemma PassedAndRemaining<K, V>(t: Table<K, V>, pos: Pos)
    requires OnTable(t, pos)
    ensures Flatten(t) == Passed(t, pos) + Remaining(t, pos)
  {
    if pos.At? {
      FlattenAt(t, pos.b);
      SplitInside(Flatten(t[..pos.b]), t[pos.b], Flatten(t[pos.b + 1..]), pos.i);
    }
  }

  /** Stepping leaves the visited pair behind. */
  lemma PassedNext<K, V>(t: Table<K, V>, pos: Pos)
    requires OnTable(t, pos) && pos.At?
    ensures Passed(t, NextPos(t, pos)) == Passed(t, pos) + [t[pos.b][pos.i]]
  {
    var next := NextPos(t, pos);
    RemainingSteps(t, pos);
    PassedAndRemaining(t, pos);
    PassedAndRemaining(t, next);
    var rest := Remaining(t, next);
    Assoc(Passed(t, pos), [t[pos.b][pos.i]], rest);
    SameSuffix(Passed(t, next), Passed(t, pos) + [t[pos.b][pos.i]], rest);
  }

  /** Erasing leaves nothing behind. */
  lemma PassedErase<K, V>(t: Table<K, V>, pos: Pos)
    requires OnTable(t, pos) && pos.At?
    ensures Passed(EraseAt(t, pos), ErasePos(t, pos)) == Passed(t, pos)
  {
    var t', next' := EraseAt(t, pos), ErasePos(t, pos);
    var rest := Remaining(t', next');
    RemainingSteps(t, pos);
    PassedAndRemaining(t, pos);
    PassedAndRemaining(t', next');
    FlattenErase(t, pos);
    Assoc(Passed(t, pos), [t[pos.b][pos.i]], rest);
    SameSuffix(Passed(t', next'), Passed(t, pos), rest);
  }

  lemma PassedSize<K, V>(t: Table<K, V>, pos: Pos)
    requires OnTable(t, pos) && pos.At?
    ensures |Passed(t, pos)| == |Flatten(t[..pos.b])| + pos.i < |Flatten(t)|
  {
    FlattenAt(t, pos.b);
  }

  lemma FlattenEraseAt<K, V>(t: Table<K, V>, b: nat, i: nat, n: nat)
    requires b < |t| && i < |t[b]| && n == |Flatten(t[..b])| + i
    ensures n < |Flatten(t)| && Flatten(t[b := RemoveAt(t[b], i)]) == RemoveAt(Flatten(t), n)
  {
    var c := RemoveAt(t[b], i);
    FlattenAt(t, b);
    FlattenUpdate(t, b, c);
    RemoveInside(Flatten(t), Flatten(t[b := c]), Flatten(t[..b]), t[b], Flatten(t[b + 1..]), i);
  }

  /** Erasing takes one pair out of the order of the walk. */
  lemma FlattenErase<K, V>(t: Table<K, V>, pos: Pos)
    requires OnTable(t, pos) && pos.At?
    ensures |Passed(t, pos)| < |Flatten(t)|
    ensures Flatten(EraseAt(t, pos)) == RemoveAt(Flatten(t), |Passed(t, pos)|)
  {
    PassedSize(t, pos);
    FlattenEraseAt(t, pos.b, pos.i, |Passed(t, pos)|);
  }

  lemma SameSuffix<T>(a: seq<T>, b: seq<T>, s: seq<T>)
    requires a + s == b + s
    ensures a == b
  {
    assert |a| == |b|;
    assert a == (a + s)[..|a|] && b == (b + s)[..|b|];
  }

  /** At the head of the table nothing has been passed and everything lies ahead. */
  lemma FirstFromPassed<K, V>(t: Table<K, V>)
    ensures Remaining(t, FirstFrom(t, 0)) == Flatten(t) && Passed(t, FirstFrom(t, 0)) == []
  {
    FirstFromRemaining(t, 0);
    assert t[0..] == t;
    PassedAndRemaining(t, FirstFrom(t, 0));
    SameSuffix(Passed(t, FirstFrom(t, 0)), [], Flatten(t));
  }

  lemma EraseKeepsOk<K, V>(h: K -> int, t: Table<K, V>, pos: Pos)
    requires TableOk(h, t) && OnTable(t, pos) && pos.At?
    ensures TableOk(h, EraseAt(t, pos))
  {
  }

  /** Stepping moves the visited pair from what lies ahead and is kept to what was passed. */
  lemma StepKeeps<K, V>(t: Table<K, V>, pos: Pos, choose: nat -> bool, n: nat)
    requires OnTable(t, pos) && pos.At? && !choose(n)
    ensures Passed(t, NextPos(t, pos)) + Kept(Remaining(t, NextPos(t, pos)), choose, n + 1)
         == Passed(t, pos) + Kept(Remaining(t, pos), choose, n)
  {
    var p, rest := t[pos.b][pos.i], Remaining(t, NextPos(t, pos));
    RemainingSteps(t, pos);
    KeptCons(p, rest, choose, n);
    PassedNext(t, pos);
    Assoc(Passed(t, pos), [p], Kept(rest, choose, n + 1));
  }

  /** Erasing the visited pair changes neither what was passed nor what is kept of the rest. */
  lemma EraseKeeps<K, V>(t: Table<K, V>, pos: Pos, choose: nat -> bool, n: nat)
    requires OnTable(t, pos) && pos.At? && choose(n)
    ensures Passed(EraseAt(t, pos), ErasePos(t, pos))
         + Kept(Remaining(EraseAt(t, pos), ErasePos(t, pos)), choose, n + 1)
         == Passed(t, pos) + Kept(Remaining(t, pos), choose, n)
  {
    RemainingSteps(t, pos);
    KeptCons(t[pos.b][pos.i], Remaining(t, NextPos(t, pos)), choose, n);
    PassedErase(t, pos);
  }

  /** Whatever is erased on the way, the walk visits exactly the pairs that lay ahead when it started,
      in order, and leaves exactly those that were not erased. */
  lemma {:induction false} WalkVisitsAll<K, V>(t: Table<K, V>, pos: Pos, choose: nat -> bool, n: nat)
    requires OnTable(t, pos)
    ensures var (visited, final) := Walk(t, pos, choose, n);
            && visited == Remaining(t, pos)
            && Flatten(final) == Passed(t, pos) + Kept(Remaining(t, pos), choose, n)
    decreases |Remaining(t, pos)|
  {
    if pos.End? {
      PassedAndRemaining(t, pos);
    } else {
      RemainingSteps(t, pos);
      if choose(n) {
        EraseKeeps(t, pos, choose, n);
        WalkVisitsAll(EraseAt(t, pos), ErasePos(t, pos), choose, n + 1);
      } else {
        StepKeeps(t, pos, choose, n);
        WalkVisitsAll(t, NextPos(t, pos), choose, n + 1);
      }
    }
  }

  lemma {:induction false} WalkKeepsOk<K, V>(h: K -> int, t: Table<K, V>, pos: Pos, choose: nat -> bool, n: nat)
    requires TableOk(h, t) && OnTable(t, pos)
    ensures TableOk(h, Walk(t, pos, choose, n).1)
    decreases |Remaining(t, pos)|
  {
    if pos.At? {
      RemainingSteps(t, pos);
      if choose(n) {
        EraseKeepsOk(h, t, pos);
        WalkKeepsOk(h, EraseAt(t, pos), ErasePos(t, pos), choose, n + 1);
      } else {
        WalkKeepsOk(h, t, NextPos(t, pos), choose, n + 1);
      }
    }
  }

  /** The walk from the head of the table. */
  lemma WalkFromHead<K, V>(h: K -> int, t: Table<K, V>, choose: nat -> bool)
    requires TableOk(h, t)
    ensures var (visited, final) := Walk(t, FirstFrom(t, 0), choose, 0);
            && visited == Flatten(t) && DistinctKeys(visited)
            && TableOk(h, final) && Flatten(final) == Kept(Flatten(t), choose, 0)
  {
    var pos := FirstFrom(t, 0);
    WalkVisitsAll(t, pos, choose, 0);
    WalkKeepsOk(h, t, pos, choose, 0);
    FirstFromPassed(t);
    assert t[0..] == t;
    FlattenDistinct(h, t, 0);
  }

  ghost predicate DistinctKeys<K, V>(s: seq<Pair<K, V>>) {
    forall i, j | 0 <= i < j < |s| :: s[i].key != s[j].key
  }

  /** A pair is met on the walk exactly when some chain holds it; from bucket b on, its bucket is at least b. */
  lemma {:induction false} InFlatten<K, V>(h: K -> int, t: Table<K, V>, b: nat, p: Pair<K, V>)
    requires TableOk(h, t) && b <= BUCKETS
    ensures p in Flatten(t[b..]) <==> b <= h(p.key) < BUCKETS && p in t[h(p.key)]
    decreases BUCKETS - b
  {
    if b < BUCKETS {
      InFlatten(h, t, b + 1, p);
      assert t[b..][1..] == t[b + 1..];
      assert ChainOk(h, b, t[b]);
      assert Flatten(t[b..]) == t[b] + Flatten(t[b + 1..]);
    }
  }

  lemma {:induction false} FlattenDistinct<K, V>(h: K -> int, t: Table<K, V>, b: nat)
    requires TableOk(h, t) && b <= BUCKETS
    ensures DistinctKeys(Flatten(t[b..]))
    decreases BUCKETS - b
  {
    if b < BUCKETS {
      FlattenDistinct(h, t, b + 1);
      assert t[b..][1..] == t[b + 1..];
      assert ChainOk(h, b, t[b]);
      var rest := Flatten(t[b + 1..]);
      forall j | 0 <= j < |rest|
        ensures h(rest[j].key) > b
      {
        InFlatten(h, t, b + 1, rest[j]);
      }
      assert Flatten(t[b..]) == t[b] + rest;
    }
  }
}
