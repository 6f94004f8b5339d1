/** What a hash table means: a finite map with room for MAX_SIZE keys per bucket, over every run. */
module HashRuns {
  import opened Seqs
  import opened Lists
  import opened Chains

  /** m is the map that t stands for. */
  ghost predicate Represents<K(!new), V(!new)>(h: K -> int, t: Table<K, V>, m: map<K, V>)
    requires |t| == BUCKETS
  {
    forall k :: Lookup(h, t, k) == if k in m then Some(m[k]) else None
  }

  /** How many keys of the map belong to bucket b. */
  ghost function Population<K, V>(h: K -> int, m: map<K, V>, b: int): nat {
    |set k | k in m && h(k) == b|
  }

  // ------------------------------------------------------------- chain facts

  lemma KeyIndexIs<K, V>(c: Chain<K, V>, i: nat)
    requires i < |c| && forall j, l | 0 <= j < l < |c| :: c[j].key != c[l].key
    ensures KeyIndex(c, c[i].key) == i
  {
  }

  /** Removing the pair at i takes its key away and nothing else. */
  lemma RemoveFind<K, V>(c: Chain<K, V>, i: nat, k: K)
    requires i < |c| && forall j, l | 0 <= j < l < |c| :: c[j].key != c[l].key
    ensures var c' := RemoveAt(c, i); var x, x' := KeyIndex(c, k), KeyIndex(c', k);
            if k == c[i].key then x' == |c'| else (x < |c| <==> x' < |c'|) && (x < |c| ==> c'[x'] == c[x])
  {
    var c' := RemoveAt(c, i);
    var x, x' := KeyIndex(c, k), KeyIndex(c', k);
    assert forall j | 0 <= j < |c'| :: c'[j] == c[if j < i then j else j + 1];
    if k != c[i].key && x < |c| {
      assert c'[if x < i then x else x - 1] == c[x];
    }
  }

  /** Putting a pair with a new key in front adds that key and nothing else. */
  lemma PrependFind<K, V>(c: Chain<K, V>, p: Pair<K, V>, k: K)
    ensures var c' := [p] + c;
            KeyIndex(c', k) == if k == p.key then 0 else KeyIndex(c, k) + 1
  {
  }

  ghost function KeySet<K, V>(c: Chain<K, V>): set<K> {
    set i | 0 <= i < |c| :: c[i].key
  }

  lemma {:induction false} KeySetSize<K, V>(c: Chain<K, V>)
    requires forall i, j | 0 <= i < j < |c| :: c[i].key != c[j].key
    ensures |KeySet(c)| == |c|
  {
    if c != [] {
      KeySetSize(c[1..]);
      assert KeySet(c) == {c[0].key} + KeySet(c[1..]) by {
        assert forall i | 1 <= i < |c| :: c[i].key == c[1..][i - 1].key;
      }
    }
  }

  lemma ChainCount<K(!new), V(!new)>(h: K -> int, t: Table<K, V>, m: map<K, V>, b: nat)
    requires TableOk(h, t) && Represents(h, t, m) && b < BUCKETS
    ensures Population(h, m, b) == |t[b]|
  {
    assert ChainOk(h, b, t[b]);
    KeySetSize(t[b]);
    var s := set k | k in m && h(k) == b;
    forall k
      ensures k in s <==> k in KeySet(t[b])
    {
      if h(k) == b {
        assert (Lookup(h, t, k) == None) <==> k !in m;
        assert KeyIndex(t[b], k) < |t[b]| <==> k in KeySet(t[b]);
      }
    }
    assert s == KeySet(t[b]);
  }

  // ------------------------------------------------------------- updates

  /** Insertion keeps every chain bounded, in its bucket and free of repeated keys. */
  lemma PutKeepsOk<K, V>(h: K -> int, t: Table<K, V>, k: K, v: Option<V>, replace: bool)
    requires TableOk(h, t)
    ensures TableOk(h, Put(h, t, k, v, replace).table)
  {
    if v.Some? && Available(h(k)) {
      var b := h(k);
      assert ChainOk(h, b, t[b]);
      assert ChainOk(h, b, PutChain(t[b], Pair(k, v.value), replace).0);
    }
  }

  lemma RemoveKeepsOk<K, V>(h: K -> int, t: Table<K, V>, k: K)
    requires TableOk(h, t)
    ensures TableOk(h, Remove(h, t, k).table)
  {
  }

  /** A lookup only sees the chain of its bucket. */
  lemma OtherBucket<K, V>(h: K -> int, t: Table<K, V>, b: nat, c: Chain<K, V>, k: K)
    requires |t| == BUCKETS && b < BUCKETS
    ensures Lookup(h, t[b := c], k) ==
            if h(k) != b then Lookup(h, t, k)
            else if KeyIndex(c, k) < |c| then Some(c[KeyIndex(c, k)].val) else None
  {
  }

  lemma RemoveRepresents<K(!new), V(!new)>(h: K -> int, t: Table<K, V>, m: map<K, V>, k: K)
    requires TableOk(h, t) && Represents(h, t, m)
    ensures var u := Remove(h, t, k);
            && u.ok == (k in m) && u.dropped == (if k in m then [m[k]] else [])
            && Represents(h, u.table, m - {k})
  {
    var u := Remove(h, t, k);
    assert Lookup(h, t, k) == if k in m then Some(m[k]) else None;
    if u.ok {
      var b := h(k);
      var c := t[b];
      assert ChainOk(h, b, c);
      forall j
        ensures Lookup(h, u.table, j) == if j in m - {k} then Some((m - {k})[j]) else None
      {
        OtherBucket(h, t, b, u.table[b], j);
        RemoveFind(c, KeyIndex(c, k), j);
        assert Lookup(h, t, j) == if j in m then Some(m[j]) else None;
      }
    } else {
      assert m - {k} == m;
    }
  }

  /** Putting a pair with a new key in front of its chain changes no other lookup. */
  lemma PrependLookup<K, V>(h: K -> int, t: Table<K, V>, p: Pair<K, V>, k: K)
    requires |t| == BUCKETS && Available(h(p.key))
    ensures Lookup(h, t[h(p.key) := [p] + t[h(p.key)]], k) == if k == p.key then Some(p.val) else Lookup(h, t, k)
  {
    OtherBucket(h, t, h(p.key), [p] + t[h(p.key)], k);
    PrependFind(t[h(p.key)], p, k);
  }

  /** Removing a key changes no other lookup. */
  lemma RemoveLookup<K, V>(h: K -> int, t: Table<K, V>, k: K, other: K)
    requires TableOk(h, t)
    ensures Lookup(h, Remove(h, t, k).table, other) == if other == k then None else Lookup(h, t, other)
  {
    if Remove(h, t, k).ok {
      var c := t[h(k)];
      var i := KeyIndex(c, k);
      assert ChainOk(h, h(k), c);
      OtherBucket(h, t, h(k), RemoveAt(c, i), other);
      RemoveFind(c, i, other);
    }
  }

  /** Insertion of a key that is not there: refused exactly when its bucket is full. */
  lemma PutNewRepresents<K(!new), V(!new)>(h: K -> int, t: Table<K, V>, m: map<K, V>, k: K, v: V, replace: bool)
    requires TableOk(h, t) && Represents(h, t, m) && Available(h(k)) && k !in m
    ensures var u := Put(h, t, k, Some(v), replace);
            && u.ok == (Population(h, m, h(k)) < MAX_SIZE) && u.dropped == []
            && Represents(h, u.table, if u.ok then m[k := v] else m)
  {
    var u := Put(h, t, k, Some(v), replace);
    var b := h(k);
    ChainCount(h, t, m, b);
    assert Lookup(h, t, k) == None;
    if u.ok {
      assert u.table == t[b := [Pair(k, v)] + t[b]];
      forall j
        ensures Lookup(h, u.table, j) == if j in m[k := v] then Some(m[k := v][j]) else None
      {
        PrependLookup(h, t, Pair(k, v), j);
        assert Lookup(h, t, j) == if j in m then Some(m[j]) else None;
      }
    }
  }

  /** A replacing insertion is a removal followed by an insertion. */
  lemma ReplaceIsRemovePut<K, V>(h: K -> int, t: Table<K, V>, k: K, v: V)
    requires TableOk(h, t) && Remove(h, t, k).ok
    ensures var r := Remove(h, t, k); var u := Put(h, t, k, Some(v), true);
            u == Update(Put(h, r.table, k, Some(v), true).table, true, r.dropped)
  {
  }

  /** Replacing always succeeds, even in a full bucket, and drops the old value. */
  lemma PutOldRepresents<K(!new), V(!new)>(h: K -> int, t: Table<K, V>, m: map<K, V>, k: K, v: V)
    requires TableOk(h, t) && Represents(h, t, m) && k in m
    ensures Put(h, t, k, Some(v), false) == Update(t, false, [])
    ensures var u := Put(h, t, k, Some(v), true);
            u.ok && u.dropped == [m[k]] && Represents(h, u.table, m[k := v])
  {
    assert Lookup(h, t, k) == Some(m[k]);
    RemoveRepresents(h, t, m, k);
    RemoveKeepsOk(h, t, k);
    ReplaceIsRemovePut(h, t, k, v);
    var r := Remove(h, t, k);
    PutNewRepresents(h, r.table, m - {k}, k, v, true);
    assert (m - {k})[k := v] == m[k := v];
  }

  lemma EmptyRepresents<K(!new), V(!new)>(h: K -> int)
    ensures TableOk<K, V>(h, EmptyTable()) && Represents<K, V>(h, EmptyTable(), map[])
  {
  }

  /** Erasing through the iterator is a removal by key. */
  lemma EraseIsRemove<K, V>(h: K -> int, t: Table<K, V>, pos: Pos)
    requires TableOk(h, t) && OnTable(t, pos) && pos.At?
    ensures var p := t[pos.b][pos.i];
            Remove(h, t, p.key) == Update(EraseAt(t, pos), true, [p.val])
  {
  }

  // ------------------------------------------------------------- runs

  /** The operations a client can perform. EraseNth walks n steps from the head and erases there. */
  datatype Op<K, V> =
    | Insert(k: K, v: Option<V>)
    | InsertSafe(k: K, v: Option<V>)
    | Delete(k: K)
    | Find(k: K)
    | EraseNth(n: nat)
    | Clean

  /** What the client sees: a return code, the value found, the pair erased; and the values dropped. */
  datatype Reply<K, V> = Reply(ok: bool, found: Option<V>, erased: Option<Pair<K, V>>, dropped: seq<V>)

  function NthPos<K, V>(t: Table<K, V>, pos: Pos, n: nat): (r: Pos)
    requires OnTable(t, pos)
    ensures OnTable(t, r)
    decreases n
  {
    if n == 0 || pos.End? then pos else NthPos(t, NextPos(t, pos), n - 1)
  }

  function Step<K(==), V>(h: K -> int, t: Table<K, V>, op: Op<K, V>): (Table<K, V>, Reply<K, V>)
    requires |t| == BUCKETS
  {
    match op
    case Insert(k, v) =>
      var u := Put(h, t, k, v, true);
      (u.table, Reply(u.ok, None, None, u.dropped))
    case InsertSafe(k, v) =>
      var u := Put(h, t, k, v, false);
      (u.table, Reply(u.ok, None, None, u.dropped))
    case Delete(k) =>
      var u := Remove(h, t, k);
      (u.table, Reply(u.ok, None, None, u.dropped))
    case Find(k) =>
      var v := Lookup(h, t, k);
      (t, Reply(v.Some?, v, None, []))
    case EraseNth(n) =>
      var pos := NthPos(t, FirstFrom(t, 0), n);
      if pos.End? then (t, Reply(false, None, None, []))
      else
        var p := t[pos.b][pos.i];
        (EraseAt(t, pos), Reply(true, None, Some(p), [p.val]))
    case Clean =>
      (EmptyTable(), Reply(true, None, None, Vals(Flatten(t))))
  }

  function Run<K(==), V>(h: K -> int, t: Table<K, V>, ops: seq<Op<K, V>>): (r: (Table<K, V>, seq<Reply<K, V>>))
    requires |t| == BUCKETS
    decreases |ops|
  {
    if ops == [] then (t, [])
    else
      var (t1, reply) := Step(h, t, ops[0]);
      StepLength(h, t, ops[0]);
      var (t2, replies) := Run(h, t1, ops[1..]);
      (t2, [reply] + replies)
  }

  lemma StepLength<K, V>(h: K -> int, t: Table<K, V>, op: Op<K, V>)
    requires |t| == BUCKETS
    ensures |Step(h, t, op).0| == BUCKETS
  {
  }

  /** The replies a finite map with bounded buckets may give. */
  ghost predicate MapAllows<K(!new), V(!new)>(h: K -> int, m: map<K, V>, op: Op<K, V>, r: Reply<K, V>) {
    match op
    case Insert(k, v) =>
      && r.ok == (v.Some? && Available(h(k)) && (k in m || Population(h, m, h(k)) < MAX_SIZE))
      && r.dropped == if r.ok && k in m then [m[k]] else []
    case InsertSafe(k, v) =>
      && r.ok == (v.Some? && Available(h(k)) && k !in m && Population(h, m, h(k)) < MAX_SIZE)
      && r.dropped == []
    case Delete(k) =>
      r.ok == (k in m) && r.dropped == if k in m then [m[k]] else []
    case Find(k) =>
      r.found == (if k in m then Some(m[k]) else None) && r.ok == (k in m) && r.dropped == []
    case EraseNth(n) =>
      && r.ok == r.erased.Some? == (n < |m|)
      && (r.ok ==> r.erased.value.key in m && m[r.erased.value.key] == r.erased.value.val)
      && r.dropped == if r.ok then [r.erased.value.val] else []
    case Clean => |r.dropped| == |m|
  }

  ghost function MapNext<K, V>(m: map<K, V>, op: Op<K, V>, r: Reply<K, V>): map<K, V> {
    match op
    case Insert(k, v) => if r.ok && v.Some? then m[k := v.value] else m
    case InsertSafe(k, v) => if r.ok && v.Some? then m[k := v.value] else m
    case Delete(k) => m - {k}
    case Find(k) => m
    case EraseNth(n) => if r.erased.Some? then m - {r.erased.value.key} else m
    case Clean => map[]
  }

  ghost predicate MapRun<K(!new), V(!new)>(h: K -> int, m: map<K, V>, ops: seq<Op<K, V>>,
                                           replies: seq<Reply<K, V>>, m': map<K, V>)
    decreases |ops|
  {
    if ops == [] then replies == [] && m' == m
    else
      && replies != [] && MapAllows(h, m, ops[0], replies[0])
      && MapRun(h, MapNext(m, ops[0], replies[0]), ops[1..], replies[1..], m')
  }

  /** The walk reaches the n-th pair of the order exactly when there are more than n. */
  lemma {:induction false} NthPosIs<K, V>(t: Table<K, V>, pos: Pos, n: nat)
    requires OnTable(t, pos)
    ensures NthPos(t, pos, n).At? <==> n < |Remaining(t, pos)|
    ensures var p := NthPos(t, pos, n);
            n < |Remaining(t, pos)| ==>
              t[p.b][p.i] == Remaining(t, pos)[n] && Passed(t, p) == Passed(t, pos) + Remaining(t, pos)[..n]
    decreases n
  {
    if pos.At? {
      RemainingSteps(t, pos);
      if n > 0 {
        PassedNext(t, pos);
        NthPosIs(t, NextPos(t, pos), n - 1);
        NthInside(t[pos.b][pos.i], Remaining(t, NextPos(t, pos)), Passed(t, pos), n);
      }
    }
  }

  lemma NthInside<T>(x: T, rest: seq<T>, before: seq<T>, n: nat)
    requires n > 0
    ensures n <= |rest| ==> ([x] + rest)[n] == rest[n - 1] && before + ([x] + rest)[..n] == before + [x] + rest[..n - 1]
  {
  }

  /** Erasing at the n-th step of a walk takes the n-th pair out of the walk order. */
  lemma EraseNthExact<K, V>(h: K -> int, t: Table<K, V>, n: nat)
    requires |t| == BUCKETS
    ensures var (t', r) := Step(h, t, EraseNth(n));
            if n < |Flatten(t)| then r.erased == Some(Flatten(t)[n]) && Flatten(t') == RemoveAt(Flatten(t), n)
            else r.erased == None && t' == t
  {
    var first := FirstFrom(t, 0);
    FirstFromPassed(t);
    NthPosIs(t, first, n);
    if n < |Flatten(t)| {
      FlattenErase(t, NthPos(t, first, n));
    }
  }

  /** A walk meets a key exactly if a lookup finds it. */
  lemma KeyIsMet<K(!new), V(!new)>(h: K -> int, t: Table<K, V>, k: K)
    requires TableOk(h, t)
    ensures k in KeySet(Flatten(t)) <==> Lookup(h, t, k).Some?
  {
    var all := Flatten(t);
    assert t[0..] == t;
    if Lookup(h, t, k).Some? {
      var p := t[h(k)][KeyIndex(t[h(k)], k)];
      InFlatten(h, t, 0, p);
      assert exists i | 0 <= i < |all| :: all[i] == p;
    }
    if k in KeySet(all) {
      var i :| 0 <= i < |all| && all[i].key == k;
      InFlatten(h, t, 0, all[i]);
      assert KeyIndex(t[h(k)], k) < |t[h(k)]|;
    }
  }

  /** A table has one pair for each key of its map. */
  lemma PairCount<K(!new), V(!new)>(h: K -> int, t: Table<K, V>, m: map<K, V>)
    requires TableOk(h, t) && Represents(h, t, m)
    ensures |Flatten(t)| == |m|
  {
    var all := Flatten(t);
    FlattenDistinct(h, t, 0);
    assert t[0..] == t;
    KeySetSize(all);
    forall k
      ensures k in KeySet(all) <==> k in m.Keys
    {
      KeyIsMet(h, t, k);
      assert Lookup(h, t, k) == if k in m then Some(m[k]) else None;
    }
    assert KeySet(all) == m.Keys;
    assert |m| == |m.Keys|;
  }

  /** One operation on the table is one operation on the map it stands for. */
  lemma StepRefines<K(!new), V(!new)>(h: K -> int, t: Table<K, V>, m: map<K, V>, op: Op<K, V>)
    requires TableOk(h, t) && Represents(h, t, m)
    ensures var (t', r) := Step(h, t, op);
            TableOk(h, t') && MapAllows(h, m, op, r) && Represents(h, t', MapNext(m, op, r))
  {
    match op
    case Insert(k, v) => PutRefines(h, t, m, k, v, true);
    case InsertSafe(k, v) => PutRefines(h, t, m, k, v, false);
    case Delete(k) =>
      RemoveRepresents(h, t, m, k);
      RemoveKeepsOk(h, t, k);
    case Find(k) =>
      assert Lookup(h, t, k) == if k in m then Some(m[k]) else None;
    case EraseNth(n) => EraseRefines(h, t, m, n);
    case Clean =>
      EmptyRepresents<K, V>(h);
      PairCount(h, t, m);
  }

  lemma PutRefines<K(!new), V(!new)>(h: K -> int, t: Table<K, V>, m: map<K, V>, k: K, v: Option<V>, replace: bool)
    requires TableOk(h, t) && Represents(h, t, m)
    ensures var u := Put(h, t, k, v, replace);
            && TableOk(h, u.table)
            && u.ok == (v.Some? && Available(h(k)) && (if k in m then replace else Population(h, m, h(k)) < MAX_SIZE))
            && u.dropped == (if u.ok && k in m then [m[k]] else [])
            && Represents(h, u.table, if u.ok then m[k := v.value] else m)
  {
    PutKeepsOk(h, t, k, v, replace);
    assert Lookup(h, t, k) == if k in m then Some(m[k]) else None;
    if v.Some? && Available(h(k)) {
      if k in m {
        PutOldRepresents(h, t, m, k, v.value);
      } else {
        PutNewRepresents(h, t, m, k, v.value, replace);
      }
    }
  }

  lemma EraseRefines<K(!new), V(!new)>(h: K -> int, t: Table<K, V>, m: map<K, V>, n: nat)
    requires TableOk(h, t) && Represents(h, t, m)
    ensures var (t', r) := Step(h, t, EraseNth(n));
            TableOk(h, t') && MapAllows(h, m, EraseNth(n), r) && Represents(h, t', MapNext(m, EraseNth(n), r))
  {
    var start := FirstFrom(t, 0);
    var pos := NthPos(t, start, n);
    NthPosIs(t, start, n);
    FirstFromPassed(t);
    PairCount(h, t, m);
    if pos.At? {
      EraseKeepsOk(h, t, pos);
      EraseIsRemove(h, t, pos);
      RemoveRepresents(h, t, m, t[pos.b][pos.i].key);
    }
  }

  /** Every run of operations answers as the finite map does, and ends with a well-formed table that
      stands for the map the replies lead to. */
  lemma {:induction false} RunRefinesMap<K(!new), V(!new)>(h: K -> int, t: Table<K, V>, m: map<K, V>,
                                                           ops: seq<Op<K, V>>)
    returns (m': map<K, V>)
    requires TableOk(h, t) && Represents(h, t, m)
    ensures var (t', replies) := Run(h, t, ops);
            TableOk(h, t') && Represents(h, t', m') && MapRun(h, m, ops, replies, m')
    decreases |ops|
  {
    if ops == [] {
      m' := m;
    } else {
      var (t1, r) := Step(h, t, ops[0]);
      StepRefines(h, t, m, ops[0]);
      m' := RunRefinesMap(h, t1, MapNext(m, ops[0], r), ops[1..]);
      var (t2, rest) := Run(h, t1, ops[1..]);
      assert ([r] + rest)[1..] == rest;
    }
  }

  // ------------------------------------------------------------- conservation

  /** The values that the table holds, with multiplicity. */
  ghost function Stored<K, V>(t: Table<K, V>): multiset<V> {
    multiset(Vals(Flatten(t)))
  }

  /** The value that an operation hands over to the table, if the table accepts it. */
  ghost function Accepted<K, V>(op: Op<K, V>, r: Reply<K, V>): multiset<V> {
    if (op.Insert? || op.InsertSafe?) && r.ok && op.v.Some? then multiset{op.v.value} else multiset{}
  }

  ghost function AllAccepted<K, V>(ops: seq<Op<K, V>>, replies: seq<Reply<K, V>>): multiset<V> {
    if ops == [] || replies == [] then multiset{}
    else Accepted(ops[0], replies[0]) + AllAccepted(ops[1..], replies[1..])
  }

  ghost function AllDropped<K, V>(replies: seq<Reply<K, V>>): multiset<V> {
    if replies == [] then multiset{} else multiset(replies[0].dropped) + AllDropped(replies[1..])
  }

  lemma ValsConcat<K, V>(a: Chain<K, V>, b: Chain<K, V>)
    ensures Vals(a + b) == Vals(a) + Vals(b)
  {
  }

  /** Changing one chain changes the stored values by the difference of the two chains. */
  lemma StoredUpdate<K, V>(t: Table<K, V>, b: nat, c: Chain<K, V>)
    requires b < |t|
    ensures Stored(t[b := c]) + multiset(Vals(t[b])) == Stored(t) + multiset(Vals(c))
  {
    FlattenAt(t, b);
    FlattenUpdate(t, b, c);
    var l, r := Flatten(t[..b]), Flatten(t[b + 1..]);
    ValsConcat(l + t[b], r);
    ValsConcat(l, t[b]);
    ValsConcat(l + c, r);
    ValsConcat(l, c);
  }

  lemma RemoveAtVals<K, V>(c: Chain<K, V>, i: nat)
    requires i < |c|
    ensures multiset(Vals(RemoveAt(c, i))) + multiset{c[i].val} == multiset(Vals(c))
  {
    assert c == c[..i] + [c[i]] + c[i + 1..];
    ValsConcat(c[..i] + [c[i]], c[i + 1..]);
    ValsConcat(c[..i], [c[i]]);
    ValsConcat(c[..i], c[i + 1..]);
    assert Vals([c[i]]) == [c[i].val];
  }

  lemma Balance<T>(s: multiset<T>, s': multiset<T>, c: multiset<T>, c': multiset<T>,
                   lost: multiset<T>, won: multiset<T>)
    requires s' + c == s + c' && c' + lost == c + won
    ensures s' + lost == s + won
  {
    forall x
      ensures (s' + lost)[x] == (s + won)[x]
    {
      assert (s' + c)[x] == (s + c')[x] && (c' + lost)[x] == (c + won)[x];
    }
  }

  lemma PutConserves<K, V>(h: K -> int, t: Table<K, V>, k: K, v: Option<V>, replace: bool)
    requires TableOk(h, t)
    ensures var u := Put(h, t, k, v, replace);
            Stored(u.table) + multiset(u.dropped) == Stored(t) + if u.ok then multiset{v.value} else multiset{}
  {
    if v.Some? && Available(h(k)) {
      var b := h(k);
      var c := t[b];
      assert ChainOk(h, b, c);
      var i, p := KeyIndex(c, k), Pair(k, v.value);
      var c' := PutChain(c, p, replace).0;
      StoredUpdate(t, b, c');
      assert Vals([p]) == [v.value];
      var u := Put(h, t, k, v, replace);
      var won := if u.ok then multiset{v.value} else multiset{};
      assert multiset(Vals(c')) + multiset(u.dropped) == multiset(Vals(c)) + won by {
        if i < |c| {
          RemoveAtVals(c, i);
          ValsConcat([p], RemoveAt(c, i));
        } else {
          ValsConcat([p], c);
        }
      }
      Balance(Stored(t), Stored(u.table), multiset(Vals(c)), multiset(Vals(c')), multiset(u.dropped), won);
    }
  }

  lemma RemoveConserves<K, V>(h: K -> int, t: Table<K, V>, k: K)
    requires |t| == BUCKETS
    ensures var u := Remove(h, t, k); Stored(u.table) + multiset(u.dropped) == Stored(t)
  {
    var u := Remove(h, t, k);
    if u.ok {
      var c := t[h(k)];
      StoredUpdate(t, h(k), u.table[h(k)]);
      RemoveAtVals(c, KeyIndex(c, k));
      Balance(Stored(t), Stored(u.table), multiset(Vals(c)), multiset(Vals(u.table[h(k)])),
              multiset(u.dropped), multiset{});
    }
  }

  lemma {:induction false} FlattenEmpty<K, V>(t: Table<K, V>)
    requires forall b | 0 <= b < |t| :: t[b] == []
    ensures Flatten(t) == []
  {
    if t != [] {
      FlattenEmpty(t[1..]);
    }
  }

  lemma StepConserves<K, V>(h: K -> int, t: Table<K, V>, op: Op<K, V>)
    requires TableOk(h, t)
    ensures var (t', r) := Step(h, t, op);
            Stored(t') + multiset(r.dropped) == Stored(t) + Accepted(op, r)
  {
    match op
    case Insert(k, v) => InsertConserves(h, t, k, v);
    case InsertSafe(k, v) => InsertSafeConserves(h, t, k, v);
    case Delete(k) => RemoveConserves(h, t, k);
    case Find(k) =>
    case EraseNth(n) => EraseConserves(h, t, NthPos(t, FirstFrom(t, 0), n));
    case Clean => CleanConserves(t);
  }

  lemma InsertConserves<K, V>(h: K -> int, t: Table<K, V>, k: K, v: Option<V>)
    requires TableOk(h, t)
    ensures var (t', r) := Step(h, t, Insert(k, v));
            Stored(t') + multiset(r.dropped) == Stored(t) + Accepted(Insert(k, v), r)
  {
    PutConserves(h, t, k, v, true);
  }

  lemma InsertSafeConserves<K, V>(h: K -> int, t: Table<K, V>, k: K, v: Option<V>)
    requires TableOk(h, t)
    ensures var (t', r) := Step(h, t, InsertSafe(k, v));
            Stored(t') + multiset(r.dropped) == Stored(t) + Accepted(InsertSafe(k, v), r)
  {
    PutConserves(h, t, k, v, false);
  }

  lemma CleanConserves<K, V>(t: Table<K, V>)
    ensures Stored(EmptyTable<K, V>()) == multiset{} && multiset(Vals(Flatten(t))) == Stored(t)
  {
    FlattenEmpty(EmptyTable<K, V>());
  }

  lemma EraseConserves<K, V>(h: K -> int, t: Table<K, V>, pos: Pos)
    requires TableOk(h, t) && OnTable(t, pos)
    ensures pos.At? ==> Stored(EraseAt(t, pos)) + multiset{t[pos.b][pos.i].val} == Stored(t)
  {
    if pos.At? {
      EraseIsRemove(h, t, pos);
      RemoveConserves(h, t, t[pos.b][pos.i].key);
    }
  }

  lemma Chained<T>(s0: multiset<T>, s1: multiset<T>, s2: multiset<T>,
                   d1: multiset<T>, d2: multiset<T>, a1: multiset<T>, a2: multiset<T>)
    requires s1 + d1 == s0 + a1 && s2 + d2 == s1 + a2
    ensures s2 + (d1 + d2) == s0 + (a1 + a2)
  {
    forall x
      ensures (s2 + (d1 + d2))[x] == (s0 + (a1 + a2))[x]
    {
      assert (s1 + d1)[x] == (s0 + a1)[x] && (s2 + d2)[x] == (s1 + a2)[x];
    }
  }

  lemma Tally<K, V>(ops: seq<Op<K, V>>, r: Reply<K, V>, rest: seq<Reply<K, V>>)
    requires ops != []
    ensures AllAccepted(ops, [r] + rest) == Accepted(ops[0], r) + AllAccepted(ops[1..], rest)
    ensures AllDropped([r] + rest) == multiset(r.dropped) + AllDropped(rest)
  {
  }

  lemma StoredEmpty<K, V>()
    ensures Stored(EmptyTable<K, V>()) == multiset{}
  {
    FlattenEmpty(EmptyTable<K, V>());
  }

  lemma SplitCount<V>(a: multiset<V>, b: multiset<V>, c: multiset<V>, v: V)
    requires a + b == multiset{} + c
    ensures a[v] + b[v] == c[v]
  {
    assert (a + b)[v] == (multiset{} + c)[v];
  }

  /** Nothing is lost and nothing is dropped twice: over every run, what was stored at the start and
      what was accepted since is what is stored now and what was dropped. */
  lemma {:induction false} RunConserves<K(!new), V(!new)>(h: K -> int, t: Table<K, V>, m: map<K, V>, ops: seq<Op<K, V>>)
    requires TableOk(h, t) && Represents(h, t, m)
    ensures var (t', replies) := Run(h, t, ops);
            Stored(t') + AllDropped(replies) == Stored(t) + AllAccepted(ops, replies)
    decreases |ops|
  {
    if ops != [] {
      var (t1, r) := Step(h, t, ops[0]);
      StepRefines(h, t, m, ops[0]);
      StepConserves(h, t, ops[0]);
      RunConserves(h, t1, MapNext(m, ops[0], r), ops[1..]);
      var (t2, rest) := Run(h, t1, ops[1..]);
      Tally(ops, r, rest);
      Chained(Stored(t), Stored(t1), Stored(t2), multiset(r.dropped), AllDropped(rest),
              Accepted(ops[0], r), AllAccepted(ops[1..], rest));
    }
  }

  /** From an empty table on: a value that was accepted once is either stored once or was dropped once, and a
      value that was never accepted is neither. */
  lemma StoredOrDropped<K(!new), V(!new)>(h: K -> int, ops: seq<Op<K, V>>, v: V)
    ensures var (t', replies) := Run(h, EmptyTable(), ops);
            && (AllAccepted(ops, replies)[v] == 1 ==> Stored(t')[v] + AllDropped(replies)[v] == 1)
            && (AllAccepted(ops, replies)[v] == 0 ==> Stored(t')[v] == 0 && AllDropped(replies)[v] == 0)
  {
    var (t', replies) := Run(h, EmptyTable(), ops);
    EmptyRepresents<K, V>(h);
    RunConserves(h, EmptyTable(), map[], ops);
    StoredEmpty<K, V>();
    SplitCount(Stored(t'), AllDropped(replies), AllAccepted(ops, replies), v);
  }

  lemma StepKeepsOk<K, V>(h: K -> int, t: Table<K, V>, op: Op<K, V>)
    requires TableOk(h, t)
    ensures TableOk(h, Step(h, t, op).0)
  {
    match op
    case Insert(k, v) => PutKeepsOk(h, t, k, v, true);
    case InsertSafe(k, v) => PutKeepsOk(h, t, k, v, false);
    case Delete(k) => RemoveKeepsOk(h, t, k);
    case Find(k) =>
    case EraseNth(n) =>
      var pos := NthPos(t, FirstFrom(t, 0), n);
      if pos.At? {
        EraseKeepsOk(h, t, pos);
      }
    case Clean =>
      assert forall b | 0 <= b < BUCKETS :: EmptyTable<K, V>()[b] == [];
  }
}
