/** The chained hash table on the heap: an array of lazily created lists. */
module Hashes {
  import opened Seqs
  import opened Lists
  import opened Chains

  /** make_pair never returns NULL for a supported key type, so no stored pair is NULL. */
  function NullPair<K, V>(p: Pair<K, V>): bool { false }

  function KeyMatches<K(==), V>(k: K, p: Pair<K, V>): bool { k == p.key }

  class HashTable<K(==), V(==)> {
    const hash: K -> int
    const tables: array<List?<Pair<K, V>>>
    var hasEraseFn: bool

    ghost var table: Table<K, V>
    ghost var nodes: seq<seq<Node<Pair<K, V>>>>
    ghost var Repr: set<object>

    /** The lists hang off the bucket array, each in its own part of the footprint R. */
    ghost predicate Linked(R: set<object>)
      reads this, R
    {
      && this in R && tables in R
      && tables.Length == BUCKETS
      && (forall b | 0 <= b < BUCKETS && tables[b] != null ::
            && tables[b] in R && tables[b].Repr <= R
            && this !in tables[b].Repr && tables !in tables[b].Repr
            && tables[b].Valid() && !tables[b].hasEraseFn && tables[b].isNull == NullPair)
      && (forall b, c | 0 <= b < c < BUCKETS && tables[b] != null && tables[c] != null ::
            tables[b].Repr !! tables[c].Repr)
    }

    /** The ghost view of bucket b is what its list holds; a missing list holds nothing. */
    ghost predicate Mirrors(b: nat)
      requires b < tables.Length && b < |table| && b < |nodes|
      reads this, tables, tables[b]
    {
      if tables[b] == null then table[b] == [] && nodes[b] == []
      else table[b] == tables[b].contents && nodes[b] == tables[b].nodes
    }

    ghost predicate Valid()
      reads this, Repr
      ensures Valid() ==> this in Repr
    {
      && Linked(Repr)
      && |table| == |nodes| == BUCKETS
      && forall b | 0 <= b < BUCKETS :: Mirrors(b)
    }

    constructor (h: K -> int)
      ensures Valid() && fresh(Repr)
      ensures hash == h && table == EmptyTable() && !hasEraseFn
    {
      hash := h;
      tables := new List?<Pair<K, V>>[BUCKETS](_ => null);
      hasEraseFn := false;
      table := EmptyTable();
      nodes := seq(BUCKETS, _ => []);
      Repr := {this, tables};
    }

    /** mcl_hash_ctrl with MCL_REGIST_ERASE_FN. */
    method RegisterEraseFn()
      requires Valid()
      modifies this`hasEraseFn
      ensures Valid() && hasEraseFn
    {
      hasEraseFn := true;
      forall b | 0 <= b < BUCKETS
        ensures Mirrors(b)
      {
        assert old(Mirrors(b));
      }
    }

    /** Lazy creation of the chain of a bucket. */
    method MakeList(b: nat)
      requires Valid() && b < BUCKETS
      modifies Repr
      ensures Valid() && fresh(Repr - old(Repr)) && hasEraseFn == old(hasEraseFn)
      ensures table == old(table) && nodes == old(nodes)
      ensures tables[b] != null
    {
      if tables[b] == null {
        assert Mirrors(b);
        var list := new List<Pair<K, V>>(NullPair);
        tables[b] := list;
        Repr := Repr + list.Repr;
        forall c | 0 <= c < BUCKETS
          ensures Mirrors(c)
        {
          assert c != b ==> old(Mirrors(c));
        }
      }
    }

    /** A change inside the list of bucket b keeps the structure and every other bucket. */
    twostate lemma ListChanged(b: nat)
      requires old(Valid()) && b < BUCKETS && old(tables[b]) != null
      requires unchanged(this, tables) && unchanged(old(Repr) - old(tables[b].Repr))
      requires tables[b].Valid() && !tables[b].hasEraseFn && fresh(tables[b].Repr - old(tables[b].Repr))
      ensures Linked(Repr + tables[b].Repr)
      ensures forall c | 0 <= c < BUCKETS && c != b :: Mirrors(c)
    {
      assert forall c | 0 <= c < BUCKETS && c != b && tables[c] != null ::
        old(tables[c].Valid()) && unchanged(tables[c].Repr);
    }

    /** Brings the ghost view of bucket b up to date. */
    ghost method Mirror(b: nat)
      requires |table| == |nodes| == BUCKETS && b < BUCKETS == tables.Length && tables[b] != null
      requires Linked(Repr + tables[b].Repr)
      requires forall c | 0 <= c < BUCKETS && c != b :: Mirrors(c)
      modifies this`table, this`nodes, this`Repr
      ensures Valid()
      ensures Repr == old(Repr) + tables[b].Repr
      ensures table == old(table)[b := tables[b].contents]
      ensures nodes == old(nodes)[b := tables[b].nodes]
    {
      Repr := Repr + tables[b].Repr;
      table := table[b := tables[b].contents];
      nodes := nodes[b := tables[b].nodes];
      forall c | 0 <= c < BUCKETS
        ensures Mirrors(c)
      {
        assert c != b ==> old(Mirrors(c)) && table[c] == old(table)[c] && nodes[c] == old(nodes)[c];
      }
    }

    method BucketInsert(b: nat, pair: Pair<K, V>) returns (ok: bool)
      requires Valid() && b < BUCKETS && tables[b] != null
      modifies Repr
      ensures Valid() && fresh(Repr - old(Repr)) && hasEraseFn == old(hasEraseFn)
      ensures ok == (|old(table)[b]| < MAX_SIZE)
      ensures table == if ok then old(table)[b := [pair] + old(table)[b]] else old(table)
      ensures ok ==> nodes[b] != [] && nodes == old(nodes)[b := [nodes[b][0]] + old(nodes)[b]]
      ensures !ok ==> nodes == old(nodes)
    {
      assert Mirrors(b);
      ok := tables[b].Insert(pair);
      ListChanged(b);
      Mirror(b);
    }

    /** Unlinks the first occurrence of a pair from its chain. The pair's value is not freed here. */
    method BucketDelete(b: nat, pair: Pair<K, V>)
      requires Valid() && b < BUCKETS && tables[b] != null && pair in table[b]
      modifies Repr
      ensures Valid() && Repr == old(Repr) && hasEraseFn == old(hasEraseFn) && tables[b] != null
      ensures var k := IndexOf(old(table)[b], pair);
              && |old(table)[b]| == |old(nodes)[b]|
              && table == old(table)[b := RemoveAt(old(table)[b], k)]
              && nodes == old(nodes)[b := RemoveAt(old(nodes)[b], k)]
    {
      assert Mirrors(b);
      var ok, freed := tables[b].Delete(pair, false);
      ListChanged(b);
      Mirror(b);
    }

    method FindIn(b: nat, k: K) returns (found: Option<Pair<K, V>>)
      requires Valid() && b < BUCKETS && tables[b] != null
      ensures var i := KeyIndex(table[b], k);
              found == if i < |table[b]| then Some(table[b][i]) else None
    {
      assert Mirrors(b);
      found := tables[b].Find(Some(k), KeyMatches);
      assert FirstIndex(table[b], tables[b].Stops(k, KeyMatches)) == KeyIndex(table[b], k);
    }

    /** mcl_hash_insert and mcl_hash_insert_safe: `replace` tells them apart. */
    method Insert(key: K, data: Option<V>, replace: bool, freeFn: bool) returns (ok: bool, freed: seq<V>)
      requires Valid()
      modifies Repr
      ensures Valid() && fresh(Repr - old(Repr)) && hasEraseFn == old(hasEraseFn)
      ensures var u := Put(hash, old(table), key, data, replace);
              table == u.table && ok == u.ok && freed == if freeFn then u.dropped else []
      ensures !replace ==> PrependedNodes(old(nodes), nodes, hash(key), ok)
    {
      if data == None {
        return false, [];
      }
      ok, freed := DoInsert(hash(key), Pair(key, data.value), replace, freeFn);
    }

    /** One new node at the front of bucket b when grown, no change otherwise. */
    ghost predicate PrependedNodes(before: seq<seq<Node<Pair<K, V>>>>, after: seq<seq<Node<Pair<K, V>>>>,
                                   b: int, grown: bool) {
      if grown then
        0 <= b < |before| == |after| && after[b] != [] && after == before[b := [after[b][0]] + before[b]]
      else after == before
    }

    method DoInsert(b: int, pair: Pair<K, V>, replace: bool, freeFn: bool) returns (ok: bool, freed: seq<V>)
      requires Valid() && b == hash(pair.key)
      modifies Repr
      ensures Valid() && fresh(Repr - old(Repr)) && hasEraseFn == old(hasEraseFn)
      ensures var u := Put(hash, old(table), pair.key, Some(pair.val), replace);
              table == u.table && ok == u.ok && freed == if freeFn then u.dropped else []
      ensures !replace ==> PrependedNodes(old(nodes), nodes, b, ok)
    {
      freed := [];
      if !Available(b) {
        return false, [];
      }
      MakeList(b);
      var found := FindIn(b, pair.key);
      if found.Some? {
        if !replace {
          return false, [];
        }
        BucketDelete(b, found.value);
        freed := if freeFn then [found.value.val] else [];
      }
      ok := BucketInsert(b, pair);
    }

    /** Removes a key; the value goes to free_fn if one is given. */
    method Delete(key: K, freeFn: bool) returns (ok: bool, freed: seq<V>)
      requires Valid()
      modifies Repr
      ensures Valid() && Repr == old(Repr) && hasEraseFn == old(hasEraseFn)
      ensures var u := Remove(hash, old(table), key);
              table == u.table && ok == u.ok && freed == if freeFn then u.dropped else []
    {
      var b := hash(key);
      if !Available(b) || tables[b] == null {
        assert Available(b) ==> Mirrors(b);
        return false, [];
      }
      var found := FindIn(b, key);
      if found.Some? {
        BucketDelete(b, found.value);
        return true, if freeFn then [found.value.val] else [];
      }
      return false, [];
    }

    method Find(key: K) returns (val: Option<V>)
      requires Valid()
      ensures val == Lookup(hash, table, key)
    {
      var b := hash(key);
      if !Available(b) || tables[b] == null {
        assert Available(b) ==> Mirrors(b);
        return None;
      }
      var found := FindIn(b, key);
      val := if found.Some? then Some(found.value.val) else None;
    }

    // ---------------------------------------------------------------- iterator

    /** The iterator stands on position pos of the walk. */
    ghost predicate Stands(it: Iter<Pair<K, V>>, pos: Pos)
      reads this, it
    {
      match pos
      case End => it.ent == null && it.cursor == -1 && it.pair == None
      case At(b, i) =>
        && b < |table| == |nodes| && i < |table[b]| == |nodes[b]|
        && it.cursor == b && it.ent == nodes[b][i] && it.pair == Some(table[b][i])
    }

    /** Scans from bucket b on for a non-empty list. When the scan runs off the table, `list` may still be an
        empty list of the last bucket. */
    method Scan(b: nat) returns (list: List?<Pair<K, V>>, i: nat)
      requires Valid() && b <= BUCKETS
      ensures b <= i <= BUCKETS && FirstFrom(table, b) == if i < BUCKETS then At(i, 0) else End
      ensures i < BUCKETS ==> list != null && list == tables[i] && table[i] != []
      ensures i == BUCKETS && list != null ==> list == tables[BUCKETS - 1] && table[BUCKETS - 1] == []
    {
      list := null;
      i := b;
      while i < tables.Length
        invariant b <= i <= BUCKETS
        invariant list == null || (b < i && list == tables[i - 1])
        invariant forall c | b <= c < i :: table[c] == []
      {
        assert Mirrors(i);
        list := tables[i];
        if list != null && list.size > 0 {
          break;
        }
        i := i + 1;
      }
      FirstFromIs(table, b, i);
    }

    /** The head of the first non-empty list from bucket b on. */
    method Seek(it: Iter<Pair<K, V>>, b: nat)
      requires Valid() && it !in Repr && b <= BUCKETS
      modifies it
      ensures Stands(it, FirstFrom(table, b))
    {
      var list, i := Scan(b);
      if list == null {
        it.ent, it.cursor, it.pair := null, -1, None;
      } else {
        HeadOf(it, list, i);
      }
    }

    /** The head of the list that the scan ended with. If that is the empty last list, there is no pair. */
    method HeadOf(it: Iter<Pair<K, V>>, list: List<Pair<K, V>>, i: nat)
      requires Valid() && it !in Repr && i <= BUCKETS
      requires list == tables[if i == BUCKETS then i - 1 else i]
      requires i < BUCKETS <==> table[if i == BUCKETS then i - 1 else i] != []
      modifies it
      ensures Stands(it, if i < BUCKETS then At(i, 0) else End)
    {
      assert Mirrors(if i == BUCKETS then i - 1 else i);
      list.IterHead(it);
      it.pair := list.IterInfo(it, 0);
      it.cursor := if it.pair.Some? then i else -1;
    }

    method IterHead(it: Iter<Pair<K, V>>)
      requires Valid() && it !in Repr
      modifies it
      ensures Stands(it, FirstFrom(table, 0))
    {
      Seek(it, 0);
    }

    method IterNext(it: Iter<Pair<K, V>>, ghost pos: Pos)
      requires Valid() && it !in Repr && OnTable(table, pos) && Stands(it, pos)
      modifies it
      ensures Stands(it, NextPos(table, pos))
    {
      var cursor := it.cursor;
      if cursor < 0 || cursor >= tables.Length {
        it.ent, it.cursor, it.pair := null, -1, None;
        return;
      }
      assert Mirrors(cursor);
      var list := tables[cursor];
      list.IterNext(it, pos.i);
      if it.ent != null {
        it.pair := list.IterInfo(it, pos.i + 1);
      } else {
        Seek(it, cursor + 1);
      }
    }

    /** Steps first, possibly into another bucket, then unlinks the old pair from the chain it was in. */
    method IterErase(it: Iter<Pair<K, V>>, ghost pos: Pos) returns (ok: bool, freed: seq<V>)
      requires Valid() && it !in Repr && OnTable(table, pos) && Stands(it, pos)
      requires TableOk(hash, table)
      modifies Repr, it
      ensures Valid() && Repr == old(Repr) && hasEraseFn == old(hasEraseFn)
      ensures ok == pos.At?
      ensures pos.At? ==>
                && table == EraseAt(old(table), pos) && Stands(it, ErasePos(old(table), pos))
                && freed == if hasEraseFn then [old(table)[pos.b][pos.i].val] else []
      ensures pos.End? ==> table == old(table) && nodes == old(nodes) && Stands(it, End) && freed == []
    {
      var cursor := it.cursor;
      if cursor < 0 || cursor >= tables.Length {
        it.ent, it.cursor, it.pair := null, -1, None;
        return false, [];
      }
      assert Mirrors(cursor);
      var pair := tables[cursor].IterInfo(it, pos.i);
      IterNext(it, pos);
      BucketDelete(cursor, pair.value);
      return true, if hasEraseFn then [pair.value.val] else [];
    }

    /** Destroys every pair of one bucket and drops its list. */
    method CleanBucket(b: nat, freeFn: bool) returns (freed: seq<V>)
      requires Valid() && b < BUCKETS
      modifies Repr
      ensures Valid() && Repr == old(Repr) && hasEraseFn == old(hasEraseFn)
      ensures table == old(table)[b := []]
      ensures freed == if freeFn then Vals(old(table)[b]) else []
    {
      assert Mirrors(b);
      freed := [];
      var list := tables[b];
      if list == null {
        return;
      }
      freed := ListVals(list, freeFn);
      tables[b] := null;
      table := table[b := []];
      nodes := nodes[b := []];
      forall c | 0 <= c < BUCKETS
        ensures Mirrors(c)
      {
        assert c != b ==> old(Mirrors(c)) && table[c] == old(table)[c] && nodes[c] == old(nodes)[c];
      }
    }

    /** The values of a list's pairs, as the pairs are destroyed one by one. */
    method ListVals(list: List<Pair<K, V>>, freeFn: bool) returns (freed: seq<V>)
      requires list.Valid()
      ensures freed == if freeFn then Vals(list.contents) else []
    {
      freed := [];
      var it := new Iter<Pair<K, V>>();
      ghost var pos := 0;
      list.IterHead(it);
      while it.ent != null
        invariant list.Points(it, pos)
        invariant freed == if freeFn then Vals(list.contents[..pos]) else []
        decreases |list.contents| - pos
        modifies it
      {
        var pair := list.IterInfo(it, pos);
        assert list.contents[..pos + 1] == list.contents[..pos] + [pair.value];
        if freeFn {
          freed := freed + [pair.value.val];
        }
        list.IterNext(it, pos);
        pos := pos + 1;
      }
      assert list.contents[..pos] == list.contents;
    }

    method Clean(freeFn: bool) returns (freed: seq<V>)
      requires Valid()
      modifies Repr
      ensures Valid() && Repr == old(Repr) && hasEraseFn == old(hasEraseFn)
      ensures table == EmptyTable()
      ensures freed == if freeFn then Vals(Flatten(old(table))) else []
    {
      freed := [];
      var i := 0;
      while i < tables.Length
        invariant 0 <= i <= BUCKETS
        invariant Valid() && Repr == old(Repr) && hasEraseFn == old(hasEraseFn)
        invariant forall b | 0 <= b < i :: table[b] == []
        invariant forall b | i <= b < BUCKETS :: table[b] == old(table)[b]
        invariant freed == if freeFn then Vals(Flatten(old(table)[..i])) else []
      {
        var more := CleanBucket(i, freeFn);
        FlattenSnoc(old(table), i);
        freed := freed + more;
        i := i + 1;
      }
      assert old(table)[..i] == old(table);
    }
  }

  /** The state of a client's walk at position pos of t, after it met `visited` out of `was`. */
  ghost predicate Midway<K, V>(t: Table<K, V>, pos: Pos, was: seq<Pair<K, V>>, visited: seq<Pair<K, V>>,
                               choose: nat -> bool) {
    && OnTable(t, pos) && visited <= was && Remaining(t, pos) == was[|visited|..]
    && Passed(t, pos) == Kept(visited, choose, 0)
  }

  lemma WalkAdvances<K, V>(t: Table<K, V>, pos: Pos, was: seq<Pair<K, V>>, visited: seq<Pair<K, V>>,
                           choose: nat -> bool)
    requires Midway(t, pos, was, visited, choose) && pos.At?
    ensures |visited| < |was|
    ensures var erase, seen := choose(|visited|), t[pos.b][pos.i];
            Midway(if erase then EraseAt(t, pos) else t, if erase then ErasePos(t, pos) else NextPos(t, pos),
                   was, visited + [seen], choose)
  {
    var seen := t[pos.b][pos.i];
    RemainingSteps(t, pos);
    KeptSnoc(visited, seen, choose, 0);
    assert was[|visited|..][0] == seen && was[|visited|..][1..] == was[|visited| + 1..];
    if choose(|visited|) {
      PassedErase(t, pos);
    } else {
      PassedNext(t, pos);
    }
  }

  /** One turn of a walking client: look at the pair, then erase it or step past it. */
  method WalkTurn<K, V>(ht: HashTable<K, V>, it: Iter<Pair<K, V>>, ghost pos: Pos, erase: bool)
    returns (seen: Pair<K, V>, ghost next: Pos)
    requires ht.Valid() && TableOk(ht.hash, ht.table) && it !in ht.Repr
    requires OnTable(ht.table, pos) && ht.Stands(it, pos) && pos.At?
    modifies ht.Repr, it
    ensures ht.Valid() && ht.Repr == old(ht.Repr) && TableOk(ht.hash, ht.table)
    ensures seen == old(ht.table)[pos.b][pos.i]
    ensures ht.table == if erase then EraseAt(old(ht.table), pos) else old(ht.table)
    ensures next == if erase then ErasePos(old(ht.table), pos) else NextPos(old(ht.table), pos)
    ensures ht.Stands(it, next)
  {
    seen := it.pair.value;
    if erase {
      EraseKeepsOk(ht.hash, ht.table, pos);
      next := ErasePos(ht.table, pos);
      var _, _ := ht.IterErase(it, pos);
    } else {
      next := NextPos(ht.table, pos);
      ht.IterNext(it, pos);
    }
  }

  /** A client loop that walks a table and erases or steps at each pair, as the dispatch loop does. */
  method EraseWalk<K, V>(ht: HashTable<K, V>, choose: nat -> bool) returns (visited: seq<Pair<K, V>>)
    requires ht.Valid() && TableOk(ht.hash, ht.table)
    modifies ht.Repr
    ensures ht.Valid() && ht.Repr == old(ht.Repr) && TableOk(ht.hash, ht.table)
    ensures visited == Flatten(old(ht.table))
    ensures Flatten(ht.table) == Kept(Flatten(old(ht.table)), choose, 0)
  {
    visited := [];
    ghost var was := Flatten(ht.table);
    ghost var pos := FirstFrom(ht.table, 0);
    FirstFromPassed(ht.table);
    var it := new Iter<Pair<K, V>>();
    ht.IterHead(it);
    while it.ent != null
      invariant ht.Valid() && ht.Repr == old(ht.Repr) && it !in ht.Repr
      invariant TableOk(ht.hash, ht.table) && ht.Stands(it, pos)
      invariant Midway(ht.table, pos, was, visited, choose)
      decreases |was| - |visited|
    {
      WalkAdvances(ht.table, pos, was, visited, choose);
      var seen;
      seen, pos := WalkTurn(ht, it, pos, choose(|visited|));
      visited := visited + [seen];
    }
    assert pos == End;
  }
}
