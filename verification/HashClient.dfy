/** A client of the heap table: whole runs of operations, seen as runs on the value of the table. */
module HashClient {
  import opened Seqs
  import opened Lists
  import opened Chains
  import opened Hashes
  import opened HashRuns

  /** Walks n steps from the head. */
  method WalkTo<K, V>(ht: HashTable<K, V>, n: nat) returns (it: Iter<Pair<K, V>>)
    requires ht.Valid()
    ensures ht.Valid() && fresh(it) && ht.Stands(it, NthPos(ht.table, FirstFrom(ht.table, 0), n))
  {
    ghost var pos := FirstFrom(ht.table, 0);
    it := new Iter<Pair<K, V>>();
    ht.IterHead(it);
    var i := 0;
    while i < n && it.ent != null
      invariant 0 <= i <= n && ht.Valid() && it !in ht.Repr
      invariant OnTable(ht.table, pos) && ht.Stands(it, pos)
      invariant NthPos(ht.table, pos, n - i) == NthPos(ht.table, FirstFrom(ht.table, 0), n)
      decreases n - i
      modifies it
    {
      ht.IterNext(it, pos);
      pos := NextPos(ht.table, pos);
      i := i + 1;
    }
  }

  method EraseNth<K, V>(ht: HashTable<K, V>, n: nat) returns (r: Reply<K, V>)
    requires ht.Valid() && TableOk(ht.hash, ht.table) && ht.hasEraseFn
    modifies ht.Repr
    ensures ht.Valid() && ht.Repr == old(ht.Repr) && ht.hasEraseFn
    ensures (ht.table, r) == Step(ht.hash, old(ht.table), Op.EraseNth(n))
  {
    ghost var pos := NthPos(ht.table, FirstFrom(ht.table, 0), n);
    var it := WalkTo(ht, n);
    var pair := it.pair;
    var ok, freed := ht.IterErase(it, pos);
    r := Reply(ok, None, pair, freed);
  }

  /** One operation, with one free function used throughout. */
  method Perform<K, V>(ht: HashTable<K, V>, op: Op<K, V>) returns (r: Reply<K, V>)
    requires ht.Valid() && TableOk(ht.hash, ht.table) && ht.hasEraseFn
    modifies ht.Repr
    ensures ht.Valid() && fresh(ht.Repr - old(ht.Repr)) && ht.hasEraseFn
    ensures (ht.table, r) == Step(ht.hash, old(ht.table), op)
  {
    var ok, freed := true, [];
    match op
    case Insert(k, v) =>
      ok, freed := ht.Insert(k, v, true, true);
      r := Reply(ok, None, None, freed);
    case InsertSafe(k, v) =>
      ok, freed := ht.Insert(k, v, false, true);
      r := Reply(ok, None, None, freed);
    case Delete(k) =>
      ok, freed := ht.Delete(k, true);
      r := Reply(ok, None, None, freed);
    case Find(k) =>
      var found := ht.Find(k);
      r := Reply(found.Some?, found, None, []);
    case EraseNth(n) =>
      r := EraseNth(ht, n);
    case Clean =>
      freed := ht.Clean(true);
      r := Reply(true, None, None, freed);
  }

  /** A whole run. */
  method PerformAll<K, V>(ht: HashTable<K, V>, ops: seq<Op<K, V>>) returns (replies: seq<Reply<K, V>>)
    requires ht.Valid() && TableOk(ht.hash, ht.table) && ht.hasEraseFn
    modifies ht.Repr
    ensures ht.Valid() && fresh(ht.Repr - old(ht.Repr)) && ht.hasEraseFn
    ensures (ht.table, replies) == Run(ht.hash, old(ht.table), ops)
  {
    replies := [];
    var i := 0;
    assert ops[0..] == ops;
    while i < |ops|
      invariant 0 <= i <= |ops|
      invariant ht.Valid() && fresh(ht.Repr - old(ht.Repr)) && ht.hasEraseFn && TableOk(ht.hash, ht.table)
      invariant var rest := Run(ht.hash, ht.table, ops[i..]);
                var all := Run(ht.hash, old(ht.table), ops);
                rest.0 == all.0 && replies + rest.1 == all.1
    {
      assert ops[i..][0] == ops[i] && ops[i..][1..] == ops[i + 1..];
      StepKeepsOk(ht.hash, ht.table, ops[i]);
      var r := Perform(ht, ops[i]);
      replies := replies + [r];
      i := i + 1;
    }
    assert ops[i..] == [] && replies + [] == replies;
  }
}
