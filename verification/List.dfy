/** The intrusive doubly linked list: a circular ring of nodes around a sentinel. */
module Lists {
  import opened Seqs

  const MAX_SIZE: nat := 1024 * 1024

  /** A ring entry. The sentinel is the one node that carries no data. */
  class Node<T> {
    var prev: Node?<T>
    var next: Node?<T>
    const data: Option<T>

    constructor (d: Option<T>)
      ensures data == d
    {
      data := d;
      prev, next := null, null;
    }
  }

  /** The sentinel followed by `nodes`, in this order, forms a circle: `next` and `prev` are mutual
      inverses all the way round. */
  ghost predicate IsRing<T>(head: Node<T>, nodes: seq<Node<T>>)
    reads head, nodes
  {
    && head !in nodes
    && (forall i, j | 0 <= i < j < |nodes| :: nodes[i] != nodes[j])
    && (forall i {:trigger nodes[i].next} | 0 <= i < |nodes| - 1 :: nodes[i].next == nodes[i + 1])
    && (forall i {:trigger nodes[i].prev} | 1 <= i < |nodes| :: nodes[i].prev == nodes[i - 1])
    && (if nodes == [] then head.next == head && head.prev == head
        else
          && head.next == nodes[0] && nodes[0].prev == head
          && head.prev == nodes[|nodes| - 1] && nodes[|nodes| - 1].next == head)
  }

  /** Splices a detached node in between its neighbours-to-be p and n, at position k. */
  method LinkBetween<T>(ghost head: Node<T>, ghost nodes: seq<Node<T>>, ghost k: nat,
                        elem: Node<T>, p: Node<T>, n: Node<T>)
    requires IsRing(head, nodes) && k <= |nodes| && elem !in nodes && elem != head
    requires p == if k == 0 then head else nodes[k - 1]
    requires n == if k == |nodes| then head else nodes[k]
    modifies elem, p, n
    ensures IsRing(head, nodes[..k] + [elem] + nodes[k..])
  {
    elem.prev := p;
    elem.next := n;
    n.prev := elem;
    p.next := elem;
  }

  /** Takes the node at position k out of the circle. */
  method Unlink<T>(ghost head: Node<T>, ghost nodes: seq<Node<T>>, ghost k: nat, ent: Node<T>)
    requires IsRing(head, nodes) && k < |nodes| && ent == nodes[k]
    requires ent.prev != null && ent.next != null
    modifies ent.prev, ent.next
    ensures IsRing(head, RemoveAt(nodes, k))
  {
    assert ent.prev == if k == 0 then head else nodes[k - 1];
    assert ent.next == if k + 1 == |nodes| then head else nodes[k + 1];
    ent.prev.next := ent.next;
    ent.next.prev := ent.prev;
  }

  /** The iterator structure that lists and hash tables share. `pair` is the union member that a hash
      table fills in and that every list step overwrites. */
  class Iter<T> {
    var ent: Node?<T>
    var cursor: int
    var pair: Option<T>

    constructor ()
      ensures ent == null && cursor == -1 && pair == None
    {
      ent, cursor, pair := null, -1, None;
    }
  }

  class List<T(==)> {
    const head: Node<T>
    var size: int
    var hasEraseFn: bool
    const isNull: T -> bool

    ghost var nodes: seq<Node<T>>
    ghost var contents: seq<T>
    ghost var Repr: set<object>

    ghost predicate Valid()
      reads this, Repr
      ensures Valid() ==> this in Repr
    {
      && this in Repr
      && head in Repr && (forall i | 0 <= i < |nodes| :: nodes[i] in Repr)
      && IsRing(head, nodes)
      && size == |contents| == |nodes| <= MAX_SIZE
      && (forall i | 0 <= i < |nodes| :: nodes[i].data == Some(contents[i]))
    }

    constructor (nullness: T -> bool)
      ensures Valid() && fresh(Repr)
      ensures contents == [] && isNull == nullness && !hasEraseFn
    {
      var h := new Node<T>(None);
      head := h;
      size := 0;
      hasEraseFn := false;
      isNull := nullness;
      nodes, contents := [], [];
      Repr := {this, h};
      new;
      h.prev := h;
      h.next := h;
    }

    /** Links a new node in at position k and counts it. */
    method LinkIn(node: Node<T>, ghost k: nat, p: Node<T>, n: Node<T>)
      requires Valid() && k <= |nodes|
      requires p == if k == 0 then head else nodes[k - 1]
      requires n == if k == |nodes| then head else nodes[k]
      requires node !in Repr && node.data.Some? && size < MAX_SIZE
      modifies Repr, node
      ensures Valid() && Repr == old(Repr) + {node} && hasEraseFn == old(hasEraseFn)
      ensures nodes == old(nodes)[..k] + [node] + old(nodes)[k..]
      ensures contents == old(contents)[..k] + [node.data.value] + old(contents)[k..]
    {
      LinkBetween(head, nodes, k, node, p, n);
      nodes := nodes[..k] + [node] + nodes[k..];
      contents := contents[..k] + [node.data.value] + contents[k..];
      Repr := Repr + {node};
      size := size + 1;
    }

    /** Front insertion; refused when the list is full. */
    method Insert(data: T) returns (ok: bool)
      requires Valid()
      modifies Repr
      ensures Valid() && fresh(Repr - old(Repr))
      ensures ok == (|old(contents)| < 1024 * 1024)
      ensures contents == if ok then [data] + old(contents) else old(contents)
      ensures !ok ==> nodes == old(nodes)
      ensures ok ==> nodes != [] && nodes == [nodes[0]] + old(nodes)
      ensures hasEraseFn == old(hasEraseFn)
    {
      if size >= MAX_SIZE {
        return false;
      }
      var node := new Node<T>(Some(data));
      LinkIn(node, 0, head, head.next);
      return true;
    }

    /** Back insertion; refused when the list is full. */
    method InsertTail(data: T) returns (ok: bool)
      requires Valid()
      modifies Repr
      ensures Valid() && fresh(Repr - old(Repr))
      ensures ok == (|old(contents)| < 1024 * 1024)
      ensures contents == if ok then old(contents) + [data] else old(contents)
      ensures nodes == if ok then old(nodes) + nodes[|old(nodes)|..] else old(nodes)
      ensures hasEraseFn == old(hasEraseFn)
    {
      if size >= MAX_SIZE {
        return false;
      }
      var node := new Node<T>(Some(data));
      LinkIn(node, |nodes|, head.prev, head);
      return true;
    }

    /** The test list_del applies to each stored pointer: the comparison, if one is given, or the same pointer. */
    static function Matches(data: T, cmp: Option<(T, T) -> bool>): T -> bool {
      x => (cmp.Some? && cmp.value(data, x)) || x == data
    }

    /** Unlinks one node, frees its data on demand and counts it out. */
    method HandleElem(ent: Node<T>, ghost i: nat, freeFlag: bool, freeFn: bool) returns (freed: seq<T>)
      requires Valid() && i < |contents| && ent == nodes[i]
      modifies Repr
      ensures Valid() && Repr == old(Repr) && hasEraseFn == old(hasEraseFn)
      ensures contents == RemoveAt(old(contents), i) && nodes == RemoveAt(old(nodes), i)
      ensures freed == if freeFlag && freeFn && !isNull(old(contents)[i]) then [old(contents)[i]] else []
    {
      assert ent.data == Some(contents[i]);
      assert ent == nodes[i];
      Unlink(head, nodes, i, ent);
      freed := if freeFlag && !isNull(ent.data.value) && freeFn then [ent.data.value] else [];
      nodes := RemoveAt(nodes, i);
      contents := RemoveAt(contents, i);
      size := size - 1;
    }

    /** Removes the first match, walking the ring from the sentinel. `freed` lists the data handed to free_fn. */
    method ListDel(data: T, freeFlag: bool, cmp: Option<(T, T) -> bool>, freeFn: bool) returns (ok: bool, freed: seq<T>)
      requires Valid()
      modifies Repr
      ensures Valid() && Repr == old(Repr) && hasEraseFn == old(hasEraseFn)
      ensures var k := FirstIndex(old(contents), Matches(data, cmp));
              && ok == (k < |old(contents)|)
              && contents == (if ok then RemoveAt(old(contents), k) else old(contents))
              && nodes == (if ok then RemoveAt(old(nodes), k) else old(nodes))
              && freed == (if ok && freeFlag && freeFn && !isNull(old(contents)[k]) then [old(contents)[k]] else [])
    {
      ghost var i := 0;
      freed := [];
      var ent := head.next;
      while ent != head
        invariant 0 <= i <= |contents|
        invariant ent == if i == |contents| then head else nodes[i]
        invariant forall j | 0 <= j < i :: !Matches(data, cmp)(contents[j])
        invariant unchanged(Repr)
        decreases |contents| - i
      {
        assert ent == nodes[i] && ent.data == Some(contents[i]);
        var stored := ent.data.value;
        if (cmp.Some? && cmp.value(data, stored)) || stored == data {
          assert i == FirstIndex(contents, Matches(data, cmp));
          freed := HandleElem(ent, i, freeFlag, freeFn);
          return true, freed;
        }
        ent := ent.next;
        i := i + 1;
      }
      return false, freed;
    }

    /** Deletes by pointer. */
    method Delete(data: T, freeFn: bool) returns (ok: bool, freed: seq<T>)
      requires Valid()
      modifies Repr
      ensures Valid() && Repr == old(Repr) && hasEraseFn == old(hasEraseFn)
      ensures var k := IndexOf(old(contents), data);
              && ok == (k < |old(contents)|)
              && contents == (if ok then RemoveAt(old(contents), k) else old(contents))
              && nodes == (if ok then RemoveAt(old(nodes), k) else old(nodes))
              && freed == (if ok && freeFn && !isNull(data) then [data] else [])
    {
      assert IndexOf(contents, data) == FirstIndex(contents, Matches(data, None));
      ok, freed := ListDel(data, true, None, freeFn);
    }

    /** Deletes by comparison, or by pointer where the comparison says no. */
    method DelCmp(data: T, cmp: (T, T) -> bool, freeFn: bool) returns (ok: bool, freed: seq<T>)
      requires Valid()
      modifies Repr
      ensures Valid() && Repr == old(Repr) && hasEraseFn == old(hasEraseFn)
      ensures var k := FirstIndex(old(contents), x => cmp(data, x) || x == data);
              && ok == (k < |old(contents)|)
              && contents == (if ok then RemoveAt(old(contents), k) else old(contents))
              && nodes == (if ok then RemoveAt(old(nodes), k) else old(nodes))
              && freed == (if ok && freeFn && !isNull(old(contents)[k]) then [old(contents)[k]] else [])
    {
      assert FirstIndex(contents, x => cmp(data, x) || x == data) == FirstIndex(contents, Matches(data, Some(cmp)));
      ok, freed := ListDel(data, true, Some(cmp), freeFn);
    }

    /** The iterator stands on the node at position pos; at the end it is null. */
    ghost predicate Points(it: Iter<T>, pos: nat)
      reads this, it
    {
      pos <= |nodes| && it.ent == if pos == |nodes| then null else nodes[pos]
    }

    method IterHead(it: Iter<T>)
      requires Valid() && it !in Repr
      modifies it
      ensures Points(it, 0) && it.cursor == old(it.cursor) && it.pair == None
    {
      it.pair := None;
      it.ent := if head.next != head then head.next else null;
    }

    method IterTail(it: Iter<T>)
      requires Valid() && it !in Repr
      modifies it
      ensures Points(it, if contents == [] then 0 else |contents| - 1)
      ensures it.cursor == old(it.cursor) && it.pair == None
    {
      it.pair := None;
      it.ent := if head.next != head then head.prev else null;
    }

    method IterNext(it: Iter<T>, ghost pos: nat)
      requires Valid() && it !in Repr && Points(it, pos)
      modifies it
      ensures Points(it, if pos == |contents| then pos else pos + 1)
      ensures it.cursor == old(it.cursor) && it.pair == None
    {
      it.pair := None;
      if head.next == head || it.ent == null || it.ent.next == head {
        it.ent := null;
      } else {
        it.ent := it.ent.next;
      }
    }

    method IterPrev(it: Iter<T>, ghost pos: nat)
      requires Valid() && it !in Repr && Points(it, pos)
      modifies it
      ensures Points(it, if pos == |contents| || pos == 0 then |contents| else pos - 1)
      ensures it.cursor == old(it.cursor) && it.pair == None
    {
      it.pair := None;
      if head.next == head || it.ent == null || it.ent.prev == head {
        it.ent := null;
      } else {
        it.ent := it.ent.prev;
      }
    }

    method IterInfo(it: Iter<T>, ghost pos: nat) returns (info: Option<T>)
      requires Valid() && Points(it, pos)
      ensures info == if pos == |contents| then None else Some(contents[pos])
    {
      info := if it.ent == null then None else it.ent.data;
    }

    /** Steps the iterator, then removes the first node that holds the pointer the iterator stood on.
        The iterator ends on the node that followed, one position lower because of the removal. */
    method IterErase(it: Iter<T>, ghost pos: nat) returns (ok: bool, freed: seq<T>)
      requires Valid() && it !in Repr && Points(it, pos)
      modifies Repr, it
      ensures Valid() && Repr == old(Repr) && hasEraseFn == old(hasEraseFn)
      ensures ok == (pos < |old(contents)|)
      ensures !ok ==> contents == old(contents) && nodes == old(nodes) && Points(it, pos) && freed == []
      ensures ok ==> var data := old(contents)[pos]; var k := IndexOf(old(contents), data);
              && k <= pos
              && contents == RemoveAt(old(contents), k) && nodes == RemoveAt(old(nodes), k)
              && Points(it, pos)
              && it.ent == (if pos + 1 == |old(contents)| then null else old(nodes)[pos + 1])
              && freed == (if hasEraseFn && !isNull(data) then [data] else [])
      ensures it.cursor == old(it.cursor)
    {
      if it.ent == null {
        return false, [];
      }
      assert it.ent.data == Some(contents[pos]);
      var data := it.ent.data.value;
      ghost var k := IndexOf(contents, data);
      assert contents[pos] == data;
      assert k == FirstIndex(contents, Matches(data, None));
      IterNext(it, pos);
      if hasEraseFn {
        ok, freed := ListDel(data, true, None, true);
      } else {
        ok, freed := ListDel(data, false, None, false);
      }
    }

    /** Where the search loop stops: at a match, or at a NULL pointer. */
    ghost function Stops<K>(data: K, cmp: (K, T) -> bool): T -> bool {
      x => isNull(x) || cmp(data, x)
    }

    /** First stored pointer that matches; the walk gives up at the first NULL pointer it meets. */
    method Find<K>(data: Option<K>, cmp: (K, T) -> bool) returns (found: Option<T>)
      requires Valid()
      ensures data == None ==> found == None
      ensures data.Some? ==>
                var k := FirstIndex(contents, Stops(data.value, cmp));
                found == if k < |contents| && !isNull(contents[k]) then Some(contents[k]) else None
    {
      if data == None {
        return None;
      }
      ghost var pos := 0;
      var it := new Iter<T>();
      IterHead(it);
      while it.ent != null
        invariant Points(it, pos)
        invariant forall j | 0 <= j < pos :: !Stops(data.value, cmp)(contents[j])
        decreases |contents| - pos
        modifies it
      {
        var dst := IterInfo(it, pos);
        if isNull(dst.value) || cmp(data.value, dst.value) {
          FirstIndexIs(contents, Stops(data.value, cmp), pos);
          return if isNull(dst.value) then None else dst;
        }
        IterNext(it, pos);
        pos := pos + 1;
      }
      FirstIndexIs(contents, Stops(data.value, cmp), pos);
      return None;
    }

    /** Frees every non-NULL pointer, first to last. */
    method Destroy(freeFn: bool) returns (freed: seq<T>)
      requires Valid()
      ensures freed == if freeFn then Filter(contents, x => !isNull(x)) else []
    {
      freed := [];
      ghost var i := 0;
      if head.next != head {
        var ent := head.next;
        while ent != head
          invariant 0 <= i <= |contents|
          invariant ent == if i == |contents| then head else nodes[i]
          invariant freed == if freeFn then Filter(contents[..i], x => !isNull(x)) else []
          decreases |contents| - i
        {
          FilterSnoc(contents[..i], contents[i], x => !isNull(x));
          assert contents[..i + 1] == contents[..i] + [contents[i]];
          if !isNull(ent.data.value) && freeFn {
            freed := freed + [ent.data.value];
          }
          ent := ent.next;
          i := i + 1;
        }
        assert contents[..i] == contents;
      }
    }

    lemma NextOf(j: nat)
      requires Valid() && j <= |nodes|
      ensures ([head] + nodes)[j].next == ([head] + nodes)[if j == |nodes| then 0 else j + 1]
    {
    }

    /** The node reached from the sentinel by k steps along `next`: the circle, in order, over and over. */
    ghost function Forward(k: nat): (n: Node<T>)
      requires Valid()
      reads this, Repr
      ensures n == ([head] + nodes)[k % (|nodes| + 1)]
    {
      if k == 0 then head else
      var m := Forward(k - 1);
      StepMod(k - 1, |nodes| + 1);
      NextOf((k - 1) % (|nodes| + 1));
      m.next
    }

    lemma PrevOf(j: nat)
      requires Valid() && j <= |nodes|
      ensures (nodes + [head])[j].prev == (nodes + [head])[if j == 0 then |nodes| else j - 1]
    {
    }

    /** The node reached from the sentinel by k steps along `prev`: the circle in reverse. */
    ghost function Backward(k: nat): (n: Node<T>)
      requires Valid()
      reads this, Repr
      ensures n == (nodes + [head])[|nodes| - k % (|nodes| + 1)]
    {
      if k == 0 then head else
      var m := Backward(k - 1);
      StepMod(k - 1, |nodes| + 1);
      PrevOf(|nodes| - (k - 1) % (|nodes| + 1));
      m.prev
    }

    /** Find reports a match exactly when some stored pointer matches and no NULL stands before it: an
        insertion of NULL hides everything behind it. */
    lemma FindSees<K>(data: K, cmp: (K, T) -> bool)
      requires Valid()
      ensures var k := FirstIndex(contents, Stops(data, cmp));
              (k < |contents| && !isNull(contents[k]))
              <==> exists j | 0 <= j < |contents| ::
                        cmp(data, contents[j]) && forall i | 0 <= i <= j :: !isNull(contents[i])
    {
    }
  }

  predicate Distinct<T(==)>(s: seq<T>) {
    forall i, j | 0 <= i < j < |s| :: s[i] != s[j]
  }

  /** Taking out the first copy of what stands at pos leaves what is behind pos alone. */
  lemma RemoveFirst<T>(s: seq<T>, pos: nat)
    requires pos < |s|
    ensures var k := IndexOf(s, s[pos]);
            && k <= pos && RemoveAt(s, k)[pos..] == s[pos + 1..]
            && multiset(RemoveAt(s, k)) + multiset{s[pos]} == multiset(s)
            && (Distinct(s) ==> k == pos && RemoveAt(s, k)[..pos] == s[..pos] && Distinct(RemoveAt(s, k)))
  {
    var k := IndexOf(s, s[pos]);
    assert s == s[..k] + [s[k]] + s[k + 1..];
  }

  /** What is ahead of position pos of c is what is behind the first n pointers of was. */
  ghost predicate SameAhead<T>(was: seq<T>, n: nat, c: seq<T>, pos: nat) {
    n <= |was| && pos <= |c| && c[pos..] == was[n..]
  }

  /** c' holds what c held but for the pointers in gone. */
  ghost predicate SameBag<T>(c: seq<T>, c': seq<T>, gone: multiset<T>) {
    multiset(c') + gone == multiset(c)
  }

  /** If the pointers were all different, they still are, and those before position pos are kept. */
  ghost predicate SameKept<T>(was: seq<T>, c: seq<T>, pos: nat, kept: seq<T>) {
    Distinct(was) ==> Distinct(c) && pos <= |c| && c[..pos] == kept
  }

  /** One turn of a client that walks a list and erases some of it: what is behind the position met is untouched. */
  ghost predicate Turned<T>(c: seq<T>, pos: nat, erase: bool, c': seq<T>, next: nat) {
    && pos < |c| && SameAhead(c, pos + 1, c', next)
    && SameBag(c, c', if erase then multiset{c[pos]} else multiset{})
    && SameKept(c, c', next, c[..pos] + if erase then [] else [c[pos]])
  }

  lemma EraseTurned<T>(c: seq<T>, pos: nat)
    requires pos < |c|
    ensures IndexOf(c, c[pos]) < |c| && Turned(c, pos, true, RemoveAt(c, IndexOf(c, c[pos])), pos)
  {
    RemoveFirst(c, pos);
    assert c[..pos] + [] == c[..pos];
  }

  lemma StepTurned<T>(c: seq<T>, pos: nat)
    requires pos < |c|
    ensures Turned(c, pos, false, c, pos + 1)
  {
    assert c[..pos + 1] == c[..pos] + [c[pos]];
  }

  method EraseHere<T>(list: List<T>, it: Iter<T>, ghost pos: nat)
    requires list.Valid() && it !in list.Repr && list.Points(it, pos) && pos < |list.contents|
    modifies list.Repr, it
    ensures list.Valid() && list.Repr == old(list.Repr) && list.Points(it, pos)
    ensures Turned(old(list.contents), pos, true, list.contents, pos)
  {
    EraseTurned(list.contents, pos);
    var _, _ := list.IterErase(it, pos);
  }

  method WalkTurn<T>(list: List<T>, it: Iter<T>, ghost pos: nat, erase: bool) returns (seen: T, ghost next: nat)
    requires list.Valid() && it !in list.Repr && list.Points(it, pos) && pos < |list.contents|
    modifies list.Repr, it
    ensures list.Valid() && list.Repr == old(list.Repr) && list.Points(it, next)
    ensures seen == old(list.contents)[pos] && Turned(old(list.contents), pos, erase, list.contents, next)
  {
    var info := list.IterInfo(it, pos);
    seen := info.value;
    if erase {
      next := pos;
      EraseHere(list, it, pos);
    } else {
      next := pos + 1;
      StepTurned(list.contents, pos);
      list.IterNext(it, pos);
    }
  }

  /** The state of such a walk at position pos of c, with the pointers met so far. */
  ghost predicate Midway<T>(was: seq<T>, visited: seq<T>, choose: nat -> bool, c: seq<T>, pos: nat) {
    && visited <= was && SameAhead(was, |visited|, c, pos)
    && SameBag(was, c, multiset(Erased(visited, choose, 0)))
    && SameKept(was, c, pos, Kept(visited, choose, 0))
  }

  lemma AheadAdvances<T>(was: seq<T>, n: nat, c: seq<T>, pos: nat, c': seq<T>, next: nat)
    requires SameAhead(was, n, c, pos) && pos < |c| && SameAhead(c, pos + 1, c', next)
    ensures n < |was| && c[pos] == was[n] && SameAhead(was, n + 1, c', next)
  {
    assert c[pos] == c[pos..][0] == was[n..][0];
    assert c[pos + 1..] == c[pos..][1..] == was[n..][1..];
  }

  lemma BagAdvances<T>(was: seq<T>, erased: seq<T>, c: seq<T>, c': seq<T>, x: T, erase: bool, erased': seq<T>)
    requires SameBag(was, c, multiset(erased)) && SameBag(c, c', if erase then multiset{x} else multiset{})
    requires erased' == erased + if erase then [x] else []
    ensures SameBag(was, c', multiset(erased'))
  {
  }

  lemma KeptAdvances<T>(was: seq<T>, c: seq<T>, pos: nat, kept: seq<T>, c': seq<T>, next: nat,
                        more: seq<T>, kept': seq<T>)
    requires SameKept(was, c, pos, kept) && pos <= |c| && SameKept(c, c', next, c[..pos] + more) && kept' == kept + more
    ensures SameKept(was, c', next, kept')
  {
  }

  lemma WalkAdvances<T>(was: seq<T>, visited: seq<T>, choose: nat -> bool, c: seq<T>, pos: nat, c': seq<T>, next: nat)
    requires Midway(was, visited, choose, c, pos) && Turned(c, pos, choose(|visited|), c', next)
    ensures |visited| < |was| && Midway(was, visited + [c[pos]], choose, c', next)
  {
    var x, erase := c[pos], choose(|visited|);
    var visited' := visited + [x];
    var erased', kept' := Erased(visited', choose, 0), Kept(visited', choose, 0);
    AheadAdvances(was, |visited|, c, pos, c', next);
    PrefixSnoc(visited, x, was);
    assert SameBag(was, c', multiset(erased')) by {
      ErasedSnoc(visited, x, choose, 0);
      BagAdvances(was, Erased(visited, choose, 0), c, c', x, erase, erased');
    }
    assert SameKept(was, c', next, kept') by {
      KeptSnoc(visited, x, choose, 0);
      KeptAdvances(was, c, pos, Kept(visited, choose, 0), c', next, if erase then [] else [x], kept');
    }
  }

  lemma MidwayStart<T>(was: seq<T>, choose: nat -> bool)
    ensures Midway(was, [], choose, was, 0)
  {
  }

  lemma MidwayEnd<T>(was: seq<T>, visited: seq<T>, choose: nat -> bool, c: seq<T>, pos: nat)
    requires Midway(was, visited, choose, c, pos) && pos == |c|
    ensures visited == was && multiset(c) + multiset(Erased(visited, choose, 0)) == multiset(visited)
    ensures Distinct(visited) ==> c == Kept(visited, choose, 0)
  {
    assert c[pos..] == [] && c[..pos] == c;
  }

  /** A client that walks a list from its head and erases the n-th pointer it meets when choose(n). With repeated
      pointers an erase may take out an earlier copy than the one met, but the walk still meets every stored
      pointer once, and as many copies go as were chosen. Without repetitions exactly the chosen ones go. */
  method EraseWalk<T>(list: List<T>, choose: nat -> bool) returns (visited: seq<T>)
    requires list.Valid()
    modifies list.Repr
    ensures list.Valid() && list.Repr == old(list.Repr)
    ensures visited == old(list.contents)
    ensures multiset(list.contents) + multiset(Erased(visited, choose, 0)) == multiset(visited)
    ensures (forall i, j | 0 <= i < j < |visited| :: visited[i] != visited[j]) ==>
              list.contents == Kept(visited, choose, 0)
  {
    visited := [];
    ghost var was := list.contents;
    ghost var pos: nat := 0;
    var it := new Iter<T>();
    list.IterHead(it);
    MidwayStart(was, choose);
    while it.ent != null
      invariant list.Valid() && list.Repr == old(list.Repr) && it !in list.Repr && list.Points(it, pos)
      invariant Midway(was, visited, choose, list.contents, pos)
      decreases |was| - |visited|
    {
      ghost var c, at := list.contents, pos;
      var seen;
      seen, pos := WalkTurn(list, it, pos, choose(|visited|));
      WalkAdvances(was, visited, choose, c, at, list.contents, pos);
      visited := visited + [seen];
    }
    MidwayEnd(was, visited, choose, list.contents, pos);
  }
}
