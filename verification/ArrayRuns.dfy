/** Whole runs of array operations: size and capacity over time, and what growth costs. */
module ArrayRuns {
  import opened Seqs
  import opened Arrays

  /** An array as a value. */
  datatype Arr<T> = Arr(elems: seq<Slot<T>>, cap: nat)

  datatype Op<T> =
    | Append(x: Slot<T>)
    | Preappend(x: Slot<T>)
    | Insert(x: Slot<T>, at: int)
    | Preinsert(x: Slot<T>, at: int)
    | DeleteIndx(at: int, freeFn: bool)
    | Delete(at: int, freeFn: bool)
    | DeleteObj(x: Slot<T>, freeFn: bool)
    | DeleteRange(b: int, e: int, freeFn: bool)
    | Clean(freeFn: bool)
    | Tighten

  /** What each operation needs to stay inside the block: growth needs a capacity to double, and position 0
      of an empty array passes the bounds check of the deletions. */
  predicate Safe<T>(a: Arr<T>, op: Op<T>) {
    match op
    case Append(_) => a.cap > 0
    case Preappend(_) => a.cap > 0
    case Insert(_, _) => a.cap > 0
    case Preinsert(_, _) => a.cap > 0
    case DeleteIndx(at, _) => !(a.elems == [] && at == 0)
    case Delete(at, _) => !(a.elems == [] && at == 0)
    case DeleteRange(b, e, _) => !(a.elems == [] && b == 0 && e == 0)
    case _ => true
  }

  /** The new contents, the return value. */
  function Elems<T(==)>(s: seq<Slot<T>>, op: Op<T>): (seq<Slot<T>>, int)
    requires Safe(Arr(s, 1), op)
  {
    match op
    case Append(x) => (s + [x], |s|)
    case Preappend(x) => ([x] + s, 0)
    case Insert(x, at) => InsertAfter(s, at, x)
    case Preinsert(x, at) => InsertBefore(s, at, x)
    case DeleteIndx(at, _) => if OutOfBounds(at, |s|) then (s, -1) else (RemoveAt(s, at), at)
    case Delete(at, _) => if OutOfBounds(at, |s|) then (s, -1) else (SwapRemove(s, at), at)
    case DeleteObj(x, _) => var k := IndexOf(s, x); if k == |s| then (s, -1) else (SwapRemove(s, k), k as int)
    case DeleteRange(b, e, _) => RangeRemoved(s, b, e)
    case Clean(_) => ([], 0)
    case Tighten => (s, 0)
  }

  predicate Grows<T>(op: Op<T>) {
    op.Append? || op.Preappend? || op.Insert? || op.Preinsert?
  }

  /** One operation: the new array, the return value, the cells that a growth reallocation copied. */
  function Step<T(==)>(a: Arr<T>, op: Op<T>): (r: (Arr<T>, int, nat))
    requires Safe(a, op)
  {
    var n := |a.elems|;
    var (elems, ret) := Elems(a.elems, op);
    if Grows(op) && ret >= 0 then (Arr(elems, Grown(n, a.cap)), ret, Copied(n, a.cap))
    else if op.Tighten? && a.cap > 2 * n then (Arr(elems, 2 * n), ret, 0)
    else (Arr(elems, a.cap), ret, 0)
  }

  ghost predicate SafeRun<T>(a: Arr<T>, ops: seq<Op<T>>)
    decreases |ops|
  {
    ops == [] || (Safe(a, ops[0]) && SafeRun(Step(a, ops[0]).0, ops[1..]))
  }

  function Run<T(==)>(a: Arr<T>, ops: seq<Op<T>>): Arr<T>
    requires SafeRun(a, ops)
    decreases |ops|
  {
    if ops == [] then a else Run(Step(a, ops[0]).0, ops[1..])
  }

  /** Cells copied by growth over a run. */
  function Copies<T(==)>(a: Arr<T>, ops: seq<Op<T>>): nat
    requires SafeRun(a, ops)
    decreases |ops|
  {
    if ops == [] then 0 else
    var (a1, _, copied) := Step(a, ops[0]);
    copied + Copies(a1, ops[1..])
  }

  /** Insertions that went through. */
  function Insertions<T(==)>(a: Arr<T>, ops: seq<Op<T>>): nat
    requires SafeRun(a, ops)
    decreases |ops|
  {
    if ops == [] then 0 else
    var (a1, ret, _) := Step(a, ops[0]);
    (if Grows(ops[0]) && ret >= 0 then 1 else 0) + Insertions(a1, ops[1..])
  }

  /** Credit saved up towards the next growth. */
  function Credit<T>(a: Arr<T>): nat {
    if 2 * |a.elems| > a.cap then 2 * |a.elems| - a.cap else 0
  }

  /** Size never exceeds capacity, and no operation other than tightening an empty array brings the
      capacity below 2. */
  lemma StepShape<T>(a: Arr<T>, op: Op<T>)
    requires Safe(a, op) && |a.elems| <= a.cap && a.cap != 1
    ensures var (a1, ret, _) := Step(a, op);
            && |a1.elems| <= a1.cap && a1.cap != 1
            && (a1.cap == 0 <==> a.cap == 0 || (op.Tighten? && a.elems == []))
            && |a1.elems| <= |a.elems| + if Grows(op) && ret >= 0 then 1 else 0
  {
  }

  /** Two credits per insertion pay for every growth; nothing else raises the credit. */
  lemma StepPays<T>(a: Arr<T>, op: Op<T>)
    requires Safe(a, op) && |a.elems| <= a.cap && a.cap != 1
    ensures var (a1, ret, copied) := Step(a, op);
            copied + Credit(a1) <= Credit(a) + if Grows(op) && ret >= 0 then 2 else 0
  {
  }

  /** Over every run, growth copies at most two cells per insertion beyond the credit at the start,
      however deletions, cleanings and tightenings are mixed in. */
  lemma {:induction false} AmortisedGrowth<T>(a: Arr<T>, ops: seq<Op<T>>)
    requires SafeRun(a, ops) && |a.elems| <= a.cap && a.cap != 1
    ensures Copies(a, ops) + Credit(Run(a, ops)) <= Credit(a) + 2 * Insertions(a, ops)
    ensures |Run(a, ops).elems| <= Run(a, ops).cap
    decreases |ops|
  {
    if ops != [] {
      StepShape(a, ops[0]);
      StepPays(a, ops[0]);
      AmortisedGrowth(Step(a, ops[0]).0, ops[1..]);
    }
  }

  /** From a new array on. */
  lemma FreshGrowth<T>(cap: nat, ops: seq<Op<T>>)
    requires cap >= DEFAULT_SIZE && SafeRun(Arr([], cap), ops)
    ensures Copies(Arr([], cap), ops) <= 2 * Insertions(Arr([], cap), ops)
  {
    AmortisedGrowth(Arr([], cap), ops);
  }

  /** Growth makes room exactly when there is a capacity to double: after an empty array was tightened no
      insertion has a cell to write to. */
  lemma RoomToGrow(size: nat, cap: nat)
    requires size <= cap
    ensures size < Grown(size, cap) <==> cap > 0
  {
  }

  /** Growth doubles: an operation leaves the capacity at or below what it was, or at or below twice the new size,
      and a capacity that rose was copied whole and is twice what it was. */
  lemma GrowthDoubles<T>(a: Arr<T>, op: Op<T>)
    requires Safe(a, op) && |a.elems| <= a.cap
    ensures var (a1, ret, copied) := Step(a, op);
            && (a1.cap <= a.cap || a1.cap <= 2 * |a1.elems|)
            && (a1.cap > a.cap ==> a1.cap == 2 * a.cap && copied == a.cap && |a.elems| == a.cap)
            && (a1.cap <= a.cap ==> copied == 0)
            && (Grows(op) && ret >= 0 && |a.elems| == a.cap ==> a1.cap == 2 * a.cap)
  {
  }

  /** Over every run the capacity stays within twice the elements there ever were, or what it was at the start. */
  lemma {:induction false} CapacityBound<T>(a: Arr<T>, ops: seq<Op<T>>, bound: nat)
    requires SafeRun(a, ops) && |a.elems| <= a.cap && a.cap != 1
    requires a.cap <= bound && 2 * (|a.elems| + Insertions(a, ops)) <= bound
    ensures Run(a, ops).cap <= bound
    decreases |ops|
  {
    if ops != [] {
      StepShape(a, ops[0]);
      GrowthDoubles(a, ops[0]);
      CapacityBound(Step(a, ops[0]).0, ops[1..], bound);
    }
  }

  /** Insertion after a position puts the element right behind it and keeps the rest, exactly for the positions that
      exist; otherwise it changes nothing. The one position that is let through without existing, 0 in an empty
      array, loses the element. */
  lemma InsertAfterExact<T>(s: seq<Slot<T>>, index: int, x: Slot<T>)
    requires x != None
    ensures var (s', ret) := InsertAfter(s, index, x);
            (ret >= 0 && 0 <= index <= |s| && |s'| == |s| + 1 && ret < |s'| && s'[ret] == x && RemoveAt(s', ret) == s)
            <==> 0 <= index < |s|
    ensures var (s', ret) := InsertAfter(s, index, x);
            if 0 <= index < |s| then ret == index + 1
            else if s == [] && index == 0 then ret == 1 && s' == [None]
            else ret == -1 && s' == s
  {
  }

  /** Insertion before a position puts the element there and keeps the rest, exactly for the positions that exist
      and for position 0 of an empty array; otherwise it changes nothing. */
  lemma InsertBeforeExact<T>(s: seq<Slot<T>>, index: int, x: Slot<T>)
    ensures var (s', ret) := InsertBefore(s, index, x);
            if 0 <= index < |s| || (s == [] && index == 0) then
              ret == index && |s'| == |s| + 1 && s'[index] == x && RemoveAt(s', index) == s
            else ret == -1 && s' == s
  {
  }

  /** What a range deletion does for any two bounds: inside the array and in order, it cuts out [b, e), or the one
      element at b when b == e, and returns how many; otherwise it changes nothing and returns -1. */
  lemma RangeDeletes<T>(s: seq<Slot<T>>, b: int, e: int)
    requires !(s == [] && b == 0 && e == 0)
    ensures var (s', ret) := RangeRemoved(s, b, e);
            if 0 <= b <= e < |s| then
              && ret == (if b == e then 1 else e - b)
              && s' == s[..b] + s[b + ret..] && RangeFreed(s, b, e) == s[b..b + ret]
            else ret == -1 && s' == s && RangeFreed(s, b, e) == []
  {
  }

  /** So deleting [b, e) leaves s[..b] + s[e..] exactly when b < e < |s|, or b == e == |s|. */
  lemma RangeExact<T>(s: seq<Slot<T>>, b: nat, e: nat)
    requires b <= e <= |s| && s != []
    ensures RangeRemoved(s, b, e).0 == s[..b] + s[e..] <==> (if e < |s| then b < e else b == e)
  {
  }

  /** An element-by-element reading of swap removal. */
  lemma SwapRemoveKeeps<T>(s: seq<T>, i: nat)
    requires i < |s|
    ensures multiset(SwapRemove(s, i)) + multiset{s[i]} == multiset(s)
    ensures forall j | 0 <= j < |s| - 1 && j != i :: SwapRemove(s, i)[j] == s[j]
  {
    var last := s[|s| - 1];
    assert s == s[..|s| - 1] + [last];
    assert s[i := last] == SwapRemove(s, i) + [last];
  }

  // ------------------------------------------------------------- who owns the elements

  lemma {:induction false} NonNullConcat<T>(a: seq<Slot<T>>, b: seq<Slot<T>>)
    ensures NonNull(a + b) == NonNull(a) + NonNull(b)
  {
    if a == [] {
      assert a + b == b;
    } else {
      assert (a + b)[0] == a[0] && (a + b)[1..] == a[1..] + b;
      NonNullConcat(a[1..], b);
      Assoc(if a[0].Some? then [a[0].value] else [], NonNull(a[1..]), NonNull(b));
    }
  }

  /** The non-NULL elements, with multiplicity. */
  ghost function Stored<T>(s: seq<Slot<T>>): multiset<T> {
    multiset(NonNull(s))
  }

  lemma StoredConcat<T>(a: seq<Slot<T>>, b: seq<Slot<T>>)
    ensures Stored(a + b) == Stored(a) + Stored(b)
  {
    NonNullConcat(a, b);
  }

  /** The one insertion that goes through without storing its element: after position 0 of an empty array. */
  predicate Loses<T>(s: seq<Slot<T>>, op: Op<T>) {
    op.Insert? && s == [] && op.at == 0
  }

  /** The element that an operation puts into the array. */
  function Placed<T(==)>(s: seq<Slot<T>>, op: Op<T>): seq<Slot<T>>
    requires Safe(Arr(s, 1), op)
  {
    if Grows(op) && Elems(s, op).1 >= 0 && !Loses(s, op) then [op.x] else []
  }

  /** The elements that an operation takes out. */
  function Removed<T(==)>(s: seq<Slot<T>>, op: Op<T>): seq<Slot<T>>
    requires Safe(Arr(s, 1), op)
  {
    match op
    case DeleteIndx(at, _) => if OutOfBounds(at, |s|) then [] else [s[at]]
    case Delete(at, _) => if OutOfBounds(at, |s|) then [] else [s[at]]
    case DeleteObj(x, _) => if IndexOf(s, x) == |s| then [] else [x]
    case DeleteRange(b, e, _) => RangeFreed(s, b, e)
    case Clean(_) => s
    case _ => []
  }

  predicate Frees<T>(op: Op<T>) {
    match op
    case DeleteIndx(_, freeFn) => freeFn
    case Delete(_, freeFn) => freeFn
    case DeleteObj(_, freeFn) => freeFn
    case DeleteRange(_, _, freeFn) => freeFn
    case Clean(freeFn) => freeFn
    case _ => false
  }

  /** What an operation hands to its free function: everything non-NULL that it takes out, if it has one. */
  function Freed<T(==)>(s: seq<Slot<T>>, op: Op<T>): seq<T>
    requires Safe(Arr(s, 1), op)
  {
    if Frees(op) then NonNull(Removed(s, op)) else []
  }

  lemma StoredThree<T>(a: seq<Slot<T>>, b: seq<Slot<T>>, c: seq<Slot<T>>)
    ensures Stored(a + b + c) == Stored(a) + Stored(b) + Stored(c)
  {
    StoredConcat(a + b, c);
    StoredConcat(a, b);
  }

  lemma BetweenBalances<T>(a: seq<Slot<T>>, x: Slot<T>, b: seq<Slot<T>>)
    ensures Stored(a + [x] + b) == Stored(a + b) + Stored([x])
  {
    StoredThree(a, [x], b);
    StoredConcat(a, b);
  }

  lemma InsertBalances<T>(s: seq<Slot<T>>, i: nat, x: Slot<T>)
    requires i <= |s|
    ensures Stored(s[..i] + [x] + s[i..]) == Stored(s) + Stored([x])
  {
    assert s == s[..i] + s[i..];
    BetweenBalances(s[..i], x, s[i..]);
  }

  lemma CutParts<T>(s: seq<Slot<T>>, x: seq<Slot<T>>, y: seq<Slot<T>>, z: seq<Slot<T>>)
    requires s == x + y + z
    ensures Stored(x + z) + Stored(y) == Stored(s)
  {
    StoredConcat(x, z);
    StoredThree(x, y, z);
  }

  lemma CutBalances<T>(s: seq<Slot<T>>, b: nat, e: nat)
    requires b <= e <= |s|
    ensures Stored(s[..b] + s[e..]) + Stored(s[b..e]) == Stored(s)
  {
    SplitThree(s, b, e);
    CutParts(s, s[..b], s[b..e], s[e..]);
  }

  lemma RemoveBalances<T>(s: seq<Slot<T>>, i: nat)
    requires i < |s|
    ensures Stored(RemoveAt(s, i)) + Stored([s[i]]) == Stored(s)
  {
    CutBalances(s, i, i + 1);
    assert s[i..i + 1] == [s[i]];
  }

  lemma SwapBalances<T>(s: seq<Slot<T>>, i: nat)
    requires i < |s|
    ensures Stored(SwapRemove(s, i)) + Stored([s[i]]) == Stored(s)
  {
    var n := |s| - 1;
    var last := s[n];
    if i == n {
      assert SwapRemove(s, i) == s[..n] && s == s[..n] + [last];
      StoredConcat(s[..n], [last]);
    } else {
      var a, c := s[..i], s[i + 1..n];
      assert SwapRemove(s, i) == a + [last] + c;
      StoredThree(a, [last], c);
      assert RemoveAt(s, i) == a + c + [last];
      StoredThree(a, c, [last]);
      RemoveBalances(s, i);
    }
  }

  lemma AppendBalances<T>(s: seq<Slot<T>>, x: Slot<T>)
    ensures Stored(Elems(s, Append(x)).0) == Stored(s) + Stored(Placed(s, Append(x)))
  {
    StoredConcat(s, [x]);
  }

  lemma PreappendBalances<T>(s: seq<Slot<T>>, x: Slot<T>)
    ensures Stored(Elems(s, Preappend(x)).0) == Stored(s) + Stored(Placed(s, Preappend(x)))
  {
    StoredConcat([x], s);
  }

  lemma LostBalances<T>(x: Slot<T>)
    ensures Stored(Elems([], Insert(x, 0)).0) == multiset{} && Placed([], Insert(x, 0)) == []
  {
    assert Elems([], Insert(x, 0)).0 == [None];
  }

  lemma PlacedAfter<T>(s: seq<Slot<T>>, at: int, x: Slot<T>)
    requires 0 <= at < |s|
    ensures Elems(s, Insert(x, at)).0 == s[..at + 1] + [x] + s[at + 1..] && Placed(s, Insert(x, at)) == [x]
  {
  }

  lemma InsertAfterBalances<T>(s: seq<Slot<T>>, at: int, x: Slot<T>)
    ensures Stored(Elems(s, Insert(x, at)).0) == Stored(s) + Stored(Placed(s, Insert(x, at)))
  {
    if s == [] && at == 0 {
      LostBalances(x);
    } else if 0 <= at < |s| {
      PlacedAfter(s, at, x);
      InsertBalances(s, at + 1, x);
    } else {
      assert Elems(s, Insert(x, at)) == (s, -1) && Placed(s, Insert(x, at)) == [];
    }
  }

  lemma InsertBeforeBalances<T>(s: seq<Slot<T>>, at: int, x: Slot<T>)
    ensures Stored(Elems(s, Preinsert(x, at)).0) == Stored(s) + Stored(Placed(s, Preinsert(x, at)))
  {
    var op: Op<T> := Preinsert(x, at);
    if at == 0 {
      assert Elems(s, op) == ([x] + s, 0) && Placed(s, op) == [x];
      StoredConcat([x], s);
    } else if 0 < at < |s| {
      assert Elems(s, op) == (s[..at] + [x] + s[at..], at) && Placed(s, op) == [x];
      InsertBalances(s, at, x);
    } else {
      assert Elems(s, op) == (s, -1) && Placed(s, op) == [];
    }
  }

  lemma PutBalances<T>(s: seq<Slot<T>>, op: Op<T>)
    requires Safe(Arr(s, 1), op) && Grows(op)
    ensures Stored(Elems(s, op).0) == Stored(s) + Stored(Placed(s, op))
  {
    match op
    case Append(x) => AppendBalances(s, x);
    case Preappend(x) => PreappendBalances(s, x);
    case Insert(x, at) => InsertAfterBalances(s, at, x);
    case Preinsert(x, at) => InsertBeforeBalances(s, at, x);
  }

  lemma TakeBalances<T>(s: seq<Slot<T>>, op: Op<T>)
    requires Safe(Arr(s, 1), op) && !Grows(op)
    ensures Stored(Elems(s, op).0) + Stored(Removed(s, op)) == Stored(s)
  {
    match op
    case DeleteIndx(at, _) =>
      if !OutOfBounds(at, |s|) {
        RemoveBalances(s, at);
      }
    case Delete(at, _) =>
      if !OutOfBounds(at, |s|) {
        SwapBalances(s, at);
      }
    case DeleteObj(x, _) =>
      if IndexOf(s, x) < |s| {
        SwapBalances(s, IndexOf(s, x));
      }
    case DeleteRange(b, e, _) => RangeBalances(s, b, e);
    case Clean(_) =>
    case Tighten =>
  }

  lemma RangeBalances<T>(s: seq<Slot<T>>, b: int, e: int)
    requires !(s == [] && b == 0 && e == 0)
    ensures Stored(RangeRemoved(s, b, e).0) + Stored(RangeFreed(s, b, e)) == Stored(s)
  {
    if !OutOfBounds(b, |s|) && !OutOfBounds(e, |s|) && b <= e {
      if b == e {
        RemoveBalances(s, b);
      } else {
        CutBalances(s, b, e);
      }
    }
  }

  /** One operation: what is stored afterwards and what was taken out are what was stored before and what was put in. */
  lemma StepBalances<T>(s: seq<Slot<T>>, op: Op<T>)
    requires Safe(Arr(s, 1), op)
    ensures Stored(Elems(s, op).0) + Stored(Removed(s, op)) == Stored(s) + Stored(Placed(s, op))
  {
    if Grows(op) {
      PutBalances(s, op);
    } else {
      TakeBalances(s, op);
    }
  }

  /** What a run puts in, what it takes out, and what of that it frees. */
  ghost function AllPlaced<T>(a: Arr<T>, ops: seq<Op<T>>): multiset<T>
    requires SafeRun(a, ops)
    decreases |ops|
  {
    if ops == [] then multiset{} else Stored(Placed(a.elems, ops[0])) + AllPlaced(Step(a, ops[0]).0, ops[1..])
  }

  ghost function AllRemoved<T>(a: Arr<T>, ops: seq<Op<T>>): multiset<T>
    requires SafeRun(a, ops)
    decreases |ops|
  {
    if ops == [] then multiset{} else Stored(Removed(a.elems, ops[0])) + AllRemoved(Step(a, ops[0]).0, ops[1..])
  }

  function AllFreed<T(==)>(a: Arr<T>, ops: seq<Op<T>>): seq<T>
    requires SafeRun(a, ops)
    decreases |ops|
  {
    if ops == [] then [] else Freed(a.elems, ops[0]) + AllFreed(Step(a, ops[0]).0, ops[1..])
  }

  /** Over every run: what is stored at the end and what was taken out are what was stored at the start and what was put
      in. Nothing is lost but the element of an insertion after position 0 of an empty array, and nothing is taken
      out twice. */
  lemma {:induction false} RunBalances<T>(a: Arr<T>, ops: seq<Op<T>>)
    requires SafeRun(a, ops)
    ensures Stored(Run(a, ops).elems) + AllRemoved(a, ops) == Stored(a.elems) + AllPlaced(a, ops)
    decreases |ops|
  {
    if ops != [] {
      var a1 := Step(a, ops[0]).0;
      assert a1.elems == Elems(a.elems, ops[0]).0;
      StepBalances(a.elems, ops[0]);
      RunBalances(a1, ops[1..]);
      BalanceOn(Stored(a.elems), Stored(a1.elems), Stored(Run(a, ops).elems),
                Stored(Removed(a.elems, ops[0])), AllRemoved(a1, ops[1..]),
                Stored(Placed(a.elems, ops[0])), AllPlaced(a1, ops[1..]));
    }
  }

  lemma BalanceOn<T>(s0: multiset<T>, s1: multiset<T>, s2: multiset<T>,
                     r1: multiset<T>, r2: multiset<T>, p1: multiset<T>, p2: multiset<T>)
    requires s1 + r1 == s0 + p1 && s2 + r2 == s1 + p2
    ensures s2 + (r1 + r2) == s0 + (p1 + p2)
  {
    forall x
      ensures (s2 + (r1 + r2))[x] == (s0 + (p1 + p2))[x]
    {
      assert (s1 + r1)[x] == (s0 + p1)[x] && (s2 + r2)[x] == (s1 + p2)[x];
    }
  }

  /** How many insertions of x a run accepts and stores. */
  ghost function Placements<T>(a: Arr<T>, ops: seq<Op<T>>, x: T): nat
    requires SafeRun(a, ops)
    decreases |ops|
  {
    if ops == [] then 0 else
    var (a1, ret, _) := Step(a, ops[0]);
    var lost := a.elems == [] && ops[0].Insert?;
    (if Grows(ops[0]) && ops[0].x == Some(x) && ret >= 0 && !lost then 1 else 0) + Placements(a1, ops[1..], x)
  }

  lemma {:induction false} PlacedIs<T>(a: Arr<T>, ops: seq<Op<T>>, x: T)
    requires SafeRun(a, ops)
    ensures AllPlaced(a, ops)[x] == Placements(a, ops, x)
    decreases |ops|
  {
    if ops != [] {
      PlacedIs(Step(a, ops[0]).0, ops[1..], x);
      NonNullCounts(Placed(a.elems, ops[0]), x);
    }
  }

  /** The same in terms of what the slots hold. */
  lemma StoredIs<T>(s: seq<Slot<T>>, x: T)
    ensures Stored(s)[x] == multiset(s)[Some(x)]
  {
    NonNullCounts(s, x);
  }

  lemma StepFrees<T>(s: seq<Slot<T>>, op: Op<T>)
    requires Safe(Arr(s, 1), op)
    ensures multiset(Freed(s, op)) <= Stored(Removed(s, op))
    ensures Frees(op) || Grows(op) || op.Tighten? ==> multiset(Freed(s, op)) == Stored(Removed(s, op))
  {
  }

  lemma FreedConcat<T>(a: seq<T>, b: seq<T>)
    ensures multiset(a + b) == multiset(a) + multiset(b)
  {
  }

  /** A run frees only what it takes out, and all of it if every operation that takes elements out has a free
      function. */
  lemma {:induction false} RunFrees<T(!new)>(a: Arr<T>, ops: seq<Op<T>>)
    requires SafeRun(a, ops)
    ensures multiset(AllFreed(a, ops)) <= AllRemoved(a, ops)
    ensures (forall i | 0 <= i < |ops| :: Frees(ops[i]) || Grows(ops[i]) || ops[i].Tighten?) ==>
              multiset(AllFreed(a, ops)) == AllRemoved(a, ops)
    decreases |ops|
  {
    if ops != [] {
      var a1 := Step(a, ops[0]).0;
      RunFrees(a1, ops[1..]);
      StepFrees(a.elems, ops[0]);
      FreedConcat(Freed(a.elems, ops[0]), AllFreed(a1, ops[1..]));
      assert forall i | 0 <= i < |ops| - 1 :: ops[1..][i] == ops[i + 1];
    }
  }

  /** From an empty array on, with a free function used throughout: an element that was put in once is either stored
      once or was freed once, and one that was never put in is neither. */
  lemma StoredOrFreed<T(!new)>(cap: nat, ops: seq<Op<T>>, x: T)
    requires SafeRun(Arr([], cap), ops)
    requires forall i | 0 <= i < |ops| :: Frees(ops[i]) || Grows(ops[i]) || ops[i].Tighten?
    ensures var a := Arr([], cap);
            multiset(Run(a, ops).elems)[Some(x)] + multiset(AllFreed(a, ops))[x] == Placements(a, ops, x)
  {
    var a: Arr<T> := Arr([], cap);
    NonNullCounts(Run(a, ops).elems, x);
    PlacedIs(a, ops, x);
    RunBalances(a, ops);
    RunFrees(a, ops);
    assert (Stored(Run(a, ops).elems) + AllRemoved(a, ops))[x] == AllPlaced(a, ops)[x];
  }

  // ------------------------------------------------------------- runs on the heap

  /** The value of an array on the heap. */
  ghost function Value<T>(a: Array<T>): Arr<T>
    requires a.Valid()
    reads a, a.data
  {
    Arr(a.Contents(), a.data.Length)
  }

  /** One operation on the heap: the same contents, capacity, return value, copies and freed elements as on the
      value. */
  method Perform<T>(a: Array<T>, op: Op<T>) returns (ret: int, copied: nat, freed: seq<T>)
    requires a.Valid() && Safe(Value(a), op)
    modifies a, a.data
    ensures a.Valid() && (a.data == old(a.data) || fresh(a.data))
    ensures (Value(a), ret, copied) == Step(old(Value(a)), op) && freed == Freed(old(a.Contents()), op)
  {
    ret, copied, freed := 0, 0, [];
    match op
    case Append(x) => ret, copied := a.Append(x);
    case Preappend(x) => ret, copied := a.Preappend(x);
    case Insert(x, at) => ret, copied := a.Insert(x, at);
    case Preinsert(x, at) => ret, copied := a.Preinsert(x, at);
    case DeleteIndx(at, freeFn) => ret, freed := a.DeleteIndx(at, freeFn);
    case Delete(at, freeFn) => ret, freed := a.Delete(at, freeFn);
    case DeleteObj(x, freeFn) => ret, freed := a.DeleteObj(x, freeFn);
    case DeleteRange(b, e, freeFn) => ret, freed := a.DeleteRange(b, e, freeFn);
    case Clean(freeFn) => freed := a.Clean(freeFn);
    case Tighten => a.Tighten();
  }

  /** A whole run on the heap, with the cells that all its growth reallocations copied and the elements it freed. */
  method PerformAll<T>(a: Array<T>, ops: seq<Op<T>>) returns (copied: nat, freed: seq<T>)
    requires a.Valid() && SafeRun(Value(a), ops)
    modifies a, a.data
    ensures a.Valid() && (a.data == old(a.data) || fresh(a.data))
    ensures Value(a) == Run(old(Value(a)), ops) && copied == Copies(old(Value(a)), ops)
    ensures freed == AllFreed(old(Value(a)), ops)
    ensures copied <= Credit(old(Value(a))) + 2 * Insertions(old(Value(a)), ops)
    ensures Stored(a.Contents()) + AllRemoved(old(Value(a)), ops) ==
            Stored(old(a.Contents())) + AllPlaced(old(Value(a)), ops)
  {
    AmortisedGrowth(Value(a), ops);
    RunBalances(Value(a), ops);
    copied, freed := 0, [];
    var i := 0;
    while i < |ops|
      invariant 0 <= i <= |ops|
      invariant a.Valid() && (a.data == old(a.data) || fresh(a.data))
      invariant SafeRun(Value(a), ops[i..]) && Run(Value(a), ops[i..]) == Run(old(Value(a)), ops)
      invariant copied + Copies(Value(a), ops[i..]) == Copies(old(Value(a)), ops)
      invariant freed + AllFreed(Value(a), ops[i..]) == AllFreed(old(Value(a)), ops)
      modifies a, a.data
    {
      assert ops[i..][0] == ops[i] && ops[i..][1..] == ops[i + 1..];
      ghost var v := Value(a);
      var _, more, gone := Perform(a, ops[i]);
      Assoc(freed, gone, AllFreed(Value(a), ops[i + 1..]));
      copied := copied + more;
      freed := freed + gone;
      i := i + 1;
    }
  }
}
