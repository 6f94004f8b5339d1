/** The growable array of pointers. A slot is None for NULL. */
module Arrays {
  import opened Seqs

  const DEFAULT_SIZE: nat := 64

  type Slot<T> = Option<T>

  // ------------------------------------------------------------- what each operation means

  /** Capacity after try_extend_array. */
  function Grown(size: nat, cap: nat): nat {
    if cap <= size then 2 * cap else cap
  }

  /** Cells that try_extend_array copies into a new block. */
  function Copied(size: nat, cap: nat): nat {
    if cap <= size then cap else 0
  }

  predicate OutOfBounds(index: int, size: nat) {
    if size == 0 then index != 0 else index < 0 || index >= size
  }

  /** Insertion after a position. On an empty array position 0 is let through: the new element goes to
      slot 1 and the array of size 1 shows slot 0, which is NULL. */
  function InsertAfter<T>(s: seq<Slot<T>>, index: int, x: Slot<T>): (seq<Slot<T>>, int) {
    if OutOfBounds(index, |s|) then (s, -1)
    else if s == [] then ([None], 1)
    else (s[..index + 1] + [x] + s[index + 1..], index + 1)
  }

  function InsertBefore<T>(s: seq<Slot<T>>, index: int, x: Slot<T>): (seq<Slot<T>>, int) {
    if OutOfBounds(index, |s|) then (s, -1)
    else if index == 0 then ([x] + s, 0)
    else (s[..index] + [x] + s[index..], index)
  }

  function NonNull<T>(s: seq<Slot<T>>): seq<T> {
    if s == [] then [] else (if s[0].Some? then [s[0].value] else []) + NonNull(s[1..])
  }

  class Array<T(==)> {
    var data: array<Slot<T>>
    var size: nat
    var hasEraseFn: bool

    ghost predicate Valid()
      reads this, data
    {
      && size <= data.Length && data.Length != 1
      && (size == 0 && data.Length > 0 ==> data[0] == None)
    }

    ghost function Contents(): (s: seq<Slot<T>>)
      requires Valid()
      reads this, data
    {
      data[..size]
    }

    /** The array that mcl_array_new makes for a size that it accepts. */
    constructor (initSize: nat)
      ensures Valid() && fresh(data) && Contents() == [] && !hasEraseFn
      ensures data.Length == if initSize > 64 then 2 * initSize else 64
    {
      data := new Slot<T>[if initSize > DEFAULT_SIZE then 2 * initSize else DEFAULT_SIZE](_ => None);
      size := 0;
      hasEraseFn := false;
    }

    /** realloc to a larger block: the old cells are copied, the new ones are indeterminate. */
    method Extend(newSize: nat) returns (copied: nat)
      requires Valid() && newSize != 1 && (newSize > 0 ==> data.Length > 0)
      modifies this`data
      ensures Valid() && Contents() == old(Contents())
      ensures newSize <= old(data.Length) ==> data == old(data) && copied == 0
      ensures newSize > old(data.Length) ==> fresh(data) && data.Length == newSize && copied == old(data.Length)
    {
      if newSize <= data.Length {
        return 0;
      }
      var block := new Slot<T>[newSize];
      var i := 0;
      while i < data.Length
        invariant 0 <= i <= data.Length < block.Length
        invariant block[..i] == data[..i]
        invariant data == old(data) && unchanged(data)
      {
        block[i] := data[i];
        i := i + 1;
      }
      copied := i;
      assert block[..i] == data[..i];
      data := block;
    }

    method TryExtend() returns (copied: nat)
      requires Valid()
      modifies this`data
      ensures Valid() && Contents() == old(Contents())
      ensures data == old(data) || fresh(data)
      ensures data.Length == Grown(size, old(data.Length)) && copied == Copied(size, old(data.Length))
      ensures old(data.Length) <= size ==> data.Length == 2 * old(data.Length) && copied == old(data.Length)
      ensures size < old(data.Length) ==> data == old(data) && copied == 0
    {
      copied := 0;
      if data.Length <= size {
        copied := Extend(2 * data.Length);
      }
    }

    method Append(x: Slot<T>) returns (index: int, copied: nat)
      requires Valid() && data.Length > 0
      modifies this, data
      ensures Valid() && (data == old(data) || fresh(data)) && hasEraseFn == old(hasEraseFn)
      ensures Contents() == old(Contents()) + [x] && index == |old(Contents())|
      ensures data.Length == Grown(old(size), old(data.Length)) && copied == Copied(old(size), old(data.Length))
    {
      index := size;
      copied := TryExtend();
      data[index] := x;
      size := size + 1;
    }

    /** Moves the cells from lo on up by one. */
    method ShiftUp(lo: nat)
      requires lo <= size < data.Length
      modifies data
      ensures data[..lo] == old(data[..lo]) && data[lo + 1..size + 1] == old(data[lo..size])
    {
      ghost var was := data[..];
      var i := size;
      while i > lo
        invariant lo <= i <= size
        invariant forall j | 0 <= j < i :: data[j] == was[j]
        invariant forall j | i < j <= size :: data[j] == was[j - 1]
      {
        data[i] := data[i - 1];
        i := i - 1;
      }
    }

    /** Opens a gap at lo and fills it with x. */
    method PutAt(lo: nat, x: Slot<T>)
      requires lo <= size < data.Length
      modifies data
      ensures data[..size + 1] == old(data[..lo]) + [x] + old(data[lo..size])
    {
      ShiftUp(lo);
      ghost var above := data[lo + 1..size + 1];
      data[lo] := x;
      assert data[lo + 1..size + 1] == above;
      assert data[..size + 1] == data[..lo] + [data[lo]] + data[lo + 1..size + 1];
    }

    /** Makes room if there is none, then puts x at position lo. */
    method Place(lo: nat, x: Slot<T>) returns (copied: nat)
      requires Valid() && data.Length > 0 && lo <= size
      modifies this, data
      ensures Valid() && (data == old(data) || fresh(data)) && hasEraseFn == old(hasEraseFn)
      ensures Contents() == old(Contents())[..lo] + [x] + old(Contents())[lo..]
      ensures data.Length == Grown(old(size), old(data.Length)) && copied == Copied(old(size), old(data.Length))
    {
      ghost var was := Contents();
      copied := TryExtend();
      assert data[..lo] == was[..lo] && data[lo..size] == was[lo..] by {
        assert was == data[..size];
      }
      PutAt(lo, x);
      size := size + 1;
    }

    method Preappend(x: Slot<T>) returns (index: int, copied: nat)
      requires Valid() && data.Length > 0
      modifies this, data
      ensures Valid() && (data == old(data) || fresh(data)) && hasEraseFn == old(hasEraseFn)
      ensures Contents() == [x] + old(Contents()) && index == 0
      ensures data.Length == Grown(old(size), old(data.Length)) && copied == Copied(old(size), old(data.Length))
    {
      copied := Place(0, x);
      index := 0;
    }

    method Insert(x: Slot<T>, at: int) returns (index: int, copied: nat)
      requires Valid() && data.Length > 0
      modifies this, data
      ensures Valid() && (data == old(data) || fresh(data)) && hasEraseFn == old(hasEraseFn)
      ensures (Contents(), index) == InsertAfter(old(Contents()), at, x)
      ensures if index >= 0 then
                data.Length == Grown(old(size), old(data.Length)) && copied == Copied(old(size), old(data.Length))
              else data == old(data) && copied == 0
    {
      if OutOfBounds(at, size) {
        return -1, 0;
      }
      if at == size - 1 {
        ghost var was := Contents();
        assert was[..at + 1] == was && was[at + 1..] == [];
        index, copied := Append(x);
        assert Contents() == was[..at + 1] + [x] + was[at + 1..];
      } else if size == 0 {
        copied := TryExtend();
        data[1] := x;
        size := 1;
        index := 1;
        assert Contents() == [None];
      } else {
        copied := Place(at + 1, x);
        index := at + 1;
      }
    }

    method Preinsert(x: Slot<T>, at: int) returns (index: int, copied: nat)
      requires Valid() && data.Length > 0
      modifies this, data
      ensures Valid() && (data == old(data) || fresh(data)) && hasEraseFn == old(hasEraseFn)
      ensures (Contents(), index) == InsertBefore(old(Contents()), at, x)
      ensures if index >= 0 then
                data.Length == Grown(old(size), old(data.Length)) && copied == Copied(old(size), old(data.Length))
              else data == old(data) && copied == 0
    {
      if OutOfBounds(at, size) {
        return -1, 0;
      }
      if at == 0 {
        index, copied := Preappend(x);
      } else {
        copied := Place(at, x);
        index := at;
      }
    }

    /** Deletes one position and keeps the order; the vacated slot becomes NULL. */
    method DeleteIndx(at: int, freeFn: bool) returns (index: int, freed: seq<T>)
      requires Valid() && !(size == 0 && at == 0)
      modifies this, data
      ensures Valid() && data == old(data) && hasEraseFn == old(hasEraseFn)
      ensures OutOfBounds(at, old(size)) ==> index == -1 && freed == [] && Contents() == old(Contents())
      ensures !OutOfBounds(at, old(size)) ==>
                && index == at && Contents() == RemoveAt(old(Contents()), at)
                && data[size] == None
                && freed == if freeFn then NonNull([old(Contents())[at]]) else []
    {
      if OutOfBounds(at, size) {
        return -1, [];
      }
      ghost var was := Contents();
      freed := if freeFn && data[at].Some? then [data[at].value] else [];
      ShiftDown(at);
      size := size - 1;
      index := at;
      assert data[..size] == data[..at] + data[at..size] == was[..at] + was[at + 1..];
    }

    /** Moves the cells above `at` down by one and clears the last. */
    method ShiftDown(at: nat)
      requires at < size <= data.Length
      modifies data
      ensures data[..at] == old(data[..at]) && data[at..size - 1] == old(data[at + 1..size])
      ensures data[size - 1] == None
    {
      ghost var was := data[..];
      var i := at;
      while i < size - 1
        invariant at <= i <= size - 1
        invariant forall j | 0 <= j < at :: data[j] == was[j]
        invariant forall j | at <= j < i :: data[j] == was[j + 1]
        invariant forall j | i <= j < size :: data[j] == was[j]
      {
        data[i] := data[i + 1];
        i := i + 1;
      }
      data[i] := None;
    }

    /** Deletes one position by moving the last element into it. */
    method Delete(at: int, freeFn: bool) returns (index: int, freed: seq<T>)
      requires Valid() && !(size == 0 && at == 0)
      modifies this, data
      ensures Valid() && data == old(data) && hasEraseFn == old(hasEraseFn)
      ensures OutOfBounds(at, old(size)) ==> index == -1 && freed == [] && Contents() == old(Contents())
      ensures !OutOfBounds(at, old(size)) ==>
                && index == at && Contents() == SwapRemove(old(Contents()), at)
                && freed == if freeFn then NonNull([old(Contents())[at]]) else []
    {
      if OutOfBounds(at, size) {
        return -1, [];
      }
      freed := if freeFn && data[at].Some? then [data[at].value] else [];
      data[at] := data[size - 1];
      data[size - 1] := None;
      size := size - 1;
      index := at;
    }

    method DeleteObj(x: Slot<T>, freeFn: bool) returns (index: int, freed: seq<T>)
      requires Valid()
      modifies this, data
      ensures Valid() && data == old(data) && hasEraseFn == old(hasEraseFn)
      ensures var k := IndexOf(old(Contents()), x);
              if k == |old(Contents())| then index == -1 && freed == [] && Contents() == old(Contents())
              else
                && index == k && Contents() == SwapRemove(old(Contents()), k)
                && freed == if freeFn then NonNull([x]) else []
    {
      var i := 0;
      while i < size
        invariant 0 <= i <= size
        invariant forall j | 0 <= j < i :: data[j] != x
      {
        if data[i] == x {
          break;
        }
        i := i + 1;
      }
      assert i == IndexOf(Contents(), x);
      if i >= size {
        return -1, [];
      }
      index, freed := Delete(i, freeFn);
    }

    /** Frees and clears the non-NULL slots of [b, e) when a free function is given. */
    method FreeRange(b: nat, e: nat, freeFn: bool) returns (freed: seq<T>)
      requires b <= e <= data.Length
      modifies data
      ensures forall j | 0 <= j < b || e <= j < data.Length :: data[j] == old(data[j])
      ensures forall j | b <= j < e :: data[j] == if freeFn then None else old(data[j])
      ensures freed == if freeFn then NonNull(old(data[b..e])) else []
    {
      ghost var was := data[..];
      freed := [];
      var i := b;
      while i < e
        invariant b <= i <= e
        invariant forall j | 0 <= j < b || i <= j < data.Length :: data[j] == was[j]
        invariant forall j | b <= j < i :: data[j] == if freeFn then None else was[j]
        invariant freed == if freeFn then NonNull(was[b..i]) else []
      {
        NonNullSnoc(was[b..i], was[i]);
        assert was[b..i + 1] == was[b..i] + [was[i]];
        if freeFn && data[i].Some? {
          freed := freed + [data[i].value];
          data[i] := None;
        }
        i := i + 1;
      }
    }

    /** Moves [e, size) down to b, clearing each source cell after its move: the two ranges may overlap. What is
        left of the source range is NULL; cells between the two ranges stay as they are. */
    method MoveDown(b: nat, e: nat)
      requires b < e <= size <= data.Length
      modifies data
      ensures forall j | 0 <= j < b :: data[j] == old(data[j])
      ensures forall j | e <= j < size :: data[j - (e - b)] == old(data[j])
      ensures forall j | b + (size - e) <= j < e :: data[j] == old(data[j])
      ensures forall j | e <= j < size && b + (size - e) <= j :: data[j] == None
    {
      ghost var was := data[..];
      var cnt := e - b;
      var i := e;
      while i < size
        invariant e <= i <= size
        invariant forall j | 0 <= j < b :: data[j] == was[j]
        invariant forall j | e <= j < i :: data[j - cnt] == was[j]
        invariant forall j | i - cnt <= j < e :: data[j] == was[j]
        invariant forall j | e <= j < i && i - cnt <= j :: data[j] == None
        invariant forall j | i <= j < size :: data[j] == was[j]
      {
        data[i - cnt] := data[i];
        data[i] := None;
        i := i + 1;
      }
    }

    method DeleteRange(b: int, e: int, freeFn: bool) returns (ret: int, freed: seq<T>)
      requires Valid() && !(size == 0 && b == 0 && e == 0)
      modifies this, data
      ensures Valid() && data == old(data) && hasEraseFn == old(hasEraseFn)
      ensures (Contents(), ret) == RangeRemoved(old(Contents()), b, e)
      ensures freeFn ==> forall j | size <= j < old(size) :: data[j] == None
      ensures freed == if freeFn then NonNull(RangeFreed(old(Contents()), b, e)) else []
    {
      if OutOfBounds(b, size) || OutOfBounds(e, size) || b > e {
        return -1, [];
      }
      if b == e {
        var _, f := DeleteIndx(b, freeFn);
        freed := f;
        return 1, freed;
      }
      ghost var was := Contents();
      PrefixSlices(data[..], size, b, e);
      assert data[..][..size] == was && data[..][..b] == data[..b] && data[..][b..e] == data[b..e];
      freed := CutRange(b, e, freeFn);
      size := size - (e - b);
      ret := e - b;
    }

    /** Frees the elements of [b, e) and closes the gap. */
    method CutRange(b: nat, e: nat, freeFn: bool) returns (freed: seq<T>)
      requires b < e < size <= data.Length
      modifies data
      ensures data[..b + (size - e)] == old(data[..b]) + old(data[e..size])
      ensures freeFn ==> forall j | b + (size - e) <= j < size :: data[j] == None
      ensures freed == if freeFn then NonNull(old(data[b..e])) else []
    {
      ghost var kept := data[..b] + data[e..size];
      freed := FreeRange(b, e, freeFn);
      ghost var mid := data[..];
      assert forall j | e <= j < size :: mid[j] == kept[j - (e - b)];
      MoveDown(b, e);
      forall j | 0 <= j < |kept|
        ensures data[j] == kept[j]
      {
        if j >= b {
          assert data[j + (e - b) - (e - b)] == mid[j + (e - b)];
        }
      }
    }

    /** Empties the array; the slots become NULL. */
    method Clean(freeFn: bool) returns (freed: seq<T>)
      requires Valid()
      modifies this, data
      ensures Valid() && data == old(data) && hasEraseFn == old(hasEraseFn)
      ensures Contents() == [] && freed == if freeFn then NonNull(old(Contents())) else []
    {
      ghost var was := Contents();
      freed := [];
      var i := 0;
      while i < size
        invariant 0 <= i <= size
        invariant freed == if freeFn then NonNull(was[..i]) else []
        invariant forall j | 0 <= j < i :: data[j] == None
        invariant forall j | i <= j < data.Length :: data[j] == old(data[j])
        modifies data
      {
        assert data[i] == was[i];
        NonNullSnoc(was[..i], was[i]);
        assert was[..i + 1] == was[..i] + [was[i]];
        if freeFn && data[i].Some? {
          freed := freed + [data[i].value];
        }
        data[i] := None;
        i := i + 1;
      }
      assert was[..i] == was;
      assert size == 0 ==> Valid();
      size := 0;
    }

    /** Cuts the capacity down to twice the size. */
    method Tighten()
      requires Valid()
      modifies this`data
      ensures Valid() && Contents() == old(Contents())
      ensures data == old(data) || fresh(data)
      ensures data.Length == if old(data.Length) <= 2 * size then old(data.Length) else 2 * size
    {
      if data.Length <= 2 * size {
        return;
      }
      var block := new Slot<T>[2 * size](_ => None);
      var i := 0;
      while i < 2 * size
        invariant 0 <= i <= 2 * size < data.Length && block.Length == 2 * size
        invariant block[..i] == data[..i]
        invariant data == old(data) && unchanged(data)
      {
        block[i] := data[i];
        i := i + 1;
      }
      assert block[..size] == block[..i][..size] == data[..size];
      data := block;
    }

    // ---------------------------------------------------------------- iterator

    /** The iterator stands at position i; at the end its pointer is NULL. */
    ghost predicate Points(it: ArrayIter<T>, i: nat)
      reads this, data, it
    {
      && i <= size <= data.Length
      && if i < size then it.index == i && it.ptr == data[i]
         else it.ptr == None && (it.index == -1 || it.index == size)
    }

    method IterHead(it: ArrayIter<T>)
      requires Valid()
      modifies it
      ensures Points(it, 0)
    {
      if size <= 0 {
        it.ptr, it.index := None, -1;
      } else {
        it.ptr, it.index := data[0], 0;
      }
    }

    method IterTail(it: ArrayIter<T>)
      requires Valid()
      modifies it
      ensures Points(it, if size == 0 then 0 else size - 1)
    {
      if size <= 0 {
        it.ptr, it.index := None, -1;
      } else {
        it.ptr, it.index := data[size - 1], size - 1;
      }
    }

    /** One position on. Past the end the iterator is unset, and stepping an unset iterator starts over at the head;
        after the last element was erased it is not unset yet, and the next step unsets it. */
    method IterNext(it: ArrayIter<T>, ghost i: nat)
      requires Valid() && Points(it, i) && (it.index == -1 ==> data.Length > 0)
      modifies it
      ensures Points(it, if i < size then i + 1 else if old(it.index) == -1 then 0 else size)
    {
      it.index := it.index + 1;
      if OutOfBounds(it.index, size) {
        it.ptr, it.index := None, -1;
      } else {
        it.ptr := data[it.index];
      }
    }

    /** One position back; before the head, and from an unset iterator, the iterator is unset. */
    method IterPrev(it: ArrayIter<T>, ghost i: nat)
      requires Valid() && Points(it, i)
      modifies it
      ensures Points(it, if old(it.index) <= 0 then size else old(it.index) - 1)
    {
      it.index := it.index - 1;
      if OutOfBounds(it.index, size) {
        it.ptr, it.index := None, -1;
      } else {
        it.ptr := data[it.index];
      }
    }

    /** Deletes the position the iterator stands on. The iterator stays and shows the element that moved
        in, or the NULL left behind when the last element went. */
    method IterErase(it: ArrayIter<T>, ghost i: nat) returns (ok: bool, freed: seq<T>)
      requires Valid() && Points(it, i) && !(size == 0 && it.index == 0)
      modifies this, data, it
      ensures Valid() && data == old(data) && hasEraseFn == old(hasEraseFn)
      ensures ok == (i < |old(Contents())|)
      ensures !ok ==> Contents() == old(Contents()) && freed == [] && Points(it, i)
      ensures ok ==>
                && Contents() == RemoveAt(old(Contents()), i) && Points(it, i)
                && freed == if hasEraseFn then NonNull([old(Contents())[i]]) else []
    {
      if OutOfBounds(it.index, size) {
        it.ptr, it.index := None, -1;
        return false, [];
      }
      var index;
      index, freed := DeleteIndx(it.index, hasEraseFn);
      it.index := index;
      it.ptr := data[index];
      ok := true;
    }
  }

  /** mcl_array_new: NULL for a negative size. */
  method NewArray<T>(initSize: int) returns (a: Array?<T>)
    ensures a == null <==> initSize < 0
    ensures a != null ==> a.Valid() && fresh(a) && fresh(a.data) && a.Contents() == []
    ensures a != null ==> a.data.Length == if initSize > 64 then 2 * initSize else 64
  {
    if initSize < 0 {
      return null;
    }
    a := new Array<T>(initSize);
  }

  class ArrayIter<T> {
    var ptr: Slot<T>
    var index: int

    constructor ()
      ensures ptr == None && index == -1
    {
      ptr, index := None, -1;
    }
  }

  /** How far a walk gets: up to the first NULL element. */
  function Reach<T>(s: seq<Slot<T>>): nat {
    FirstIndex(s, (x: Slot<T>) => x.None?)
  }

  /** One turn of a walking client: erase the element or step past it. */
  method WalkTurn<T>(a: Array<T>, it: ArrayIter<T>, ghost i: nat, erase: bool) returns (seen: Slot<T>, freed: seq<T>)
    requires a.Valid() && a.Points(it, i) && it.ptr.Some?
    modifies a, a.data, it
    ensures a.Valid() && a.data == old(a.data) && a.hasEraseFn == old(a.hasEraseFn)
    ensures i < |old(a.Contents())| && seen == old(a.Contents())[i]
    ensures a.Contents() == if erase then RemoveAt(old(a.Contents()), i) else old(a.Contents())
    ensures a.Points(it, if erase then i else i + 1)
    ensures freed == if erase && a.hasEraseFn then NonNull([seen]) else []
  {
    seen := it.ptr;
    freed := [];
    if erase {
      var _, f := a.IterErase(it, i);
      freed := f;
    } else {
      a.IterNext(it, i);
    }
  }

  /** The contents in the middle of a walk: what was kept so far, then what lies ahead. */
  ghost function Midway<T>(was: seq<Slot<T>>, choose: nat -> bool, n: nat): seq<Slot<T>>
    requires n <= |was|
  {
    Kept(was[..n], choose, 0) + was[n..]
  }

  lemma {:induction false} WalkAdvances<T>(was: seq<Slot<T>>, choose: nat -> bool, n: nat)
    requires n < |was|
    ensures var i, now := |Kept(was[..n], choose, 0)|, Midway(was, choose, n);
            && i < |now| && now[i] == was[n]
            && Midway(was, choose, n + 1) == (if choose(n) then RemoveAt(now, i) else now)
            && |Kept(was[..n + 1], choose, 0)| == (if choose(n) then i else i + 1)
  {
    var kept, x, rest := Kept(was[..n], choose, 0), was[n], was[n + 1..];
    assert was[..n + 1] == was[..n] + [x];
    assert was[n..] == [x] + rest;
    KeptSnoc(was[..n], x, choose, 0);
    Assoc(kept, [x], rest);
    RemoveMiddle(kept, x, rest);
    assert kept + [] == kept;
  }

  lemma RemoveMiddle<T>(a: seq<T>, x: T, b: seq<T>)
    ensures RemoveAt(a + ([x] + b), |a|) == a + b
  {
  }

  /** The walk is at element n of the original: it goes on exactly when that element is not NULL. */
  lemma {:induction false} MidwayHead<T>(was: seq<Slot<T>>, choose: nat -> bool, n: nat)
    requires n <= Reach(was)
    ensures var i, now := |Kept(was[..n], choose, 0)|, Midway(was, choose, n);
            (i < |now| && now[i].Some?) <==> n < Reach(was)
  {
  }

  lemma {:induction false} FreedAdvances<T>(seen: seq<Slot<T>>, x: Slot<T>, choose: nat -> bool)
    ensures NonNull(Erased(seen + [x], choose, 0)) ==
            NonNull(Erased(seen, choose, 0)) + if choose(|seen|) then NonNull([x]) else []
  {
    ErasedSnoc(seen, x, choose, 0);
    if choose(|seen|) {
      NonNullSnoc(Erased(seen, choose, 0), x);
    } else {
      assert Erased(seen, choose, 0) + [] == Erased(seen, choose, 0);
    }
  }

  /** A walk that has seen `visited` of the original contents is under way. */
  ghost predicate Walking<T>(a: Array<T>, it: ArrayIter<T>, was: seq<Slot<T>>, choose: nat -> bool,
                             visited: seq<Slot<T>>)
    reads a, a.data, it
  {
    && a.Valid() && |visited| <= Reach(was) && visited <= was
    && a.Contents() == Midway(was, choose, |visited|)
    && a.Points(it, |Kept(was[..|visited|], choose, 0)|)
  }

  method WalkStep<T>(a: Array<T>, it: ArrayIter<T>, ghost was: seq<Slot<T>>, choose: nat -> bool, visited: seq<Slot<T>>)
    returns (seen: Slot<T>, freed: seq<T>)
    requires Walking(a, it, was, choose, visited) && it.ptr.Some?
    modifies a, a.data, it
    ensures |visited| < |was| && Walking(a, it, was, choose, visited + [seen])
    ensures a.data == old(a.data) && a.hasEraseFn == old(a.hasEraseFn)
    ensures WalkFrees(a.hasEraseFn, choose, visited + [seen]) == WalkFrees(a.hasEraseFn, choose, visited) + freed
  {
    ghost var n := |visited|;
    ghost var i := |Kept(was[..n], choose, 0)|;
    MidwayHead(was, choose, n);
    WalkAdvances(was, choose, n);
    assert it.ptr == a.Contents()[i];
    seen, freed := WalkTurn(a, it, i, choose(|visited|));
    PrefixSnoc(visited, seen, was);
    FreedAdvances(visited, seen, choose);
  }

  /** What a walk has freed after it saw these elements. */
  function WalkFrees<T>(freeing: bool, choose: nat -> bool, visited: seq<Slot<T>>): seq<T> {
    if freeing then NonNull(Erased(visited, choose, 0)) else []
  }

  /** A client loop that walks the array forward and erases or steps at each element: it sees every element
      before the first NULL once, in order, and leaves the ones it did not erase, in order. */
  method EraseWalk<T>(a: Array<T>, choose: nat -> bool) returns (visited: seq<Slot<T>>, freed: seq<T>)
    requires a.Valid()
    modifies a, a.data
    ensures a.Valid() && a.data == old(a.data)
    ensures visited == old(a.Contents())[..Reach(old(a.Contents()))]
    ensures a.Contents() == Kept(visited, choose, 0) + old(a.Contents())[|visited|..]
    ensures freed == WalkFrees(a.hasEraseFn, choose, visited)
  {
    visited, freed := [], [];
    ghost var was := a.Contents();
    var it := new ArrayIter<T>();
    a.IterHead(it);
    assert Walking(a, it, was, choose, []);
    while it.ptr.Some?
      invariant a.data == old(a.data)
      invariant Walking(a, it, was, choose, visited) && freed == WalkFrees(a.hasEraseFn, choose, visited)
      decreases |was| - |visited|
    {
      var seen, f := WalkStep(a, it, was, choose, visited);
      visited := visited + [seen];
      freed := freed + f;
    }
    WalkOver(a, it, was, choose, visited);
  }

  /** With a free function each element goes to it as often as the walk erased its pointer. */
  lemma WalkFreesExactly<T>(freeing: bool, choose: nat -> bool, visited: seq<Slot<T>>, x: T)
    ensures multiset(WalkFrees(freeing, choose, visited))[x] ==
            if freeing then multiset(Erased(visited, choose, 0))[Some(x)] else 0
  {
    NonNullCounts(Erased(visited, choose, 0), x);
  }

  /** A walk that stands on no element has seen all up to the first NULL. */
  lemma WalkOver<T>(a: Array<T>, it: ArrayIter<T>, was: seq<Slot<T>>, choose: nat -> bool, visited: seq<Slot<T>>)
    requires Walking(a, it, was, choose, visited) && it.ptr == None
    ensures visited == was[..Reach(was)]
    ensures a.Contents() == Kept(visited, choose, 0) + was[|visited|..]
  {
    MidwayHead(was, choose, |visited|);
  }

  function SwapRemove<T>(s: seq<T>, i: nat): seq<T>
    requires i < |s|
  {
    s[i := s[|s| - 1]][..|s| - 1]
  }

  /** What mcl_array_delete_range leaves, and what it returns. */
  function RangeRemoved<T>(s: seq<Slot<T>>, b: int, e: int): (seq<Slot<T>>, int)
    requires !(s == [] && b == 0 && e == 0)
  {
    if OutOfBounds(b, |s|) || OutOfBounds(e, |s|) || b > e then (s, -1)
    else if b == e then (RemoveAt(s, b), 1)
    else (s[..b] + s[e..], e - b)
  }

  function RangeFreed<T>(s: seq<Slot<T>>, b: int, e: int): seq<Slot<T>>
    requires !(s == [] && b == 0 && e == 0)
  {
    if OutOfBounds(b, |s|) || OutOfBounds(e, |s|) || b > e then []
    else if b == e then [s[b]]
    else s[b..e]
  }

  /** Each element is there as often as its pointer is stored; NULL is not. */
  lemma {:induction false} NonNullCounts<T>(s: seq<Slot<T>>, x: T)
    ensures multiset(NonNull(s))[x] == multiset(s)[Some(x)]
  {
    if s != [] {
      CountHead(s, Some(x));
      NonNullCounts(s[1..], x);
      CountSum(if s[0].Some? then [s[0].value] else [], NonNull(s[1..]), x);
    }
  }

  lemma {:induction false} NonNullSnoc<T>(s: seq<Slot<T>>, x: Slot<T>)
    ensures NonNull(s + [x]) == NonNull(s) + NonNull([x])
  {
    if s == [] {
      assert s + [x] == [x];
    } else {
      assert (s + [x])[1..] == s[1..] + [x];
      NonNullSnoc(s[1..], x);
      Assoc(if s[0].Some? then [s[0].value] else [], NonNull(s[1..]), NonNull([x]));
    }
  }
}
