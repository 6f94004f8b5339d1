/** The select backend as a value: three event sets, their descriptor sets, and what a run does to them.
    The hash of descriptors is a parameter h here; GoodHash says what is needed of it. */
module Registry {
  import opened Seqs
  import opened Lists
  import opened Chains
  import HashRuns

  const FD_SETSIZE: int := 1024

  const EV_READ: bv32 := 1
  const EV_WRITE: bv32 := 2
  const EV_EXP: bv32 := 3
  const EV_PERSIST: bv32 := 4

  /** An event on the heap: `id` is its address; the three flags say which callbacks are non-NULL. */
  datatype Event = Event(id: nat, fd: int, evType: bv32, callback: bool, cleanupCb: bool, errorCb: bool)

  type EvTable = Table<int, Event>

  /** A hash table from descriptors to events and the fd_set that is handed to select. */
  datatype EvSet = EvSet(table: EvTable, fds: set<int>)

  datatype Kind = In | Out | Exp

  datatype Db = Db(maxfd: int, inn: EvSet, out: EvSet, exp: EvSet) {
    function Sel(k: Kind): EvSet {
      match k
      case In => inn
      case Out => out
      case Exp => exp
    }

    function With(k: Kind, s: EvSet): (db: Db)
      ensures db.Sel(k) == s && db.maxfd == maxfd
      ensures forall j | j != k :: db.Sel(j) == Sel(j)
    {
      match k
      case In => this.(inn := s)
      case Out => this.(out := s)
      case Exp => this.(exp := s)
    }
  }

  /** get_evset: the first bit that is set decides; no event is sent to the exception set. */
  function KindOf(ev: Event): Option<Kind> {
    if ev.evType & EV_READ != 0 then Some(In)
    else if ev.evType & EV_WRITE != 0 then Some(Out)
    else None
  }

  /** In numbers: odd types go to the read set, even ones with the write bit 2 to the write set, the rest nowhere. */
  lemma KindExact(ev: Event)
    ensures KindOf(ev) == Some(In) <==> ev.evType % 2 == 1
    ensures KindOf(ev) == Some(Out) <==> ev.evType % 4 == 2
    ensures KindOf(ev) != Some(Exp)
  {
  }

  /** What happens between the backend and the outside world: it takes an event over, makes a callback, makes a
      cleanup callback, frees an event. A callback is told which set it is called for, by the constants
      MCL_EV_READ, MCL_EV_WRITE and MCL_EV_EXP. */
  datatype Entry = Accept(ev: Event) | Call(ev: Event, kind: Kind) | Cleanup(ev: Event) | Free(ev: Event)

  /** event_ht_free. */
  function Destroyed(ev: Event): seq<Entry> {
    (if ev.cleanupCb then [Cleanup(ev)] else []) + [Free(ev)]
  }

  function AllDestroyed(evs: seq<Event>): seq<Entry> {
    if evs == [] then [] else Destroyed(evs[0]) + AllDestroyed(evs[1..])
  }

  /** add_event: the descriptor on success, 0 otherwise. */
  function AddEvent(h: int -> int, s: EvSet, ev: Event): (r: (EvSet, int))
    requires |s.table| == BUCKETS
    ensures |r.0.table| == BUCKETS
  {
    if ev.fd < 0 then (s, 0)
    else
      var u := Put(h, s.table, ev.fd, Some(ev), false);
      if !u.ok then (s.(table := u.table), 0) else (EvSet(u.table, s.fds + {ev.fd}), ev.fd)
  }

  /** del_event: only the descriptor of ev matters, and only while its bit is set. */
  function DelEvent(h: int -> int, s: EvSet, ev: Event): (EvSet, bool, seq<Event>)
    requires |s.table| == BUCKETS
  {
    if ev.fd < 0 || ev.fd !in s.fds then (s, false, [])
    else
      var u := Remove(h, s.table, ev.fd);
      (EvSet(u.table, s.fds - {ev.fd}), u.ok, u.dropped)
  }

  predicate Sized(db: Db) {
    |db.inn.table| == BUCKETS && |db.out.table| == BUCKETS && |db.exp.table| == BUCKETS
  }

  /** An event that is sent to the read or the write set has one of the exception bits set, so neither add
      nor del ever takes its second branch, the one that would touch the exception set. */
  lemma ExpBitsSet(ev: Event)
    ensures KindOf(ev).Some? ==> ev.evType & EV_EXP != 0
  {
  }

  /** select_add. Descriptor 0 is stored, but its return value reads as a failure. */
  function Add(h: int -> int, db: Db, ev: Event): (r: (Db, bool))
    requires Sized(db)
    ensures Sized(r.0)
  {
    match KindOf(ev)
    case None => (db, false)
    case Some(k) =>
      var (s, ret) := AddEvent(h, db.Sel(k), ev);
      var db1 := db.With(k, s);
      if ret == 0 then (db1, false)
      else (db1.(maxfd := if db.maxfd < ret then ret else db.maxfd), true)
  }

  /** select_del. */
  function Del(h: int -> int, db: Db, ev: Event): (r: (Db, bool, seq<Event>))
    requires Sized(db)
    ensures Sized(r.0)
  {
    match KindOf(ev)
    case None => (db, false, [])
    case Some(k) =>
      var (s, ok, gone) := DelEvent(h, db.Sel(k), ev);
      (db.With(k, s), ok, gone)
  }

  // ------------------------------------------------------------- well-formedness

  ghost predicate GoodHash(h: int -> int) {
    && (forall fd | 0 <= fd < FD_SETSIZE :: Available(h(fd)))
    && (forall b, c: Chain<int, Event> | ChainOk(h, b, c) && FdKeys(c) :: |c| < MAX_SIZE)
  }

  ghost predicate FdKeys(c: Chain<int, Event>) {
    forall i | 0 <= i < |c| :: 0 <= c[i].key < FD_SETSIZE
  }

  predicate PairOk(k: Kind, maxfd: int, p: Pair<int, Event>) {
    p.key == p.val.fd && 0 <= p.key < FD_SETSIZE && p.key <= maxfd && KindOf(p.val) == Some(k)
  }

  ghost predicate PairsOk(k: Kind, maxfd: int, t: EvTable) {
    forall b, i | 0 <= b < |t| && 0 <= i < |t[b]| :: PairOk(k, maxfd, t[b][i])
  }

  /** A table in order, every pair filed under the descriptor and the kind of its event and within maxfd,
      and no bit set for a descriptor that is not registered. */
  ghost predicate EvSetOk(h: int -> int, k: Kind, maxfd: int, s: EvSet) {
    && TableOk(h, s.table) && PairsOk(k, maxfd, s.table)
    && forall fd | fd in s.fds :: Lookup(h, s.table, fd).Some?
  }

  ghost predicate DbOk(h: int -> int, db: Db) {
    && EvSetOk(h, In, db.maxfd, db.inn)
    && EvSetOk(h, Out, db.maxfd, db.out)
    && db.exp == EvSet(EmptyTable(), {})
    && db.maxfd >= 0
  }

  function EmptyDb(): Db {
    var s := EvSet(EmptyTable(), {});
    Db(0, s, s, s)
  }

  /** The event is new to its set: the insertion will take it. */
  predicate Takes(h: int -> int, db: Db, ev: Event)
    requires Sized(db)
  {
    KindOf(ev).Some? && ev.fd >= 0 && Lookup(h, db.Sel(KindOf(ev).value).table, ev.fd) == None
  }

  /** Insertion of an unused descriptor: one new pair at the front of its chain. */
  lemma PutFresh(h: int -> int, k: Kind, maxfd: int, t: EvTable, ev: Event)
    requires GoodHash(h) && TableOk(h, t) && PairsOk(k, maxfd, t)
    requires 0 <= ev.fd < FD_SETSIZE && Lookup(h, t, ev.fd) == None
    ensures Available(h(ev.fd))
    ensures Put(h, t, ev.fd, Some(ev), false) == Update(t[h(ev.fd) := [Pair(ev.fd, ev)] + t[h(ev.fd)]], true, [])
  {
  }

  lemma PrependPairsOk(k: Kind, maxfd: int, t: EvTable, b: nat, p: Pair<int, Event>, maxfd': int)
    requires PairsOk(k, maxfd, t) && b < |t| && maxfd <= maxfd' && PairOk(k, maxfd', p)
    ensures PairsOk(k, maxfd', t[b := [p] + t[b]])
  {
  }

  lemma AddEventOk(h: int -> int, k: Kind, maxfd: int, s: EvSet, ev: Event)
    requires GoodHash(h) && EvSetOk(h, k, maxfd, s) && ev.fd < FD_SETSIZE && KindOf(ev) == Some(k) && maxfd >= 0
    ensures EvSetOk(h, k, if maxfd < ev.fd then ev.fd else maxfd, AddEvent(h, s, ev).0)
  {
    var maxfd' := if maxfd < ev.fd then ev.fd else maxfd;
    if ev.fd >= 0 && Lookup(h, s.table, ev.fd) == None {
      PutFresh(h, k, maxfd, s.table, ev);
      HashRuns.PutKeepsOk(h, s.table, ev.fd, Some(ev), false);
      var s' := AddEvent(h, s, ev).0;
      var b := h(ev.fd);
      PrependPairsOk(k, maxfd, s.table, b, Pair(ev.fd, ev), maxfd');
      forall fd | fd in s'.fds
        ensures Lookup(h, s'.table, fd).Some?
      {
        HashRuns.OtherBucket(h, s.table, b, s'.table[b], fd);
        HashRuns.PrependFind(s.table[b], Pair(ev.fd, ev), fd);
      }
    } else {
      PairsOkUp(k, maxfd, s.table, maxfd');
    }
  }

  lemma PairsOkUp(k: Kind, maxfd: int, t: EvTable, maxfd': int)
    requires PairsOk(k, maxfd, t) && maxfd <= maxfd'
    ensures PairsOk(k, maxfd', t)
  {
  }

  /** select_add keeps the registry in order. */
  lemma AddOk(h: int -> int, db: Db, ev: Event)
    requires GoodHash(h) && DbOk(h, db) && ev.fd < FD_SETSIZE
    ensures DbOk(h, Add(h, db, ev).0)
  {
    if KindOf(ev).Some? {
      var k := KindOf(ev).value;
      var db' := Add(h, db, ev).0;
      AddEventOk(h, k, db.maxfd, db.Sel(k), ev);
      PairsOkUp(In, db.maxfd, db.inn.table, db'.maxfd);
      PairsOkUp(Out, db.maxfd, db.out.table, db'.maxfd);
      if AddEvent(h, db.Sel(k), ev).1 == 0 {
        assert db'.Sel(k) == AddEvent(h, db.Sel(k), ev).0;
      }
    }
  }

  /** select_add reports success exactly when it took the event and the descriptor is not 0; when it does not
      take the event nothing changes. */
  lemma AddTakes(h: int -> int, db: Db, ev: Event)
    requires GoodHash(h) && DbOk(h, db) && ev.fd < FD_SETSIZE
    ensures var (db', ok) := Add(h, db, ev);
            && ok == (Takes(h, db, ev) && ev.fd != 0)
            && (!Takes(h, db, ev) ==> db' == db)
            && (Takes(h, db, ev) ==> Lookup(h, db'.Sel(KindOf(ev).value).table, ev.fd) == Some(ev))
  {
    if Takes(h, db, ev) {
      var k := KindOf(ev).value;
      PutFresh(h, k, db.maxfd, db.Sel(k).table, ev);
    } else {
      AddRefused(h, db, ev);
    }
  }

  lemma AddRefused(h: int -> int, db: Db, ev: Event)
    requires GoodHash(h) && Sized(db) && ev.fd < FD_SETSIZE && !Takes(h, db, ev)
    ensures Add(h, db, ev) == (db, false)
  {
    if KindOf(ev).Some? && ev.fd >= 0 {
      var t := db.Sel(KindOf(ev).value).table;
      assert t[h(ev.fd) := t[h(ev.fd)]] == t;
    }
  }

  lemma AddLookup(h: int -> int, db: Db, k: Kind, ev: Event, fd: int)
    requires GoodHash(h) && DbOk(h, db) && ev.fd < FD_SETSIZE
    ensures Lookup(h, Add(h, db, ev).0.Sel(k).table, fd) ==
            if Takes(h, db, ev) && KindOf(ev) == Some(k) && fd == ev.fd then Some(ev)
            else Lookup(h, db.Sel(k).table, fd)
  {
    if Takes(h, db, ev) && KindOf(ev) == Some(k) {
      var t := db.Sel(k).table;
      PutFresh(h, k, db.maxfd, t, ev);
      HashRuns.PrependLookup(h, t, Pair(ev.fd, ev), fd);
    } else {
      AddTakes(h, db, ev);
    }
  }

  lemma AddMarks(h: int -> int, db: Db, k: Kind, ev: Event, fd: int)
    requires GoodHash(h) && DbOk(h, db) && ev.fd < FD_SETSIZE
    ensures fd in Add(h, db, ev).0.Sel(k).fds <==>
            (Takes(h, db, ev) && KindOf(ev) == Some(k) && fd == ev.fd) || fd in db.Sel(k).fds
    ensures Add(h, db, ev).0.maxfd == if Takes(h, db, ev) && db.maxfd < ev.fd then ev.fd else db.maxfd
  {
    if Takes(h, db, ev) {
      var j := KindOf(ev).value;
      PutFresh(h, j, db.maxfd, db.Sel(j).table, ev);
    } else {
      AddTakes(h, db, ev);
    }
  }

  /** select_add in full. It takes an event with a descriptor that is not negative and not yet used in the set that its
      type names: odd types name the read set, types that are 2 modulo 4 the write set. Then a lookup in that set
      leads from the descriptor to the event, the descriptor's bit is set, and the highest descriptor is kept up to
      date. It reports success unless the descriptor is 0. Nothing else changes. */
  lemma AddExact(h: int -> int, db: Db, ev: Event, k: Kind, fd: int)
    requires GoodHash(h) && DbOk(h, db) && ev.fd < FD_SETSIZE
    ensures var (db', ok) := Add(h, db, ev);
            var read, write := ev.evType % 2 == 1, ev.evType % 4 == 2;
            var taken := ev.fd >= 0 && ((read && Lookup(h, db.inn.table, ev.fd) == None)
                                        || (write && Lookup(h, db.out.table, ev.fd) == None));
            var here := taken && fd == ev.fd && k == if read then In else Out;
            && ok == (taken && ev.fd != 0)
            && Lookup(h, db'.Sel(k).table, fd) == (if here then Some(ev) else Lookup(h, db.Sel(k).table, fd))
            && (fd in db'.Sel(k).fds <==> here || fd in db.Sel(k).fds)
            && db'.maxfd == if taken && db.maxfd < ev.fd then ev.fd else db.maxfd
  {
    KindExact(ev);
    AddTakes(h, db, ev);
    AddLookup(h, db, k, ev, fd);
    AddMarks(h, db, k, ev, fd);
  }

  // ------------------------------------------------------------- removing

  /** Taking one pair out of a chain keeps the rest in order. */
  lemma RemovePairsOk(k: Kind, maxfd: int, t: EvTable, b: nat, i: nat)
    requires PairsOk(k, maxfd, t) && b < |t| && i < |t[b]|
    ensures PairsOk(k, maxfd, t[b := RemoveAt(t[b], i)])
  {
  }

  /** Removing a key and clearing its bit. */
  lemma RemoveOk(h: int -> int, k: Kind, maxfd: int, s: EvSet, fd: int)
    requires EvSetOk(h, k, maxfd, s) && Lookup(h, s.table, fd).Some?
    ensures EvSetOk(h, k, maxfd, EvSet(Remove(h, s.table, fd).table, s.fds - {fd}))
  {
    var t := s.table;
    var b := h(fd);
    var i := KeyIndex(t[b], fd);
    assert ChainOk(h, b, t[b]);
    var t' := Remove(h, t, fd).table;
    HashRuns.RemoveKeepsOk(h, t, fd);
    RemovePairsOk(k, maxfd, t, b, i);
    forall g | g in s.fds - {fd}
      ensures Lookup(h, t', g).Some?
    {
      HashRuns.OtherBucket(h, t, b, t'[b], g);
      HashRuns.RemoveFind(t[b], i, g);
      assert Lookup(h, t, g).Some?;
    }
  }

  lemma DelOk(h: int -> int, db: Db, ev: Event)
    requires DbOk(h, db)
    ensures DbOk(h, Del(h, db, ev).0)
  {
    if KindOf(ev).Some? {
      var k := KindOf(ev).value;
      if ev.fd in db.Sel(k).fds {
        RemoveOk(h, k, db.maxfd, db.Sel(k), ev.fd);
      }
    }
  }

  /** select_del removes the registered event of that descriptor and kind exactly when the descriptor's bit
      is set; otherwise nothing changes and it reports failure. */
  lemma DelTakes(h: int -> int, db: Db, ev: Event)
    requires DbOk(h, db)
    ensures var (db', ok, gone) := Del(h, db, ev);
            && ok == (KindOf(ev).Some? && ev.fd >= 0 && ev.fd in db.Sel(KindOf(ev).value).fds)
            && (!ok ==> db' == db && gone == [])
            && (ok ==> var k := KindOf(ev).value;
                       && Lookup(h, db.Sel(k).table, ev.fd).Some?
                       && gone == [Lookup(h, db.Sel(k).table, ev.fd).value]
                       && Lookup(h, db'.Sel(k).table, ev.fd) == None)
  {
  }

  /** select_del in full. It looks for the descriptor in the set that the type names, and removes what is registered
      there exactly when the descriptor's bit is set; then it clears the bit. Nothing else changes. */
  lemma DelExact(h: int -> int, db: Db, ev: Event, k: Kind, fd: int)
    requires DbOk(h, db)
    ensures var (db', ok, gone) := Del(h, db, ev);
            var read, write := ev.evType % 2 == 1, ev.evType % 4 == 2;
            var found := Lookup(h, (if read then db.inn else db.out).table, ev.fd);
            var here := ok && fd == ev.fd && k == if read then In else Out;
            && ok == (ev.fd >= 0 && ((read && ev.fd in db.inn.fds) || (write && ev.fd in db.out.fds)))
            && (ok ==> found.Some?) && gone == (if ok then [found.value] else [])
            && Lookup(h, db'.Sel(k).table, fd) == (if here then None else Lookup(h, db.Sel(k).table, fd))
            && (fd in db'.Sel(k).fds <==> !here && fd in db.Sel(k).fds)
            && db'.maxfd == db.maxfd
  {
    KindExact(ev);
    DelTakes(h, db, ev);
    if KindOf(ev).Some? {
      HashRuns.RemoveLookup(h, db.Sel(KindOf(ev).value).table, ev.fd, fd);
    }
  }
}
