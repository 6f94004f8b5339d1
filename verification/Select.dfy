/** The select backend on the heap: three event sets around hash tables, and the dispatch loop. */
module Select {
  import opened Seqs
  import opened Lists
  import opened Chains
  import opened Hashes
  import opened Registry
  import opened Dispatch
  import HashRuns

  type EvNodes = seq<seq<Node<Pair<int, Event>>>>

  /** New nodes only in front of chains. */
  ghost predicate NodesPrepended(n: EvNodes, n': EvNodes) {
    |n| == |n'| && forall b | 0 <= b < |n| :: |n[b]| <= |n'[b]| && n'[b][|n'[b]| - |n[b]|..] == n[b]
  }

  lemma NodesPrependedTrans(n: EvNodes, n': EvNodes, n'': EvNodes)
    requires NodesPrepended(n, n') && NodesPrepended(n', n'')
    ensures NodesPrepended(n, n'')
  {
  }

  lemma KeysSnoc(s: seq<Pair<int, Event>>, p: Pair<int, Event>)
    ensures KeysIn(s + [p]) == KeysIn(s) + {p.key}
  {
  }

  /** Chain and node sequence of a bucket have the same length. */
  lemma SameLengths(ht: HashTable<int, Event>, b: nat)
    requires ht.Valid() && b < BUCKETS
    ensures |ht.table[b]| == |ht.nodes[b]|
  {
    assert ht.Mirrors(b);
  }

  /** The node at a position stays where the pair of that position goes when pairs are added in front of the
      chains, so an iterator keeps its pair. */
  lemma NodeStays(t: EvTable, t': EvTable, n: EvNodes, n': EvNodes, pos: Pos)
    requires Prepended(t, t') && NodesPrepended(n, n') && |n| == |t| && OnTable(t, pos) && pos.At?
    requires |t[pos.b]| == |n[pos.b]| && |t'[pos.b]| == |n'[pos.b]|
    ensures n'[pos.b][Shifted(t, t', pos).i] == n[pos.b][pos.i]
  {
  }

  /** All three tables are in order. */
  ghost predicate TablesOrdered(h: int -> int, db: Db) {
    forall k :: TableOk(h, db.Sel(k).table)
  }

  lemma AddOrdered(h: int -> int, db: Db, ev: Event)
    requires Sized(db) && TablesOrdered(h, db)
    ensures TablesOrdered(h, Add(h, db, ev).0)
  {
    if KindOf(ev).Some? {
      var k := KindOf(ev).value;
      var db' := Add(h, db, ev).0;
      HashRuns.PutKeepsOk(h, db.Sel(k).table, ev.fd, Some(ev), false);
      assert TableOk(h, db'.Sel(k).table);
      assert forall j | j != k :: db'.Sel(j) == db.Sel(j);
    }
  }

  lemma {:induction false} AddsOrdered(h: int -> int, st: St, evs: seq<Event>)
    requires Sized(st.db) && TablesOrdered(h, st.db)
    ensures TablesOrdered(h, DoAdds(h, st, evs).db)
    decreases |evs|
  {
    if evs != [] {
      AddOrdered(h, st.db, evs[0]);
      AddsOrdered(h, DoAdd(h, st, evs[0]), evs[1..]);
    }
  }

  lemma FireOrdered(h: int -> int, st: St, k: Kind, ev: Event, script: Script)
    requires Sized(st.db) && TablesOrdered(h, st.db)
    ensures TablesOrdered(h, MayFire(h, st, k, ev, script).db)
  {
    if Fires(k, ev) {
      var act := script(st.calls);
      AddsOrdered(h, Called(st, k, ev, act.exit), act.adds);
    }
  }

  lemma TurnOrdered(h: int -> int, st: St, k: Kind, pos: Pos, script: Script)
    requires Sized(st.db) && TablesOrdered(h, st.db) && OnTable(st.db.Sel(k).table, pos) && pos.At?
    ensures TablesOrdered(h, Turn(h, st, k, pos, script).0.db)
  {
    var s := st.db.Sel(k);
    var p := s.table[pos.b][pos.i];
    if p.key in s.fds {
      var st1 := MayFire(h, st, k, p.val, script);
      FireOrdered(h, st, k, p.val, script);
      FirePrepends(h, st, k, p.val, script, k);
      if OneShot(k, p.val) {
        DropOrdered(h, st1, k, Shifted(s.table, st1.db.Sel(k).table, pos));
      }
    }
  }

  lemma DropOrdered(h: int -> int, st: St, k: Kind, pos: Pos)
    requires Sized(st.db) && TablesOrdered(h, st.db) && OnTable(st.db.Sel(k).table, pos) && pos.At?
    ensures TablesOrdered(h, Dropped(st, k, pos).db)
  {
    var db' := Dropped(st, k, pos).db;
    EraseKeepsOk(h, st.db.Sel(k).table, pos);
    assert forall j | j != k :: db'.Sel(j) == st.db.Sel(j);
  }

  lemma StartOrdered(h: int -> int)
    ensures TablesOrdered(h, Start().db)
  {
  }

  lemma CmdOrdered(h: int -> int, st: St, cmd: Cmd, script: Script)
    requires Sized(st.db) && TablesOrdered(h, st.db)
    ensures cmd.AddEv? || cmd.DelEv? ==> TablesOrdered(h, DoCmd(h, st, cmd, script).db)
  {
    match cmd
    case AddEv(ev) => AddOrdered(h, st.db, ev);
    case DelEv(ev) =>
      if KindOf(ev).Some? {
        var k := KindOf(ev).value;
        HashRuns.RemoveKeepsOk(h, st.db.Sel(k).table, ev.fd);
        assert TableOk(h, Del(h, st.db, ev).0.Sel(k).table);
      }
    case Wait(outcomes) =>
  }

  /** In the middle of a pass: the turns still ahead lead to the goal. */
  ghost predicate Pending(h: int -> int, st: St, k: Kind, pos: Pos, script: Script, ahead: seq<Pair<int, Event>>,
                          goal: St) {
    && Sized(st.db) && TablesOrdered(h, st.db) && OnTable(st.db.Sel(k).table, pos)
    && Handle(h, st, k, pos, script) == (goal, ahead)
  }

  lemma PendingTurn(h: int -> int, st: St, k: Kind, pos: Pos, script: Script, ahead: seq<Pair<int, Event>>, goal: St)
    requires Pending(h, st, k, pos, script, ahead, goal) && pos.At?
    ensures ahead != []
    ensures var (st', next) := Turn(h, st, k, pos, script); Pending(h, st', k, next, script, ahead[1..], goal)
  {
    TurnAdvances(h, st, k, pos, script);
    TurnOrdered(h, st, k, pos, script);
  }

  lemma PendingEnd(h: int -> int, st: St, k: Kind, pos: Pos, script: Script, ahead: seq<Pair<int, Event>>, goal: St)
    requires Pending(h, st, k, pos, script, ahead, goal) && pos == End
    ensures st == goal && TablesOrdered(h, st.db)
  {
  }

  lemma AwaitOrdered(h: int -> int, db: Db, o: Outcome)
    requires TablesOrdered(h, db)
    ensures TablesOrdered(h, AfterSelect(InitAll(db), o))
  {
    forall k
      ensures TableOk(h, AfterSelect(InitAll(db), o).Sel(k).table)
    {
      assert AfterSelect(InitAll(db), o).Sel(k).table == db.Sel(k).table;
    }
  }

  lemma {:induction false} AllDestroyedSplit(a: seq<Event>, b: seq<Event>)
    ensures AllDestroyed(a + b) == AllDestroyed(a) + AllDestroyed(b)
  {
    if a == [] {
      assert a + b == b;
    } else {
      assert (a + b)[0] == a[0] && (a + b)[1..] == a[1..] + b;
      AllDestroyedSplit(a[1..], b);
    }
  }

  /** add_event on one set. */
  function Inserted(h: int -> int, st: St, k: Kind, ev: Event): (r: St)
    requires Sized(st.db)
  {
    st.(db := st.db.With(k, AddEvent(h, st.db.Sel(k), ev).0))
  }

  /** The fields beside the event sets. */
  function Noted(st: St, maxfd: int, ev: Event, taken: bool): St {
    var st1 := st.(db := st.db.(maxfd := maxfd));
    if taken then st1.(accepted := st.accepted + multiset{ev}, log := st.log + [Accept(ev)]) else st1
  }

  lemma AddIs(h: int -> int, st: St, k: Kind, ev: Event)
    requires Sized(st.db) && KindOf(ev) == Some(k)
    ensures var ret := AddEvent(h, st.db.Sel(k), ev).1;
            && Add(h, st.db, ev).1 == (ret != 0)
            && DoAdd(h, st, ev) == Noted(Inserted(h, st, k, ev),
                                         if ret != 0 && st.db.maxfd < ret then ret else st.db.maxfd,
                                         ev, Takes(h, st.db, ev))
  {
  }

  /** One set is emptied and its events destroyed. */
  function Released(st: St, k: Kind): St {
    st.(db := st.db.With(k, EvSet(EmptyTable(), {})), log := st.log + AllDestroyed(Vals(Flatten(st.db.Sel(k).table))))
  }

  lemma ReleasedAll(st: St)
    ensures Released(Released(Released(st, In), Out), Exp) == CleanupAll(st).(db := EmptyDb().(maxfd := st.db.maxfd))
  {
    var r, c := Released(Released(Released(st, In), Out), Exp), CleanupAll(st);
    assert r.db == EmptyDb().(maxfd := st.db.maxfd);
    AllDestroyedJoin(st.log, Vals(Flatten(st.db.inn.table)), Vals(Flatten(st.db.out.table)),
                     Vals(Flatten(st.db.exp.table)));
    assert r.log == c.log;
  }

  lemma AllDestroyedJoin(log: seq<Entry>, a: seq<Event>, b: seq<Event>, c: seq<Event>)
    ensures log + AllDestroyed(a) + AllDestroyed(b) + AllDestroyed(c) == log + AllDestroyed(a + b + c)
  {
    AllDestroyedSplit(a, b);
    AllDestroyedSplit(a + b, c);
    Assoc(log, AllDestroyed(a), AllDestroyed(b));
    Assoc(log, AllDestroyed(a + b), AllDestroyed(c));
  }

  /** In the middle of a walk: the keys of the pairs behind pos are in bits. */
  ghost predicate Collecting(t: EvTable, pos: Pos, bits: set<int>, ahead: seq<Pair<int, Event>>) {
    OnTable(t, pos) && ahead == Remaining(t, pos) && bits == KeysIn(Passed(t, pos))
  }

  lemma CollectStart(t: EvTable)
    ensures Collecting(t, FirstFrom(t, 0), {}, Flatten(t))
  {
    FirstFromPassed(t);
  }

  lemma CollectStep(t: EvTable, pos: Pos, bits: set<int>, ahead: seq<Pair<int, Event>>)
    requires Collecting(t, pos, bits, ahead) && pos.At?
    ensures ahead != [] && Collecting(t, NextPos(t, pos), bits + {t[pos.b][pos.i].key}, ahead[1..])
  {
    RemainingSteps(t, pos);
    PassedNext(t, pos);
    KeysSnoc(Passed(t, pos), t[pos.b][pos.i]);
  }

  /** init_fds: the descriptor set that holds exactly the keys of the table. */
  method CollectKeys(ht: HashTable<int, Event>) returns (bits: set<int>)
    requires ht.Valid()
    ensures bits == KeysOf(ht.table)
  {
    bits := {};
    ghost var ahead := Flatten(ht.table);
    ghost var pos := FirstFrom(ht.table, 0);
    CollectStart(ht.table);
    var it := new Iter<Pair<int, Event>>();
    ht.IterHead(it);
    while it.ent != null
      invariant ht.Valid() && it !in ht.Repr && ht.Stands(it, pos)
      invariant Collecting(ht.table, pos, bits, ahead)
      decreases |ahead|
      modifies it
    {
      CollectStep(ht.table, pos, bits, ahead);
      bits := bits + {it.pair.value.key};
      ht.IterNext(it, pos);
      pos, ahead := NextPos(ht.table, pos), ahead[1..];
    }
    assert pos == End;
  }

  /** ev_set: a hash table that frees erased events, and an fd_set. */
  class EvSetBox {
    const ht: HashTable<int, Event>
    var fds: set<int>
    ghost var Repr: set<object>

    ghost predicate Valid()
      reads this, Repr
      ensures Valid() ==> this in Repr
    {
      this in Repr && ht in Repr && ht.Repr <= Repr && this !in ht.Repr && ht.Valid() && ht.hasEraseFn
    }

    ghost function Model(): EvSet
      reads this, ht
    {
      EvSet(ht.table, fds)
    }

    /** malloc_evset. */
    constructor (h: int -> int)
      ensures Valid() && fresh(Repr) && ht.hash == h
      ensures Model() == EvSet(EmptyTable(), {})
    {
      var t := new HashTable<int, Event>(h);
      t.RegisterEraseFn();
      ht := t;
      fds := {};
      Repr := {this} + t.Repr;
    }

    /** add_event. */
    method AddEvent(ev: Event) returns (ret: int)
      requires Valid()
      modifies Repr
      ensures Valid() && fresh(Repr - old(Repr))
      ensures (Model(), ret) == Registry.AddEvent(ht.hash, old(Model()), ev)
      ensures NodesPrepended(old(ht.nodes), ht.nodes)
    {
      if ev.fd < 0 {
        return 0;
      }
      var ok, _ := ht.Insert(ev.fd, Some(ev), false, false);
      Repr := Repr + ht.Repr;
      if !ok {
        return 0;
      }
      fds := fds + {ev.fd};
      return ev.fd;
    }

    /** del_event: removes the descriptor's event if the descriptor's bit is set. */
    method DelEvent(ev: Event) returns (ok: bool, gone: seq<Event>)
      requires Valid()
      modifies Repr
      ensures Valid() && Repr == old(Repr)
      ensures (Model(), ok, gone) == Registry.DelEvent(ht.hash, old(Model()), ev)
    {
      if ev.fd < 0 || ev.fd !in fds {
        return false, [];
      }
      fds := fds - {ev.fd};
      ok, gone := ht.Delete(ev.fd, true);
    }

    /** The bits that select looks at. */
    function Below(maxfd: int): set<int>
      reads this
    {
      set fd | fd in fds && fd <= maxfd
    }

    /** Erases the event under the iterator and clears its bit. */
    method Erase(it: Iter<Pair<int, Event>>, ghost pos: Pos, fd: int) returns (gone: Event)
      requires Valid() && it !in Repr && TableOk(ht.hash, ht.table)
      requires OnTable(ht.table, pos) && pos.At? && ht.Stands(it, pos)
      modifies Repr, it
      ensures Valid() && Repr == old(Repr)
      ensures Model() == EvSet(EraseAt(old(ht.table), pos), old(fds) - {fd})
      ensures gone == old(ht.table)[pos.b][pos.i].val
      ensures ht.Stands(it, ErasePos(old(ht.table), pos))
    {
      var _, freed := ht.IterErase(it, pos);
      fds := fds - {fd};
      gone := freed[0];
    }

    /** The table's share of select_cleanup. */
    method Release() returns (gone: seq<Event>)
      requires Valid()
      modifies Repr
      ensures Valid() && Repr == old(Repr)
      ensures Model() == EvSet(EmptyTable(), {})
      ensures gone == Vals(Flatten(old(ht.table)))
    {
      gone := ht.Clean(true);
      fds := {};
    }
  }

  /** slt_evdb together with the parts of mcl_evbase that the backend uses, and the history of the run. */
  class Backend {
    const hash: int -> int
    const inn: EvSetBox
    const out: EvSetBox
    const exp: EvSetBox
    var maxfd: int
    var termFlag: bool
    var calls: nat
    ghost var accepted: multiset<Event>
    ghost var log: seq<Entry>
    ghost var Repr: set<object>

    function Box(k: Kind): EvSetBox {
      match k
      case In => inn
      case Out => out
      case Exp => exp
    }

    ghost predicate Valid()
      reads this, Repr
      ensures Valid() ==> this in Repr
    {
      && this in Repr && {inn, out, exp} <= Repr
      && inn.Repr <= Repr && out.Repr <= Repr && exp.Repr <= Repr
      && this !in inn.Repr && this !in out.Repr && this !in exp.Repr
      && inn.Repr !! out.Repr && inn.Repr !! exp.Repr && out.Repr !! exp.Repr
      && inn.Valid() && out.Valid() && exp.Valid()
      && inn.ht.hash == hash && out.ht.hash == hash && exp.ht.hash == hash
    }

    ghost function Model(): (db: Db)
      requires Valid()
      reads this, Repr
      ensures Sized(db)
    {
      Db(maxfd, inn.Model(), out.Model(), exp.Model())
    }

    ghost function State(): (st: St)
      requires Valid()
      reads this, Repr
      ensures Sized(st.db)
    {
      St(Model(), calls, termFlag, accepted, log)
    }

    /** select_init. */
    constructor (h: int -> int)
      ensures Valid() && fresh(Repr) && hash == h && State() == Start()
    {
      hash := h;
      var i := new EvSetBox(h);
      var o := new EvSetBox(h);
      var e := new EvSetBox(h);
      inn, out, exp := i, o, e;
      maxfd, termFlag, calls := 0, false, 0;
      accepted, log := multiset{}, [];
      Repr := {this} + i.Repr + o.Repr + e.Repr;
    }

    /** add_event on one of the sets. */
    method AddOn(k: Kind, ev: Event) returns (ret: int)
      requires Valid()
      modifies Repr
      ensures Valid() && fresh(Repr - old(Repr))
      ensures ret == AddEvent(hash, old(State()).db.Sel(k), ev).1 && State() == Inserted(hash, old(State()), k, ev)
      ensures forall j :: NodesPrepended(old(Box(j).ht.nodes), Box(j).ht.nodes)
    {
      ret := Box(k).AddEvent(ev);
      Repr := Repr + Box(k).Repr;
    }

    /** The fields beside the event sets. */
    method Note(maxfd': int, ev: Event, ghost taken: bool)
      requires Valid()
      modifies this`maxfd, this`accepted, this`log
      ensures Valid() && State() == Noted(old(State()), maxfd', ev, taken)
    {
      maxfd := maxfd';
      if taken {
        accepted, log := accepted + multiset{ev}, log + [Accept(ev)];
      }
    }

    /** select_add. By ExpBitsSet the branch that adds to the exception set is never taken. */
    method Add(ev: Event) returns (ok: bool)
      requires Valid()
      modifies Repr
      ensures Valid() && fresh(Repr - old(Repr))
      ensures State() == DoAdd(hash, old(State()), ev) && ok == Registry.Add(hash, old(Model()), ev).1
      ensures forall j :: NodesPrepended(old(Box(j).ht.nodes), Box(j).ht.nodes)
    {
      var k := KindOf(ev);
      if k == None {
        return false;
      }
      ok := AddTo(k.value, ev);
    }

    /** select_add, once the set is chosen. */
    method AddTo(k: Kind, ev: Event) returns (ok: bool)
      requires Valid() && KindOf(ev) == Some(k)
      modifies Repr
      ensures Valid() && fresh(Repr - old(Repr))
      ensures State() == DoAdd(hash, old(State()), ev) && ok == Registry.Add(hash, old(State()).db, ev).1
      ensures forall j :: NodesPrepended(old(Box(j).ht.nodes), Box(j).ht.nodes)
    {
      AddIs(hash, State(), k, ev);
      ghost var taken := Takes(hash, State().db, ev);
      var ret := AddOn(k, ev);
      ok := ret != 0;
      Note(if ok && maxfd < ret then ret else maxfd, ev, taken);
    }

    /** select_del. */
    method Del(ev: Event) returns (ok: bool)
      requires Valid()
      modifies Repr
      ensures Valid() && Repr == old(Repr)
      ensures State() == Deleted(hash, old(State()), ev) && ok == Registry.Del(hash, old(Model()), ev).1
    {
      var k := KindOf(ev);
      if k == None {
        return false;
      }
      var gone;
      ok, gone := Box(k.value).DelEvent(ev);
      log := log + AllDestroyed(gone);
    }

    /** A callback is called with the set's type and does what the script says. */
    method FireCallback(k: Kind, ev: Event, script: Script)
      requires Valid()
      modifies Repr
      ensures Valid() && fresh(Repr - old(Repr))
      ensures State() == Fire(hash, old(State()), k, ev, script)
      ensures forall j :: NodesPrepended(old(Box(j).ht.nodes), Box(j).ht.nodes)
    {
      var act := script(calls);
      Enter(k, ev, act.exit);
      var i := 0;
      while i < |act.adds|
        invariant 0 <= i <= |act.adds|
        invariant Valid() && fresh(Repr - old(Repr))
        invariant DoAdds(hash, State(), act.adds[i..]) == Fire(hash, old(State()), k, ev, script)
        invariant forall j :: NodesPrepended(old(Box(j).ht.nodes), Box(j).ht.nodes)
      {
        label before:
        assert act.adds[i..][0] == act.adds[i] && act.adds[i..][1..] == act.adds[i + 1..];
        var _ := Add(act.adds[i]);
        forall j
          ensures NodesPrepended(old(Box(j).ht.nodes), Box(j).ht.nodes)
        {
          NodesPrependedTrans(old(Box(j).ht.nodes), old@before(Box(j).ht.nodes), Box(j).ht.nodes);
        }
        i := i + 1;
      }
    }

    /** The entry into a callback. */
    method Enter(k: Kind, ev: Event, exit: bool)
      requires Valid()
      modifies this`calls, this`termFlag, this`log
      ensures Valid() && State() == Called(old(State()), k, ev, exit)
    {
      calls := calls + 1;
      termFlag := termFlag || exit;
      log := log + [Call(ev, k)];
    }

    /** The pair under the iterator is erased, its bit cleared and its event destroyed. */
    method Drop(it: Iter<Pair<int, Event>>, ghost pos: Pos, k: Kind)
      requires Valid() && it !in Repr && TablesOrdered(hash, Model())
      requires OnTable(Box(k).ht.table, pos) && pos.At? && Box(k).ht.Stands(it, pos)
      modifies Repr, it
      ensures Valid() && Repr == old(Repr)
      ensures State() == Dropped(old(State()), k, pos)
      ensures Box(k).ht.Stands(it, ErasePos(old(Box(k).ht.table), pos))
    {
      var fd := it.pair.value.key;
      assert Model().Sel(k).table == Box(k).ht.table;
      var gone := Box(k).Erase(it, pos, fd);
      log := log + Destroyed(gone);
    }

    /** The callback of the event under the iterator, if it has one; the iterator keeps its pair. */
    method FireAt(it: Iter<Pair<int, Event>>, ghost pos: Pos, k: Kind, script: Script) returns (ghost at: Pos)
      requires Valid() && it !in Repr && TablesOrdered(hash, Model())
      requires OnTable(Box(k).ht.table, pos) && pos.At? && Box(k).ht.Stands(it, pos)
      modifies Repr
      ensures Valid() && fresh(Repr - old(Repr)) && TablesOrdered(hash, Model())
      ensures State() == MayFire(hash, old(State()), k, old(Box(k).ht.table)[pos.b][pos.i].val, script)
      ensures Prepended(old(Box(k).ht.table), Box(k).ht.table)
      ensures at == Shifted(old(Box(k).ht.table), Box(k).ht.table, pos)
      ensures Box(k).ht.Stands(it, at)
    {
      var ev := it.pair.value.val;
      SameLengths(Box(k).ht, pos.b);
      FirePrepends(hash, State(), k, ev, script, k);
      FireOrdered(hash, State(), k, ev, script);
      if Fires(k, ev) {
        FireCallback(k, ev, script);
      }
      at := Shifted(old(Box(k).ht.table), Box(k).ht.table, pos);
      SameLengths(Box(k).ht, pos.b);
      NodeStays(old(Box(k).ht.table), Box(k).ht.table, old(Box(k).ht.nodes), Box(k).ht.nodes, pos);
    }

    /** The end of a turn: the pair is dropped or stepped past. */
    method Leave(it: Iter<Pair<int, Event>>, ghost pos: Pos, k: Kind, drop: bool) returns (ghost next: Pos)
      requires Valid() && it !in Repr && TablesOrdered(hash, Model())
      requires OnTable(Box(k).ht.table, pos) && pos.At? && Box(k).ht.Stands(it, pos)
      modifies Repr, it
      ensures Valid() && Repr == old(Repr)
      ensures (State(), next) == if drop then (Dropped(old(State()), k, pos), ErasePos(old(Box(k).ht.table), pos))
                                 else (old(State()), NextPos(old(Box(k).ht.table), pos))
      ensures Box(k).ht.Stands(it, next)
    {
      if drop {
        next := ErasePos(Box(k).ht.table, pos);
        Drop(it, pos, k);
      } else {
        next := NextPos(Box(k).ht.table, pos);
        Box(k).ht.IterNext(it, pos);
      }
    }

    /** One turn of the loop of handle_events. */
    method TurnOnce(it: Iter<Pair<int, Event>>, ghost pos: Pos, k: Kind, script: Script) returns (ghost next: Pos)
      requires Valid() && it !in Repr && TablesOrdered(hash, Model())
      requires OnTable(Box(k).ht.table, pos) && pos.At? && Box(k).ht.Stands(it, pos)
      modifies Repr, it
      ensures Valid() && fresh(Repr - old(Repr)) && it !in Repr
      ensures (State(), next) == Turn(hash, old(State()), k, pos, script)
      ensures Box(k).ht.Stands(it, next)
    {
      var pair := it.pair.value;
      if pair.key in Box(k).fds {
        ghost var at := FireAt(it, pos, k, script);
        next := Leave(it, at, k, OneShot(k, pair.val));
      } else {
        next := Leave(it, pos, k, false);
      }
    }

    /** A new iterator at the head of a set's table. */
    method Begin(k: Kind) returns (it: Iter<Pair<int, Event>>)
      requires Valid()
      ensures Valid() && fresh(it)
      ensures Box(k).ht.Stands(it, FirstFrom(Model().Sel(k).table, 0))
    {
      it := new Iter<Pair<int, Event>>();
      Box(k).ht.IterHead(it);
    }

    /** handle_events. */
    method HandleEvents(k: Kind, script: Script)
      requires Valid() && TablesOrdered(hash, Model())
      modifies Repr
      ensures Valid() && fresh(Repr - old(Repr)) && TablesOrdered(hash, Model())
      ensures State() == HandleAll(hash, old(State()), k, script)
    {
      ghost var pos := FirstFrom(State().db.Sel(k).table, 0);
      ghost var (goal, ahead) := Handle(hash, State(), k, pos, script);
      var it := Begin(k);
      HandleFrom(it, pos, k, script, ahead, goal);
    }

    /** The loop of handle_events. */
    method HandleFrom(it: Iter<Pair<int, Event>>, ghost start: Pos, k: Kind, script: Script,
                      ghost toVisit: seq<Pair<int, Event>>, ghost goal: St)
      requires Valid() && it !in Repr && Box(k).ht.Stands(it, start)
      requires Pending(hash, State(), k, start, script, toVisit, goal)
      modifies Repr, it
      ensures Valid() && fresh(Repr - old(Repr)) && TablesOrdered(hash, State().db)
      ensures State() == goal
    {
      ghost var pos, ahead := start, toVisit;
      while it.ent != null
        invariant Valid() && fresh(Repr - old(Repr)) && it !in Repr && Box(k).ht.Stands(it, pos)
        invariant Pending(hash, State(), k, pos, script, ahead, goal)
        decreases |ahead|
      {
        pos, ahead := NextTurn(it, pos, k, script, ahead, goal);
      }
      PendingEnd(hash, State(), k, pos, script, ahead, goal);
    }

    /** One turn on the way to the goal of a pass. */
    method NextTurn(it: Iter<Pair<int, Event>>, ghost pos: Pos, k: Kind, script: Script,
                    ghost ahead: seq<Pair<int, Event>>, ghost goal: St)
      returns (ghost next: Pos, ghost rest: seq<Pair<int, Event>>)
      requires Valid() && it !in Repr && Pending(hash, State(), k, pos, script, ahead, goal)
      requires pos.At? && Box(k).ht.Stands(it, pos)
      modifies Repr, it
      ensures Valid() && fresh(Repr - old(Repr)) && it !in Repr && Box(k).ht.Stands(it, next)
      ensures Pending(hash, State(), k, next, script, rest, goal) && |rest| < |ahead|
    {
      PendingTurn(hash, State(), k, pos, script, ahead, goal);
      next := TurnOnce(it, pos, k, script);
      rest := ahead[1..];
    }

    /** The contents of the three fd_sets. */
    method SetFds(i: set<int>, o: set<int>, e: set<int>)
      requires Valid()
      modifies inn`fds, out`fds, exp`fds
      ensures Valid() && inn.fds == i && out.fds == o && exp.fds == e
      ensures State() == old(State()).(db := State().db)
      ensures State().db == old(Model()).(inn := old(Model()).inn.(fds := i), out := old(Model()).out.(fds := o),
                                          exp := old(Model()).exp.(fds := e))
    {
      inn.fds, out.fds, exp.fds := i, o, e;
    }

    /** init_fds on the three sets. */
    method RebuildAll()
      requires Valid()
      modifies inn`fds, out`fds, exp`fds
      ensures Valid() && State() == old(State()).(db := InitAll(old(Model())))
    {
      var i := CollectKeys(inn.ht);
      var o := CollectKeys(out.ht);
      var e := CollectKeys(exp.ht);
      SetFds(i, o, e);
    }

    /** select returns with the outcome o. */
    method SelectReturns(o: Outcome)
      requires Valid()
      modifies inn`fds, out`fds, exp`fds
      ensures Valid() && State() == old(State()).(db := AfterSelect(old(Model()), o))
    {
      match o
      case Ready(r, w, e) => SetFds(inn.Below(maxfd) * r, out.Below(maxfd) * w, exp.Below(maxfd) * e);
      case Timeout => SetFds({}, {}, {});
      case Error =>
    }

    /** One round of the loop of select_dispatch. */
    method RoundOnce(o: Outcome, script: Script)
      requires Valid() && TablesOrdered(hash, Model())
      modifies Repr
      ensures Valid() && fresh(Repr - old(Repr)) && TablesOrdered(hash, Model())
      ensures State() == Round(hash, old(State()), o, script)
    {
      RebuildAll();
      SelectReturns(o);
      AwaitOrdered(hash, old(Model()), o);
      if o.Ready? {
        HandleReady(script);
      }
    }

    /** The three passes of a round. */
    method HandleReady(script: Script)
      requires Valid() && TablesOrdered(hash, Model())
      modifies Repr
      ensures Valid() && fresh(Repr - old(Repr)) && TablesOrdered(hash, Model())
      ensures State() ==
              HandleAll(hash, HandleAll(hash, HandleAll(hash, old(State()), In, script), Out, script), Exp, script)
    {
      HandleEvents(In, script);
      HandleEvents(Out, script);
      HandleEvents(Exp, script);
    }

    /** select_dispatch, as select brings the given outcomes. None: it waits for another one. */
    method Dispatch(outcomes: seq<Outcome>, script: Script) returns (ret: Option<int>)
      requires Valid() && TablesOrdered(hash, Model())
      modifies Repr
      ensures Valid() && fresh(Repr - old(Repr)) && TablesOrdered(hash, Model())
      ensures (State(), ret) == Loop(hash, old(State()), outcomes, script)
    {
      var i := 0;
      while i < |outcomes| && !termFlag
        invariant 0 <= i <= |outcomes|
        invariant Valid() && fresh(Repr - old(Repr)) && TablesOrdered(hash, Model())
        invariant Loop(hash, State(), outcomes[i..], script) == Loop(hash, old(State()), outcomes, script)
      {
        assert outcomes[i..][0] == outcomes[i] && outcomes[i..][1..] == outcomes[i + 1..];
        RoundOnce(outcomes[i], script);
        if outcomes[i].Error? {
          return Some(0);
        }
        i := i + 1;
      }
      return if termFlag then Some(1) else None;
    }

    /** free_evset: every event of one set is destroyed. */
    method ReleaseOne(k: Kind)
      requires Valid()
      modifies Repr
      ensures Valid() && Repr == old(Repr) && State() == Released(old(State()), k)
    {
      var gone := Box(k).Release();
      log := log + AllDestroyed(gone);
    }

    /** select_cleanup. */
    method Cleanup()
      requires Valid()
      modifies Repr
      ensures Valid() && Repr == old(Repr)
      ensures State() == CleanupAll(old(State())).(db := EmptyDb().(maxfd := old(maxfd)))
    {
      ReleasedAll(State());
      ReleaseOne(In);
      ReleaseOne(Out);
      ReleaseOne(Exp);
    }

    /** One command of a client. */
    method Perform(cmd: Cmd, script: Script)
      requires Valid() && TablesOrdered(hash, Model())
      modifies Repr
      ensures Valid() && fresh(Repr - old(Repr)) && TablesOrdered(hash, Model())
      ensures State() == DoCmd(hash, old(State()), cmd, script)
    {
      CmdOrdered(hash, State(), cmd, script);
      match cmd
      case AddEv(ev) => var _ := Add(ev);
      case DelEv(ev) => var _ := Del(ev);
      case Wait(outcomes) => var _ := Dispatch(outcomes, script);
    }

    /** A whole run. */
    method PerformAll(cmds: seq<Cmd>, script: Script)
      requires Valid() && TablesOrdered(hash, Model())
      modifies Repr
      ensures Valid() && fresh(Repr - old(Repr)) && TablesOrdered(hash, Model())
      ensures State() == RunCmds(hash, old(State()), cmds, script)
    {
      var i := 0;
      while i < |cmds|
        invariant 0 <= i <= |cmds|
        invariant Valid() && fresh(Repr - old(Repr)) && TablesOrdered(hash, Model())
        invariant RunCmds(hash, State(), cmds[i..], script) == RunCmds(hash, old(State()), cmds, script)
      {
        assert cmds[i..][0] == cmds[i] && cmds[i..][1..] == cmds[i + 1..];
        Perform(cmds[i], script);
        i := i + 1;
      }
    }
  }
}
