/** What every run of the select backend keeps: the registry in order, and a history in which each
    accepted event is either still registered or was destroyed once. */
module History {
  import opened Seqs
  import opened Chains
  import opened Registry
  import opened Dispatch
  import HashRuns

  // ------------------------------------------------------------- reading the log

  /** How often an event was freed. */
  ghost function Frees(log: seq<Entry>, ev: Event): nat {
    multiset(log)[Free(ev)]
  }

  /** How often its cleanup callback was called. */
  ghost function Cleanups(log: seq<Entry>, ev: Event): nat {
    multiset(log)[Cleanup(ev)]
  }

  /** The events that the registry holds, with multiplicity. */
  ghost function Held(db: Db): multiset<Event> {
    HashRuns.Stored(db.inn.table) + HashRuns.Stored(db.out.table)
  }

  /** Cleanup callbacks went to exactly the freed events that have one, as often as they were freed. */
  ghost predicate CleanupsPaired(log: seq<Entry>) {
    forall ev :: Cleanups(log, ev) == if ev.cleanupCb then Frees(log, ev) else 0
  }

  /** How often the backend took it over. */
  ghost function Acceptances(log: seq<Entry>, ev: Event): nat {
    multiset(log)[Accept(ev)]
  }

  /** The backend owns the event after this much of the log: it took it over more often than it freed it. */
  ghost predicate Owns(log: seq<Entry>, ev: Event) {
    Frees(log, ev) < Acceptances(log, ev)
  }

  /** Every event goes through lives of being taken over, used and freed: it is taken over only when the backend
      does not own it, and it is called back, cleaned up and freed only when the backend does. So nothing is used
      after it was freed, nothing is freed twice. */
  ghost predicate Lifecycles(log: seq<Entry>) {
    forall i | 0 <= i < |log| :: InTurn(log, i)
  }

  ghost predicate InTurn(log: seq<Entry>, i: nat)
    requires i < |log|
  {
    log[i].Accept? <==> !Owns(log[..i], log[i].ev)
  }

  /** Every accepted event is registered or was freed, with multiplicity. */
  ghost predicate Balanced(held: multiset<Event>, log: seq<Entry>, accepted: multiset<Event>) {
    forall ev :: held[ev] + Frees(log, ev) == accepted[ev] && accepted[ev] == Acceptances(log, ev)
  }

  ghost predicate LogOk(held: multiset<Event>, log: seq<Entry>, accepted: multiset<Event>) {
    Balanced(held, log, accepted) && CleanupsPaired(log) && Lifecycles(log)
  }

  ghost predicate HistoryOk(st: St) {
    LogOk(Held(st.db), st.log, st.accepted)
  }

  /** The invariant of every run. */
  ghost predicate Inv(h: int -> int, st: St) {
    DbOk(h, st.db) && HistoryOk(st)
  }

  // ------------------------------------------------------------- log steps

  lemma OwnedSnoc(log: seq<Entry>, e: Entry)
    requires Lifecycles(log) && (e.Accept? <==> !Owns(log, e.ev))
    ensures Lifecycles(log + [e])
  {
    var log' := log + [e];
    forall i | 0 <= i < |log'|
      ensures InTurn(log', i)
    {
      assert log'[..i] == if i < |log| then log[..i] else log;
      assert i < |log| ==> InTurn(log, i);
    }
  }

  /** log' continues log by freeing the events `freed`, all of them owned. */
  ghost predicate Continues(log: seq<Entry>, log': seq<Entry>, freed: multiset<Event>) {
    && (forall e :: Frees(log', e) == Frees(log, e) + freed[e] && Acceptances(log', e) == Acceptances(log, e))
    && (CleanupsPaired(log) ==> CleanupsPaired(log'))
    && (Lifecycles(log) && CanFree(log, freed) ==> Lifecycles(log'))
  }

  ghost predicate CanFree(log: seq<Entry>, evs: multiset<Event>) {
    forall e :: Frees(log, e) + evs[e] <= Acceptances(log, e)
  }

  lemma ContinuesTrans(a: seq<Entry>, b: seq<Entry>, c: seq<Entry>, m: multiset<Event>, n: multiset<Event>)
    requires Continues(a, b, m) && Continues(b, c, n)
    ensures Continues(a, c, m + n)
  {
    if CanFree(a, m + n) {
      forall e
        ensures Frees(a, e) + m[e] <= Acceptances(a, e) && Frees(b, e) + n[e] <= Acceptances(b, e)
      {
        assert Frees(a, e) + (m + n)[e] <= Acceptances(a, e);
      }
    }
  }

  lemma LogCleanup(log: seq<Entry>, ev: Event)
    requires Lifecycles(log) && Owns(log, ev)
    ensures Lifecycles(log + Destroyed(ev))
  {
    var log1 := log + if ev.cleanupCb then [Cleanup(ev)] else [];
    if ev.cleanupCb {
      OwnedSnoc(log, Cleanup(ev));
      CountSum(log, [Cleanup(ev)], Free(ev));
      CountSum(log, [Cleanup(ev)], Accept(ev));
    } else {
      assert log1 == log;
    }
    OwnedSnoc(log1, Free(ev));
    assert log + Destroyed(ev) == log1 + [Free(ev)];
  }

  lemma LogDestroyed(log: seq<Entry>, ev: Event)
    ensures Continues(log, log + Destroyed(ev), multiset{ev})
  {
    var d := Destroyed(ev);
    assert multiset(log + d) == multiset(log) + multiset(d);
    if Lifecycles(log) && CanFree(log, multiset{ev}) {
      assert Frees(log, ev) + multiset{ev}[ev] <= Acceptances(log, ev);
      LogCleanup(log, ev);
    }
  }

  /** Registered events leave the registry and are destroyed. */
  lemma LeaveOk(held: multiset<Event>, log: seq<Entry>, accepted: multiset<Event>,
                held': multiset<Event>, log': seq<Entry>, gone: multiset<Event>)
    requires LogOk(held, log, accepted) && held' + gone == held && Continues(log, log', gone)
    ensures LogOk(held', log', accepted)
  {
    forall ev
      ensures held'[ev] + Frees(log', ev) == accepted[ev] && Frees(log, ev) + gone[ev] <= Acceptances(log, ev)
    {
      assert (held' + gone)[ev] == held[ev];
    }
  }

  lemma LogCall(log: seq<Entry>, ev: Event, kind: Kind)
    requires CleanupsPaired(log) && Lifecycles(log) && Owns(log, ev)
    ensures CleanupsPaired(log + [Call(ev, kind)]) && Lifecycles(log + [Call(ev, kind)])
    ensures forall e :: Frees(log + [Call(ev, kind)], e) == Frees(log, e)
                        && Acceptances(log + [Call(ev, kind)], e) == Acceptances(log, e)
  {
    OwnedSnoc(log, Call(ev, kind));
    assert multiset(log + [Call(ev, kind)]) == multiset(log) + multiset{Call(ev, kind)};
  }

  lemma LogAccept(log: seq<Entry>, ev: Event)
    requires CleanupsPaired(log) && Lifecycles(log) && !Owns(log, ev)
    ensures CleanupsPaired(log + [Accept(ev)]) && Lifecycles(log + [Accept(ev)])
    ensures forall e :: Frees(log + [Accept(ev)], e) == Frees(log, e)
                        && Acceptances(log + [Accept(ev)], e) == Acceptances(log, e) + multiset{ev}[e]
  {
    OwnedSnoc(log, Accept(ev));
    assert multiset(log + [Accept(ev)]) == multiset(log) + multiset{Accept(ev)};
  }

  lemma CountSnoc(log: seq<Entry>, n: nat, e: Entry)
    requires n < |log|
    ensures multiset(log[..n + 1])[e] == multiset(log[..n])[e] + if log[n] == e then 1 else 0
  {
    assert log[..n + 1] == log[..n] + [log[n]];
    CountSum(log[..n], [log[n]], e);
  }

  /** Taking over and freeing alternate. */
  lemma {:induction false} Alternates(log: seq<Entry>, ev: Event, n: nat)
    requires Lifecycles(log) && n <= |log|
    ensures Frees(log[..n], ev) <= Acceptances(log[..n], ev) <= Frees(log[..n], ev) + 1
    decreases n
  {
    if n > 0 {
      Alternates(log, ev, n - 1);
      assert InTurn(log, n - 1);
      CountSnoc(log, n - 1, Free(ev));
      CountSnoc(log, n - 1, Accept(ev));
    }
  }

  lemma OwnedBefore(log: seq<Entry>, ev: Event, n: nat)
    requires Lifecycles(log) && 0 < n <= |log| && Owns(log[..n], ev) && log[n - 1] != Accept(ev)
    ensures Owns(log[..n - 1], ev) && log[n - 1] != Free(ev)
  {
    Alternates(log, ev, n - 1);
    assert InTurn(log, n - 1);
    CountSnoc(log, n - 1, Free(ev));
    CountSnoc(log, n - 1, Accept(ev));
  }

  /** What that means: an event that the backend owns was taken over at some point and not freed since. */
  lemma {:induction false} OwnedSince(log: seq<Entry>, ev: Event, n: nat) returns (j: nat)
    requires Lifecycles(log) && n <= |log| && Owns(log[..n], ev)
    ensures j < n && log[j] == Accept(ev) && Free(ev) !in log[j..n]
    decreases n
  {
    if log[n - 1] == Accept(ev) {
      j := n - 1;
    } else {
      OwnedBefore(log, ev, n);
      j := OwnedSince(log, ev, n - 1);
      assert log[j..n] == log[j..n - 1] + [log[n - 1]];
    }
  }

  /** Before every callback, cleanup callback or free of an event it was taken over, and not freed in between. */
  lemma UsedWhileOwned(log: seq<Entry>, i: nat)
    requires Lifecycles(log) && i < |log| && !log[i].Accept?
    ensures exists j | 0 <= j < i :: log[j] == Accept(log[i].ev) && Free(log[i].ev) !in log[j..i]
  {
    assert InTurn(log, i);
    var j := OwnedSince(log, log[i].ev, i);
  }

  // ------------------------------------------------------------- adding

  lemma StoredPut(h: int -> int, t: EvTable, ev: Event)
    requires TableOk(h, t)
    ensures var u := Put(h, t, ev.fd, Some(ev), false);
            HashRuns.Stored(u.table) == HashRuns.Stored(t) + if u.ok then multiset{ev} else multiset{}
  {
    HashRuns.PutConserves(h, t, ev.fd, Some(ev), false);
    assert Put(h, t, ev.fd, Some(ev), false).dropped == [];
  }

  lemma AddHolds(h: int -> int, db: Db, ev: Event)
    requires GoodHash(h) && DbOk(h, db) && ev.fd < FD_SETSIZE
    ensures Held(Add(h, db, ev).0) == Held(db) + if Takes(h, db, ev) then multiset{ev} else multiset{}
  {
    if Takes(h, db, ev) {
      var k := KindOf(ev).value;
      var t, db' := db.Sel(k).table, Add(h, db, ev).0;
      StoredPut(h, t, ev);
      PutFresh(h, k, db.maxfd, t, ev);
      assert db'.Sel(k).table == Put(h, t, ev.fd, Some(ev), false).table;
      assert forall j | j != k :: db'.Sel(j) == db.Sel(j);
    } else {
      AddTakes(h, db, ev);
    }
  }

  lemma DoAddInv(h: int -> int, st: St, ev: Event)
    requires GoodHash(h) && Inv(h, st) && ev.fd < FD_SETSIZE
    ensures Inv(h, DoAdd(h, st, ev)) && st.accepted <= DoAdd(h, st, ev).accepted
  {
    AddOk(h, st.db, ev);
    AddHolds(h, st.db, ev);
    if Takes(h, st.db, ev) {
      NotHeld(h, st.db, ev);
      LogAccept(st.log, ev);
    }
  }

  /** An event that the registry takes is not in it yet. */
  lemma NotHeld(h: int -> int, db: Db, ev: Event)
    requires DbOk(h, db) && Takes(h, db, ev)
    ensures Held(db)[ev] == 0
  {
    if HashRuns.Stored(db.inn.table)[ev] > 0 {
      StoredIsFound(h, In, db.maxfd, db.inn, ev);
    }
    if HashRuns.Stored(db.out.table)[ev] > 0 {
      StoredIsFound(h, Out, db.maxfd, db.out, ev);
    }
  }

  lemma StoredIsFound(h: int -> int, k: Kind, maxfd: int, s: EvSet, ev: Event)
    requires EvSetOk(h, k, maxfd, s) && HashRuns.Stored(s.table)[ev] > 0
    ensures KindOf(ev) == Some(k) && Lookup(h, s.table, ev.fd) == Some(ev)
  {
    var all := Flatten(s.table);
    assert ev in Vals(all);
    var i :| 0 <= i < |all| && Vals(all)[i] == ev;
    InFlatten(h, s.table, 0, all[i]);
    assert s.table[0..] == s.table && all[i] in all;
    var c := s.table[h(all[i].key)];
    var j :| 0 <= j < |c| && c[j] == all[i];
    assert ChainOk(h, h(all[i].key), c) && PairOk(k, maxfd, c[j]);
    HashRuns.KeyIndexIs(c, j);
  }

  ghost predicate FdsInRange(evs: seq<Event>) {
    forall i | 0 <= i < |evs| :: evs[i].fd < FD_SETSIZE
  }

  ghost predicate ScriptOk(script: Script) {
    forall n :: FdsInRange(script(n).adds)
  }

  lemma {:induction false} DoAddsInv(h: int -> int, st: St, evs: seq<Event>)
    requires GoodHash(h) && Inv(h, st) && FdsInRange(evs)
    ensures Inv(h, DoAdds(h, st, evs)) && st.accepted <= DoAdds(h, st, evs).accepted
    decreases |evs|
  {
    if evs != [] {
      var st1 := DoAdd(h, st, evs[0]);
      assert Inv(h, st1) && st.accepted <= st1.accepted by { DoAddInv(h, st, evs[0]); }
      DoAddsInv(h, st1, evs[1..]);
    }
  }

  // ------------------------------------------------------------- dispatching

  lemma AtIsHeld(t: EvTable, pos: Pos)
    requires OnTable(t, pos) && pos.At?
    ensures HashRuns.Stored(t)[t[pos.b][pos.i].val] >= 1
  {
    PassedAndRemaining(t, pos);
    var all := Flatten(t);
    var n := |Passed(t, pos)|;
    assert all[n] == t[pos.b][pos.i];
    assert Vals(all)[n] == t[pos.b][pos.i].val;
  }

  /** Logging a callback on a registered event. */
  lemma CallInv(h: int -> int, st: St, k: Kind, ev: Event, exit: bool)
    requires Inv(h, st) && Held(st.db)[ev] >= 1
    ensures Inv(h, Called(st, k, ev, exit))
  {
    assert Owns(st.log, ev);
    LogCall(st.log, ev, k);
  }

  /** A callback on a registered event, and what it adds. */
  lemma FireInv(h: int -> int, st: St, k: Kind, ev: Event, script: Script)
    requires GoodHash(h) && Inv(h, st) && ScriptOk(script) && Held(st.db)[ev] >= 1
    ensures Inv(h, MayFire(h, st, k, ev, script)) && st.accepted <= MayFire(h, st, k, ev, script).accepted
  {
    if Fires(k, ev) {
      var act := script(st.calls);
      var st1 := Called(st, k, ev, act.exit);
      assert Inv(h, st1) by { CallInv(h, st, k, ev, act.exit); }
      var st2 := DoAdds(h, st1, act.adds);
      assert Inv(h, st2) && st1.accepted <= st2.accepted by { DoAddsInv(h, st1, act.adds); }
      assert MayFire(h, st, k, ev, script) == st2;
    }
  }

  lemma DropDbOk(h: int -> int, st: St, k: Kind, pos: Pos)
    requires DbOk(h, st.db) && OnTable(st.db.Sel(k).table, pos) && pos.At?
    ensures DbOk(h, Dropped(st, k, pos).db)
  {
    var s := st.db.Sel(k);
    var p := s.table[pos.b][pos.i];
    assert k != Exp && EvSetOk(h, k, st.db.maxfd, s);
    EraseIsRemoveHere(h, s.table, pos);
    RemoveOk(h, k, st.db.maxfd, s, p.key);
  }

  lemma DropHolds(h: int -> int, st: St, k: Kind, pos: Pos)
    requires DbOk(h, st.db) && OnTable(st.db.Sel(k).table, pos) && pos.At?
    ensures Held(Dropped(st, k, pos).db) + multiset{st.db.Sel(k).table[pos.b][pos.i].val} == Held(st.db)
  {
    assert k != Exp && TableOk(h, st.db.Sel(k).table);
    EraseIsRemoveHere(h, st.db.Sel(k).table, pos);
  }

  /** Erasing a one-shot event and destroying it. */
  lemma DropInv(h: int -> int, st: St, k: Kind, pos: Pos)
    requires Inv(h, st) && OnTable(st.db.Sel(k).table, pos) && pos.At?
    ensures Inv(h, Dropped(st, k, pos))
  {
    var ev := st.db.Sel(k).table[pos.b][pos.i].val;
    var st' := Dropped(st, k, pos);
    assert DbOk(h, st'.db) by { DropDbOk(h, st, k, pos); }
    assert Held(st'.db) + multiset{ev} == Held(st.db) by { DropHolds(h, st, k, pos); }
    LogDestroyed(st.log, ev);
    LeaveOk(Held(st.db), st.log, st.accepted, Held(st'.db), st'.log, multiset{ev});
  }

  lemma EraseIsRemoveHere(h: int -> int, t: EvTable, pos: Pos)
    requires TableOk(h, t) && OnTable(t, pos) && pos.At?
    ensures var p := t[pos.b][pos.i];
            && Lookup(h, t, p.key) == Some(p.val)
            && Remove(h, t, p.key) == Update(EraseAt(t, pos), true, [p.val])
            && HashRuns.Stored(EraseAt(t, pos)) + multiset{p.val} == HashRuns.Stored(t)
  {
    var p := t[pos.b][pos.i];
    HashRuns.EraseIsRemove(h, t, pos);
    HashRuns.RemoveConserves(h, t, p.key);
    assert ChainOk(h, pos.b, t[pos.b]);
    HashRuns.KeyIndexIs(t[pos.b], pos.i);
  }

  lemma TurnInv(h: int -> int, st: St, k: Kind, pos: Pos, script: Script)
    requires GoodHash(h) && Inv(h, st) && ScriptOk(script)
    requires OnTable(st.db.Sel(k).table, pos) && pos.At?
    ensures var st' := Turn(h, st, k, pos, script).0; Inv(h, st') && st.accepted <= st'.accepted
  {
    var s := st.db.Sel(k);
    var p := s.table[pos.b][pos.i];
    if p.key in s.fds {
      AtIsHeld(s.table, pos);
      assert k != Exp;
      var st1 := MayFire(h, st, k, p.val, script);
      assert Inv(h, st1) && st.accepted <= st1.accepted by { FireInv(h, st, k, p.val, script); }
      FirePrepends(h, st, k, p.val, script, k);
      var pos1 := Shifted(s.table, st1.db.Sel(k).table, pos);
      if OneShot(k, p.val) {
        DropInv(h, st1, k, pos1);
      }
    }
  }

  lemma {:induction false} HandleInv(h: int -> int, st: St, k: Kind, pos: Pos, script: Script)
    requires GoodHash(h) && Inv(h, st) && ScriptOk(script) && OnTable(st.db.Sel(k).table, pos)
    ensures var st' := Handle(h, st, k, pos, script).0; Inv(h, st') && st.accepted <= st'.accepted
    decreases BucketsAhead(st.db.Sel(k).table, pos), NodesAhead(st.db.Sel(k).table, pos)
  {
    if pos.At? {
      var (st1, pos1) := Turn(h, st, k, pos, script);
      assert Inv(h, st1) && st.accepted <= st1.accepted by { TurnInv(h, st, k, pos, script); }
      TurnAdvances(h, st, k, pos, script);
      HandleInv(h, st1, k, pos1, script);
    }
  }

  // ------------------------------------------------------------- rounds and runs

  /** A descriptor is among the keys exactly when it can be looked up. */
  lemma KeysAreRegistered(h: int -> int, t: EvTable, fd: int)
    requires TableOk(h, t)
    ensures fd in KeysOf(t) <==> Lookup(h, t, fd).Some?
  {
    assert t[0..] == t;
    if fd in KeysOf(t) {
      var p :| p in Flatten(t) && p.key == fd;
      InFlatten(h, t, 0, p);
      assert KeyIndex(t[h(fd)], fd) < |t[h(fd)]|;
    }
    if Lookup(h, t, fd).Some? {
      var p := t[h(fd)][KeyIndex(t[h(fd)], fd)];
      InFlatten(h, t, 0, p);
    }
  }

  /** Narrowing or rebuilding the descriptor sets keeps the registry in order. */
  lemma FdsOk(h: int -> int, k: Kind, maxfd: int, s: EvSet, fds: set<int>)
    requires EvSetOk(h, k, maxfd, s) && fds <= KeysOf(s.table)
    ensures EvSetOk(h, k, maxfd, s.(fds := fds))
  {
    forall fd | fd in fds
      ensures Lookup(h, s.table, fd).Some?
    {
      KeysAreRegistered(h, s.table, fd);
    }
  }

  lemma KeysBelowMax(h: int -> int, k: Kind, maxfd: int, s: EvSet, fd: int)
    requires EvSetOk(h, k, maxfd, s) && fd in KeysOf(s.table)
    ensures 0 <= fd <= maxfd
  {
    KeysAreRegistered(h, s.table, fd);
    var i := KeyIndex(s.table[h(fd)], fd);
    assert PairOk(k, maxfd, s.table[h(fd)][i]);
  }

  lemma EmptyKeys()
    ensures KeysOf(EmptyTable()) == {}
  {
    HashRuns.FlattenEmpty(EmptyTable<int, Event>());
  }

  lemma EmptyDbOk(h: int -> int)
    ensures DbOk(h, EmptyDb())
  {
  }

  /** Right before select, each descriptor set and what select will look at are exactly the registered
      descriptors of its table. */
  lemma WatchesRegistered(h: int -> int, db: Db, k: Kind)
    requires DbOk(h, db)
    ensures DbOk(h, InitAll(db))
    ensures InitAll(db).Sel(k).fds == Watched(InitAll(db), k) == KeysOf(db.Sel(k).table)
  {
    EmptyKeys();
    FdsOk(h, In, db.maxfd, db.inn, KeysOf(db.inn.table));
    FdsOk(h, Out, db.maxfd, db.out, KeysOf(db.out.table));
    var keys := KeysOf(db.Sel(k).table);
    forall fd | fd in keys
      ensures fd <= db.maxfd
    {
      KeysBelowMax(h, k, db.maxfd, db.Sel(k), fd);
    }
  }

  lemma AfterSelectOk(h: int -> int, db: Db, o: Outcome)
    requires DbOk(h, db)
    ensures DbOk(h, AfterSelect(InitAll(db), o))
  {
    WatchesRegistered(h, db, In);
    WatchesRegistered(h, db, Out);
    WatchesRegistered(h, db, Exp);
    EmptyKeys();
    var db1 := InitAll(db);
    var db2 := AfterSelect(db1, o);
    FdsOk(h, In, db.maxfd, db1.inn, db2.inn.fds);
    FdsOk(h, Out, db.maxfd, db1.out, db2.out.fds);
  }

  lemma HandleAllInv(h: int -> int, st: St, k: Kind, script: Script)
    requires GoodHash(h) && Inv(h, st) && ScriptOk(script)
    ensures Inv(h, HandleAll(h, st, k, script)) && st.accepted <= HandleAll(h, st, k, script).accepted
  {
    HandleInv(h, st, k, FirstFrom(st.db.Sel(k).table, 0), script);
  }

  lemma RoundInv(h: int -> int, st: St, o: Outcome, script: Script)
    requires GoodHash(h) && Inv(h, st) && ScriptOk(script)
    ensures Inv(h, Round(h, st, o, script)) && st.accepted <= Round(h, st, o, script).accepted
  {
    var st1 := Selected(st, o);
    assert DbOk(h, st1.db) by { AfterSelectOk(h, st.db, o); }
    assert Inv(h, st1);
    if o.Ready? {
      var st2 := HandleAll(h, st1, In, script);
      assert Inv(h, st2) && st1.accepted <= st2.accepted by { HandleAllInv(h, st1, In, script); }
      var st3 := HandleAll(h, st2, Out, script);
      assert Inv(h, st3) && st2.accepted <= st3.accepted by { HandleAllInv(h, st2, Out, script); }
      HandleAllInv(h, st3, Exp, script);
    }
  }

  lemma {:induction false} LoopInv(h: int -> int, st: St, outcomes: seq<Outcome>, script: Script)
    requires GoodHash(h) && Inv(h, st) && ScriptOk(script)
    ensures Inv(h, Loop(h, st, outcomes, script).0) && st.accepted <= Loop(h, st, outcomes, script).0.accepted
    decreases |outcomes|
  {
    if !st.stop && outcomes != [] {
      var st1 := Round(h, st, outcomes[0], script);
      assert Inv(h, st1) && st.accepted <= st1.accepted by { RoundInv(h, st, outcomes[0], script); }
      if !outcomes[0].Error? {
        LoopInv(h, st1, outcomes[1..], script);
      }
    }
  }

  lemma DelEventHolds(h: int -> int, s: EvSet, ev: Event)
    requires |s.table| == BUCKETS
    ensures var (s', _, gone) := DelEvent(h, s, ev);
            HashRuns.Stored(s'.table) + multiset(gone) == HashRuns.Stored(s.table) && |gone| <= 1
  {
    HashRuns.RemoveConserves(h, s.table, ev.fd);
  }

  lemma RemoveHolds(h: int -> int, db: Db, ev: Event)
    requires DbOk(h, db)
    ensures var (db', _, gone) := Del(h, db, ev); Held(db') + multiset(gone) == Held(db)
    ensures |Del(h, db, ev).2| <= 1
  {
    if KindOf(ev).Some? {
      var k := KindOf(ev).value;
      var s := db.Sel(k);
      var (s', _, gone) := DelEvent(h, s, ev);
      DelEventHolds(h, s, ev);
      assert Del(h, db, ev).0 == db.With(k, s') && Del(h, db, ev).2 == gone;
    }
  }

  lemma DelInv(h: int -> int, st: St, ev: Event, script: Script)
    requires Inv(h, st)
    ensures Inv(h, DoCmd(h, st, DelEv(ev), script)) && st.accepted == DoCmd(h, st, DelEv(ev), script).accepted
  {
    var (db, ok, gone) := Del(h, st.db, ev);
    var st' := DoCmd(h, st, DelEv(ev), script);
    assert DbOk(h, db) by { DelOk(h, st.db, ev); }
    RemoveHolds(h, st.db, ev);
    LogAll(st.log, gone);
    LeaveOk(Held(st.db), st.log, st.accepted, Held(db), st'.log, multiset(gone));
  }

  /** Destroying several events. */
  lemma {:induction false} LogAll(log: seq<Entry>, evs: seq<Event>)
    ensures Continues(log, log + AllDestroyed(evs), multiset(evs))
    decreases |evs|
  {
    if evs == [] {
      assert log + [] == log;
    } else {
      var ev, rest := evs[0], evs[1..];
      var log1 := log + Destroyed(ev);
      var log2 := log1 + AllDestroyed(rest);
      assert Continues(log, log1, multiset{ev}) by { LogDestroyed(log, ev); }
      assert Continues(log1, log2, multiset(rest)) by { LogAll(log1, rest); }
      ContinuesTrans(log, log1, log2, multiset{ev}, multiset(rest));
      AllDestroyedCons(log, evs);
    }
  }

  lemma AllDestroyedCons(log: seq<Entry>, evs: seq<Event>)
    requires evs != []
    ensures log + AllDestroyed(evs) == (log + Destroyed(evs[0])) + AllDestroyed(evs[1..])
    ensures multiset(evs) == multiset{evs[0]} + multiset(evs[1..])
  {
    assert evs == [evs[0]] + evs[1..];
  }

  ghost predicate CmdsOk(cmds: seq<Cmd>) {
    forall i | 0 <= i < |cmds| && cmds[i].AddEv? :: cmds[i].ev.fd < FD_SETSIZE
  }

  lemma CmdsOkSplit(cmds: seq<Cmd>)
    requires CmdsOk(cmds) && cmds != []
    ensures CmdsOk([cmds[0]]) && CmdsOk(cmds[1..])
  {
  }

  lemma CmdInv(h: int -> int, st: St, cmd: Cmd, script: Script)
    requires GoodHash(h) && Inv(h, st) && ScriptOk(script) && CmdsOk([cmd])
    ensures Inv(h, DoCmd(h, st, cmd, script))
  {
    match cmd
    case AddEv(ev) =>
      assert [cmd][0].AddEv?;
      DoAddInv(h, st, ev);
    case DelEv(ev) => DelInv(h, st, ev, script);
    case Wait(outcomes) => LoopInv(h, st, outcomes, script);
  }

  /** Every run of adds, deletes and dispatches, with callbacks that add events, keeps the registry in order
      and the history balanced. */
  lemma {:induction false} RunInv(h: int -> int, st: St, cmds: seq<Cmd>, script: Script)
    requires GoodHash(h) && Inv(h, st) && ScriptOk(script) && CmdsOk(cmds)
    ensures Inv(h, RunCmds(h, st, cmds, script))
    decreases |cmds|
  {
    if cmds != [] {
      var st1 := DoCmd(h, st, cmds[0], script);
      assert Inv(h, st1) by { CmdInv(h, st, cmds[0], script); }
      RunInv(h, st1, cmds[1..], script);
    }
  }

  lemma EmptyLogOk()
    ensures LogOk(multiset{}, [], multiset{})
  {
  }

  lemma EmptyHeld()
    ensures Held(EmptyDb()) == multiset{}
  {
    HashRuns.FlattenEmpty(EmptyTable<int, Event>());
  }

  lemma StartInv(h: int -> int)
    ensures Inv(h, Start())
  {
    EmptyDbOk(h);
    EmptyHeld();
    EmptyLogOk();
  }

  /** After any run and the final cleanup every accepted event was freed exactly as often as it was accepted,
      with its cleanup callback each time; and at every moment only events that the backend owned were called
      back, cleaned up or freed. */
  lemma RunFreesAll(h: int -> int, cmds: seq<Cmd>, script: Script)
    requires GoodHash(h) && ScriptOk(script) && CmdsOk(cmds)
    ensures var st := CleanupAll(RunCmds(h, Start(), cmds, script));
            && (forall ev :: multiset(st.log)[Accept(ev)] == st.accepted[ev] == multiset(st.log)[Free(ev)])
            && (forall ev :: multiset(st.log)[Cleanup(ev)] == if ev.cleanupCb then st.accepted[ev] else 0)
            && Lifecycles(st.log)
  {
    StartInv(h);
    RunInv(h, Start(), cmds, script);
    CleanupFrees(h, RunCmds(h, Start(), cmds, script));
  }

  lemma CleanupFrees(h: int -> int, st: St)
    requires Inv(h, st)
    ensures var st' := CleanupAll(st);
            && (forall ev :: Acceptances(st'.log, ev) == st'.accepted[ev] == Frees(st'.log, ev))
            && CleanupsPaired(st'.log) && Lifecycles(st'.log)
  {
    HashRuns.FlattenEmpty(EmptyTable<int, Event>());
    var i, o, e := Vals(Flatten(st.db.inn.table)), Vals(Flatten(st.db.out.table)), Vals(Flatten(st.db.exp.table));
    var all := i + o + e;
    var st' := CleanupAll(st);
    assert e == [] && all == i + o && multiset(all) == Held(st.db);
    assert Continues(st.log, st'.log, Held(st.db)) by { LogAll(st.log, all); }
    LeaveOk(Held(st.db), st.log, st.accepted, multiset{}, st'.log, Held(st.db));
  }
}
