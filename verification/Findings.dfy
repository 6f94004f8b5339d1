/** The select backend with its real hash, and where it departs from what its callers may expect. */
module Findings {
  import opened Seqs
  import opened Chains
  import opened HashFn
  import opened Registry
  import opened Dispatch
  import opened History
  import opened Passes
  import opened TooEarly
  import opened Callbacks
  import opened Rounds
  import opened Calls

  /** cal_hash_int is good enough for descriptors: all are accepted, and no chain has more than two. */
  lemma FdHashGood()
    ensures GoodHash(HashInt)
    ensures forall b, c: Chain<int, Event> | ChainOk(HashInt, b, c) && FdKeys(c) :: |c| <= 2
  {
    forall fd | 0 <= fd < FD_SETSIZE
      ensures Available(HashInt(fd))
    {
      Accepted(fd);
    }
    forall b, c: Chain<int, Event> | ChainOk(HashInt, b, c) && FdKeys(c)
      ensures |c| <= 2
    {
      ChainBound(c, b, 1024);
    }
  }

  /** Over every run with the real hash, from start to cleanup. */
  lemma BackendFreesAll(cmds: seq<Cmd>, script: Script)
    requires ScriptOk(script) && CmdsOk(cmds)
    ensures var st := CleanupAll(RunCmds(HashInt, Start(), cmds, script));
            && (forall ev :: multiset(st.log)[Accept(ev)] == st.accepted[ev] == multiset(st.log)[Free(ev)])
            && (forall ev :: multiset(st.log)[Cleanup(ev)] == if ev.cleanupCb then st.accepted[ev] else 0)
            && Lifecycles(st.log)
  {
    FdHashGood();
    RunFreesAll(HashInt, cmds, script);
  }

  // ------------------------------------------------------------- what a round does to one event

  /** The log of a pass over one set whose callbacks add nothing. */
  ghost function QuietEntries(db: Db, k: Kind, o: Outcome): seq<Entry>
    requires o.Ready?
  {
    Entries(k, KeysOf(db.Sel(k).table) * ReadyFor(o, k), Flatten(db.Sel(k).table))
  }

  lemma QuietSince(h: int -> int, st: St, o: Outcome, script: Script)
    requires Quiet(script) && DbOk(h, st.db) && o.Ready?
    ensures Since(st, Round(h, st, o, script)) == QuietEntries(st.db, In, o) + QuietEntries(st.db, Out, o)
  {
    RoundExact(h, st, o, script);
    Assoc(st.log, QuietEntries(st.db, In, o), QuietEntries(st.db, Out, o));
  }

  /** What the log of a pass over one set says about an event of kind k. */
  lemma PassMeaning(h: int -> int, db: Db, j: Kind, o: Outcome, k: Kind, ev: Event, kind: Kind)
    requires DbOk(h, db) && o.Ready? && KindOf(ev) == Some(k)
    ensures var entries := QuietEntries(db, j, o);
            var here := j == k && Lookup(h, db.Sel(k).table, ev.fd) == Some(ev) && ev.fd in ReadyFor(o, k);
            && multiset(entries)[Call(ev, kind)] == (if here && Fires(k, ev) && kind == k then 1 else 0)
            && Frees(entries, ev) == (if here && OneShot(k, ev) then 1 else 0)
  {
    var t := db.Sel(j).table;
    RegisteredIs(h, db, j, ev);
    assert DistinctKeys(Flatten(t)) by { TablesOk(h, db, j); FlattenDistinct(h, t, 0); assert t[0..] == t; }
    forall p | p in Flatten(t)
      ensures p.key == p.val.fd
    {
      TablesOk(h, db, j);
      HeldPair(h, t, p);
      var i := KeyIndex(t[h(p.key)], p.key);
      assert t[h(p.key)][i] == p && PairOk(j, db.maxfd, t[h(p.key)][i]);
    }
    EntriesMeaning(j, KeysOf(t) * ReadyFor(o, j), Flatten(t), ev, kind);
  }

  lemma QuietCounts(h: int -> int, db: Db, o: Outcome, k: Kind, ev: Event, kind: Kind)
    requires DbOk(h, db) && o.Ready? && KindOf(ev) == Some(k)
    ensures var log := QuietEntries(db, In, o) + QuietEntries(db, Out, o);
            Tallies(log, k, ev, kind, if ReportedReady(h, db, k, o, ev) then 1 else 0)
  {
    var a, b := QuietEntries(db, In, o), QuietEntries(db, Out, o);
    var n := if ReportedReady(h, db, k, o, ev) then 1 else 0;
    PassMeaning(h, db, In, o, k, ev, kind);
    PassMeaning(h, db, Out, o, k, ev, kind);
    TalliesAdd(a, b, k, ev, kind, if k == In then n else 0, if k == Out then n else 0);
  }

  /** The log of one round whose callbacks leave the backend alone: a registered event that was reported ready was
      called exactly once, with the type of its set, if it has a callback, and freed exactly once if it is
      one-shot; no other event was called or freed. */
  lemma RoundCalls(h: int -> int, st: St, o: Outcome, script: Script, ev: Event, k: Kind, kind: Kind)
    requires Quiet(script) && DbOk(h, st.db) && o.Ready? && KindOf(ev) == Some(k)
    ensures var st' := Round(h, st, o, script);
            var ready := ReportedReady(h, st.db, k, o, ev);
            && st.log <= st'.log
            && multiset(Since(st, st'))[Call(ev, kind)] == (if ready && ev.callback && kind == k then 1 else 0)
            && Frees(Since(st, st'), ev) == (if ready && OneShot(k, ev) then 1 else 0)
  {
    QuietSince(h, st, o, script);
    QuietCounts(h, st.db, o, k, ev, kind);
  }

  lemma RoundTable(h: int -> int, st: St, o: Outcome, script: Script, k: Kind)
    requires Quiet(script) && DbOk(h, st.db) && o.Ready? && k != Exp
    ensures var t := st.db.Sel(k).table;
            Flatten(Round(h, st, o, script).db.Sel(k).table) == Staying(k, KeysOf(t) * ReadyFor(o, k), Flatten(t))
  {
    RoundExact(h, st, o, script);
  }

  /** Registration after such a round: what was reported ready and is one-shot is gone, everything else stays. */
  lemma RoundKeeps(h: int -> int, st: St, o: Outcome, script: Script, ev: Event, k: Kind)
    requires GoodHash(h) && Quiet(script) && Inv(h, st) && o.Ready? && KindOf(ev) == Some(k)
    ensures Lookup(h, Round(h, st, o, script).db.Sel(k).table, ev.fd) == Some(ev) <==>
            Lookup(h, st.db.Sel(k).table, ev.fd) == Some(ev)
            && !(ReportedReady(h, st.db, k, o, ev) && OneShot(k, ev))
  {
    var db' := Round(h, st, o, script).db;
    var t, p := st.db.Sel(k).table, Pair(ev.fd, ev);
    assert DbOk(h, db') by { RoundInv(h, st, o, script); }
    RegisteredIs(h, st.db, k, ev);
    RegisteredIs(h, db', k, ev);
    RoundTable(h, st, o, script, k);
    StayingHas(k, KeysOf(t) * ReadyFor(o, k), Flatten(t), p);
  }

  lemma {:induction false} StayingHas(k: Kind, fds: set<int>, pairs: seq<Pair<int, Event>>, p: Pair<int, Event>)
    ensures p in Staying(k, fds, pairs) <==> p in pairs && Stays(k, fds, p)
  {
    if pairs != [] {
      assert pairs == [pairs[0]] + pairs[1..];
      StayingHas(k, fds, pairs[1..], p);
    }
  }

  // ------------------------------------------------------------- an event that cannot be deleted

  lemma OneAddedInv(h: int -> int, ev: Event)
    requires GoodHash(h) && ev.fd < FD_SETSIZE
    ensures Inv(h, DoAdd(h, Start(), ev))
  {
    StartInv(h);
    DoAddInv(h, Start(), ev);
  }

  /** Two read events on different descriptors. */
  lemma TwoAdded(h: int -> int, a: Event, b: Event)
    requires GoodHash(h) && KindOf(a) == Some(In) && KindOf(b) == Some(In)
    requires 0 <= a.fd < FD_SETSIZE && 0 <= b.fd < FD_SETSIZE && a.fd != b.fd
    ensures var st := DoAdd(h, DoAdd(h, Start(), a), b);
            && Inv(h, st)
            && Lookup(h, st.db.inn.table, a.fd) == Some(a) && Lookup(h, st.db.inn.table, b.fd) == Some(b)
  {
    var st1 := DoAdd(h, Start(), a);
    assert Inv(h, st1) by { OneAddedInv(h, a); }
    assert Lookup(h, st1.db.inn.table, a.fd) == Some(a) && Lookup(h, st1.db.inn.table, b.fd) == None by {
      EmptyDbOk(h);
      AddLookup(h, EmptyDb(), In, a, a.fd);
      AddLookup(h, EmptyDb(), In, a, b.fd);
    }
    DoAddInv(h, st1, b);
    AddLookup(h, st1.db, In, b, a.fd);
    AddLookup(h, st1.db, In, b, b.fd);
  }

  /** A whole run: two read events are registered, select reports only the second, and its callback ends the loop.
      select_dispatch returns 1, the first event is still registered, and select_del does not remove it. */
  lemma DelFailsRun(h: int -> int, a: Event, b: Event, script: Script)
    requires GoodHash(h) && ScriptOk(script) && script(0).exit && KindOf(a) == Some(In) && KindOf(b) == Some(In)
    requires 0 <= a.fd < FD_SETSIZE && 0 <= b.fd < FD_SETSIZE && a.fd != b.fd && b.callback
    ensures var (st, ret) := Loop(h, DoAdd(h, DoAdd(h, Start(), a), b), [Ready({b.fd}, {}, {})], script);
            ret == Some(1) && Lookup(h, st.db.inn.table, a.fd) == Some(a) && !Del(h, st.db, a).1
  {
    var st, o := DoAdd(h, DoAdd(h, Start(), a), b), Ready({b.fd}, {}, {});
    TwoAdded(h, a, b);
    IdleLoop(h, st, o, a, b, script);
  }

  /** The loop over one round in which b is ready, a is not, and the callback of b ends the loop. */
  lemma IdleLoop(h: int -> int, st: St, o: Outcome, a: Event, b: Event, script: Script)
    requires GoodHash(h) && Inv(h, st) && ScriptOk(script) && !st.stop && script(st.calls).exit
    requires KindOf(b) == Some(In) && b.callback && o.Ready? && a.fd !in o.r && b.fd in o.r
    requires Lookup(h, st.db.inn.table, a.fd) == Some(a) && Lookup(h, st.db.inn.table, b.fd) == Some(b)
    ensures var (st', ret) := Loop(h, st, [o], script);
            ret == Some(1) && Lookup(h, st'.db.inn.table, a.fd) == Some(a) && !Del(h, st'.db, a).1
  {
    ReadyEnds(h, st, o, script, b);
    LoopOnce(h, st, o, script);
    IdleEventStuck(h, st, o, script, In, a);
  }

  /** A ready read event whose callback ends the loop. */
  lemma ReadyEnds(h: int -> int, st: St, o: Outcome, script: Script, ev: Event)
    requires GoodHash(h) && Inv(h, st) && ScriptOk(script) && script(st.calls).exit && o.Ready?
    requires KindOf(ev) == Some(In) && ev.callback && ReportedReady(h, st.db, In, o, ev)
    ensures Round(h, st, o, script).stop
  {
    var st1, q := Selected(st, o), Pair(ev.fd, ev);
    var st2 := HandleAll(h, st1, In, script);
    var first := FirstFrom(st1.db.inn.table, 0);
    assert Inv(h, st1) && Marked(h, In, st1, q) by {
      SelectedIs(h, st, o, In, ev.fd);
      SelectedMarks(h, st, o, In, ev);
    }
    assert q in Remaining(st1.db.inn.table, first) by {
      TablesOk(h, st1.db, In);
      HeldPair(h, st1.db.inn.table, q);
      FirstFromPassed(st1.db.inn.table);
    }
    PassCallsReady(h, st1, In, first, script, ev);
    PassStops(h, st1, In, first, script);
    assert st2.stop;
    PassStops(h, st2, Out, FirstFrom(st2.db.out.table, 0), script);
    RoundIs(h, st, o, script);
  }

  lemma LoopOnce(h: int -> int, st: St, o: Outcome, script: Script)
    requires Sized(st.db) && !st.stop && o.Ready? && Round(h, st, o, script).stop
    ensures Loop(h, st, [o], script) == (Round(h, st, o, script), Some(1))
  {
    var st1 := Round(h, st, o, script);
    assert [o][1..] == [];
    assert Loop(h, st1, [], script) == (st1, Some(1));
  }

  /** With the real hash, two persistent read events, and callbacks that only end the loop. */
  lemma DelFailsExample()
    ensures var a, b := Event(1, 5, EV_READ | EV_PERSIST, true, true, false),
                        Event(2, 6, EV_READ | EV_PERSIST, true, true, false);
            var (st, ret) := Loop(HashInt, DoAdd(HashInt, DoAdd(HashInt, Start(), a), b), [Ready({6}, {}, {})],
                                  n => Action([], true));
            ret == Some(1) && Lookup(HashInt, st.db.inn.table, 5) == Some(a) && !Del(HashInt, st.db, a).1
  {
    FdHashGood();
    DelFailsRun(HashInt, Event(1, 5, EV_READ | EV_PERSIST, true, true, false),
                Event(2, 6, EV_READ | EV_PERSIST, true, true, false), n => Action([], true));
  }

  // ------------------------------------------------------------- which neighbour is called

  /** The read event is called in the rest of the pass, after the turn at pos. */
  ghost predicate CalledLater(h: int -> int, st: St, pos: Pos, script: Script, ev: Event)
    requires Sized(st.db) && OnTable(st.db.inn.table, pos) && pos.At?
  {
    var (st1, pos1) := Turn(h, st, In, pos, script);
    Call(ev, In) in Since(st1, Handle(h, st1, In, pos1, script).0)
  }

  lemma LaterNeighbour(h: int -> int, st: St, pos: Pos, script: Script, ev: Event, fd: int)
    requires GoodHash(h) && Inv(h, st) && ScriptOk(script) && OnTable(st.db.inn.table, pos) && pos.At?
    requires st.db.inn.table[pos.b][pos.i].key == fd
    requires KindOf(ev) == Some(In) && ev.callback && Joined(st, Turn(h, st, In, pos, script).0, ev)
    ensures CalledLater(h, st, pos, script, ev) <==> h(ev.fd) > h(fd)
  {
    PairAt(h, st.db, In, pos);
    FreshReadIsCalled(h, st, In, pos, script, ev);
  }

  lemma NeighbourBuckets()
    ensures HashInt(8) < HashInt(3) < HashInt(4)
  {
  }

  /** With the real hash: a read event with a callback that the callback of descriptor 3 adds is called in the same pass
      if it is on descriptor 4, and is not if it is on descriptor 8. */
  lemma NeighbourCalls(st: St, pos: Pos, script: Script, ev: Event)
    requires Inv(HashInt, st) && ScriptOk(script) && OnTable(st.db.inn.table, pos) && pos.At?
    requires st.db.inn.table[pos.b][pos.i].key == 3
    requires KindOf(ev) == Some(In) && ev.callback && Joined(st, Turn(HashInt, st, In, pos, script).0, ev)
    ensures ev.fd == 4 ==> CalledLater(HashInt, st, pos, script, ev)
    ensures ev.fd == 8 ==> !CalledLater(HashInt, st, pos, script, ev)
  {
    assert CalledLater(HashInt, st, pos, script, ev) <==> HashInt(ev.fd) > HashInt(3) by {
      FdHashGood();
      LaterNeighbour(HashInt, st, pos, script, ev, 3);
    }
    NeighbourBuckets();
  }

  // ------------------------------------------------------------- a callback that is called too early

  lemma AddsOne(h: int -> int, st: St, evs: seq<Event>, ev: Event)
    requires Sized(st.db) && evs == [ev] && Takes(h, st.db, ev)
    ensures DoAdds(h, st, evs).accepted == st.accepted + multiset{ev}
  {
    assert evs[1..] == [];
  }

  /** The pair at pos is ready, and its callback registers one event, on a descriptor that is free for it. */
  ghost predicate Registers(h: int -> int, st: St, pos: Pos, script: Script, ev: Event)
    requires Sized(st.db) && OnTable(st.db.inn.table, pos)
  {
    && pos.At? && st.db.inn.table[pos.b][pos.i].key in st.db.inn.fds && st.db.inn.table[pos.b][pos.i].val.callback
    && script(st.calls).adds == [ev] && Takes(h, st.db, ev)
  }

  lemma TurnRegisters(h: int -> int, st: St, pos: Pos, script: Script, ev: Event)
    requires Sized(st.db) && OnTable(st.db.inn.table, pos) && Registers(h, st, pos, script, ev)
    ensures Turn(h, st, In, pos, script).0.accepted == st.accepted + multiset{ev}
  {
    var p := st.db.inn.table[pos.b][pos.i].val;
    AddsOne(h, Called(st, In, p, script(st.calls).exit), script(st.calls).adds, ev);
    FirePrepends(h, st, In, p, script, In);
  }

  lemma PassRegisters(h: int -> int, st: St, script: Script, ev: Event)
    requires GoodHash(h) && Inv(h, st) && ScriptOk(script)
    requires Registers(h, st, FirstFrom(st.db.inn.table, 0), script, ev)
    ensures st.accepted[ev] < HandleAll(h, st, In, script).accepted[ev]
  {
    var first := FirstFrom(st.db.inn.table, 0);
    var (st1, pos1) := Turn(h, st, In, first, script);
    assert st1.accepted[ev] == st.accepted[ev] + 1 by { TurnRegisters(h, st, first, script, ev); }
    PassAccepts(h, st, In, first, script);
  }

  /** What the first turn of a pass accepted stays accepted. */
  lemma PassAccepts(h: int -> int, st: St, k: Kind, pos: Pos, script: Script)
    requires GoodHash(h) && Inv(h, st) && ScriptOk(script) && OnTable(st.db.Sel(k).table, pos) && pos.At?
    ensures Turn(h, st, k, pos, script).0.accepted <= Handle(h, st, k, pos, script).0.accepted
  {
    var (st1, pos1) := Turn(h, st, k, pos, script);
    assert Inv(h, st1) by { TurnInv(h, st, k, pos, script); }
    TurnAdvances(h, st, k, pos, script);
    HandleInv(h, st1, k, pos1, script);
  }

  /** If the first read event of a pass is ready and its callback registers a write event on a free descriptor,
      that event is called in the write pass of the same round, whatever select said about it. */
  lemma CalledTooEarly(h: int -> int, st: St, script: Script, ev: Event)
    requires GoodHash(h) && Inv(h, st) && ScriptOk(script) && KindOf(ev) == Some(Out) && ev.callback
    requires Registers(h, st, FirstFrom(st.db.inn.table, 0), script, ev)
    ensures Call(ev, Out) in HandleAll(h, HandleAll(h, st, In, script), Out, script).log
  {
    PassRegisters(h, st, script, ev);
    FreshWriteIsCalled(h, st, script, ev);
  }

  /** A table with one read event. */
  lemma OneAdded(h: int -> int, ev: Event)
    requires GoodHash(h) && KindOf(ev) == Some(In) && 0 < ev.fd < FD_SETSIZE
    ensures var st := DoAdd(h, Start(), ev);
            && Available(h(ev.fd)) && st.calls == 0
            && st.db.inn.table == EmptyTable()[h(ev.fd) := [Pair(ev.fd, ev)]] && st.db.out.table == EmptyTable()
  {
    EmptyDbOk(h);
    PutFresh(h, In, 0, EmptyTable(), ev);
    assert [Pair(ev.fd, ev)] + [] == [Pair(ev.fd, ev)];
  }

  lemma OnlyReader(h: int -> int, st: St, reader: Event, script: Script, writer: Event)
    requires Sized(st.db) && Available(h(reader.fd)) && st.db.out.table == EmptyTable()
    requires st.db.inn.table == EmptyTable()[h(reader.fd) := [Pair(reader.fd, reader)]]
    requires reader.fd in st.db.inn.fds && reader.callback && script(st.calls).adds == [writer]
    requires KindOf(writer) == Some(Out) && writer.fd >= 0
    ensures Registers(h, st, FirstFrom(st.db.inn.table, 0), script, writer)
  {
    FirstFromIs(st.db.inn.table, 0, h(reader.fd));
    assert Lookup(h, EmptyTable<int, Event>(), writer.fd) == None;
  }

  /** A whole run that shows it, from the start: one read event, whose callback registers one write event; select
      reports the reader ready. The writer is called in that round, whether select reported it or not. */
  lemma CalledTooEarlyRun(h: int -> int, reader: Event, writer: Event, o: Outcome, script: Script)
    requires GoodHash(h) && ScriptOk(script) && script(0).adds == [writer]
    requires KindOf(reader) == Some(In) && reader.callback && 0 < reader.fd < FD_SETSIZE
    requires KindOf(writer) == Some(Out) && writer.callback && 0 <= writer.fd < FD_SETSIZE
    requires o.Ready? && reader.fd in o.r
    ensures Call(writer, Out) in Round(h, DoAdd(h, Start(), reader), o, script).log
  {
    var st1 := Selected(DoAdd(h, Start(), reader), o);
    ReaderSelected(h, reader, o);
    OnlyReader(h, st1, reader, script, writer);
    CalledTooEarly(h, st1, script, writer);
  }

  lemma ReaderSelected(h: int -> int, reader: Event, o: Outcome)
    requires GoodHash(h) && KindOf(reader) == Some(In) && 0 < reader.fd < FD_SETSIZE && o.Ready? && reader.fd in o.r
    ensures var st := Selected(DoAdd(h, Start(), reader), o);
            && Inv(h, st) && Available(h(reader.fd)) && st.calls == 0 && reader.fd in st.db.inn.fds
            && st.db.inn.table == EmptyTable()[h(reader.fd) := [Pair(reader.fd, reader)]]
            && st.db.out.table == EmptyTable()
  {
    var st := DoAdd(h, Start(), reader);
    OneAdded(h, reader);
    assert Inv(h, st) by { OneAddedInv(h, reader); }
    SelectedIs(h, st, o, In, reader.fd);
    assert Lookup(h, st.db.inn.table, reader.fd).Some? by {
      EmptyDbOk(h);
      AddLookup(h, EmptyDb(), In, reader, reader.fd);
    }
  }
}
