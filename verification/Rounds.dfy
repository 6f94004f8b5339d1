/** A whole round of the loop, whatever its callbacks add: who is called, what is left, and what can be deleted
    afterwards. */
module Rounds {
  import opened Seqs
  import opened Chains
  import opened Registry
  import opened Dispatch
  import opened History
  import opened Passes
  import opened Callbacks
  import opened TooEarly

  function ReadyFor(o: Outcome, k: Kind): set<int>
    requires o.Ready?
  {
    match k
    case In => o.r
    case Out => o.w
    case Exp => o.e
  }

  /** The event is registered and select reports it. */
  ghost predicate ReportedReady(h: int -> int, db: Db, k: Kind, o: Outcome, ev: Event)
    requires |db.Sel(k).table| == BUCKETS && o.Ready?
  {
    Lookup(h, db.Sel(k).table, ev.fd) == Some(ev) && ev.fd in ReadyFor(o, k)
  }

  /** Registered events are the pairs a walk meets. */
  lemma RegisteredIs(h: int -> int, db: Db, k: Kind, ev: Event)
    requires DbOk(h, db)
    ensures Lookup(h, db.Sel(k).table, ev.fd) == Some(ev) <==> Pair(ev.fd, ev) in Flatten(db.Sel(k).table)
    ensures Lookup(h, db.Sel(k).table, ev.fd) == Some(ev) ==> KindOf(ev) == Some(k) && ev.fd in KeysOf(db.Sel(k).table)
  {
    TablesOk(h, db, k);
    var t := db.Sel(k).table;
    Callbacks.HeldPair(h, t, Pair(ev.fd, ev));
    KeysAreRegistered(h, t, ev.fd);
    if Lookup(h, t, ev.fd) == Some(ev) {
      assert PairOk(k, db.maxfd, t[h(ev.fd)][KeyIndex(t[h(ev.fd)], ev.fd)]);
    }
  }

  /** What select leaves of a set: the registered descriptors that it reports. */
  lemma SelectedIs(h: int -> int, st: St, o: Outcome, k: Kind, fd: int)
    requires Inv(h, st) && o.Ready?
    ensures Inv(h, Selected(st, o)) && Selected(st, o).db.Sel(k).table == st.db.Sel(k).table
    ensures fd in Selected(st, o).db.Sel(k).fds <==> Lookup(h, st.db.Sel(k).table, fd).Some? && fd in ReadyFor(o, k)
  {
    AfterSelectOk(h, st.db, o);
    WatchesRegistered(h, st.db, k);
    TablesOk(h, st.db, k);
    KeysAreRegistered(h, st.db.Sel(k).table, fd);
  }

  lemma NoExceptions(h: int -> int, st: St, script: Script)
    requires DbOk(h, st.db)
    ensures HandleAll(h, st, Exp, script) == st
  {
    EmptyHandleAll(h, st, Exp, script);
  }

  /** The read pass, the write pass, and nothing else: the exception set is empty. */
  lemma RoundIs(h: int -> int, st: St, o: Outcome, script: Script)
    requires GoodHash(h) && Inv(h, st) && ScriptOk(script) && o.Ready?
    ensures var st1 := Selected(st, o);
            var st2 := HandleAll(h, st1, In, script);
            Inv(h, st1) && Inv(h, st2) && Round(h, st, o, script) == HandleAll(h, st2, Out, script)
  {
    var st1 := Selected(st, o);
    assert Inv(h, st1) by { SelectedIs(h, st, o, In, 0); }
    var st2 := HandleAll(h, st1, In, script);
    assert Inv(h, st2) by { HandleAllInv(h, st1, In, script); }
    var st3 := HandleAll(h, st2, Out, script);
    assert DbOk(h, st3.db) by { HandleAllInv(h, st2, Out, script); }
    assert HandleAll(h, st3, Exp, script) == st3 by { NoExceptions(h, st3, script); }
  }

  lemma HandleAllTracked(h: int -> int, j: Kind, st: St, k: Kind, script: Script)
    requires GoodHash(h) && Inv(h, st) && ScriptOk(script)
    ensures Tracked(h, j, st, HandleAll(h, st, k, script))
  {
    PassTracked(h, j, st, k, FirstFrom(st.db.Sel(k).table, 0), script);
  }

  /** From what select left to the end of the round. */
  lemma RoundTracked(h: int -> int, st: St, o: Outcome, script: Script, k: Kind)
    requires GoodHash(h) && Inv(h, st) && ScriptOk(script) && o.Ready?
    ensures Tracked(h, k, Selected(st, o), Round(h, st, o, script))
  {
    var st1 := Selected(st, o);
    var st2 := HandleAll(h, st1, In, script);
    RoundIs(h, st, o, script);
    assert Tracked(h, k, st1, st2) by { HandleAllTracked(h, k, st1, In, script); }
    assert Tracked(h, k, st2, Round(h, st, o, script)) by { HandleAllTracked(h, k, st2, Out, script); }
    TrackedTrans(h, k, st1, st2, Round(h, st, o, script));
  }

  // ------------------------------------------------------------- deleting after a round

  /** The bit of a registered descriptor after a round: set exactly if its event was registered and reported ready
      before, or joined in the round. */
  lemma BitAfterRound(h: int -> int, st: St, o: Outcome, script: Script, k: Kind, ev: Event, st': St)
    requires GoodHash(h) && Inv(h, st) && ScriptOk(script) && o.Ready? && st' == Round(h, st, o, script)
    requires |st'.db.Sel(k).table| == BUCKETS && Lookup(h, st'.db.Sel(k).table, ev.fd) == Some(ev)
    ensures ev.fd in st'.db.Sel(k).fds <==> ReportedReady(h, st.db, k, o, ev) || Joined(st, st', ev)
  {
    var st1 := Selected(st, o);
    assert Tracked(h, k, st1, st') by { RoundTracked(h, st, o, script, k); }
    assert DbOk(h, st'.db) by { RoundInv(h, st, o, script); }
    BitSince(h, k, st1, st', ev);
    SelectedMarks(h, st, o, k, ev);
  }

  /** The bit of a registered descriptor, in terms of an earlier state. */
  lemma BitSince(h: int -> int, k: Kind, base: St, st: St, ev: Event)
    requires Tracked(h, k, base, st) && DbOk(h, st.db) && Lookup(h, st.db.Sel(k).table, ev.fd) == Some(ev)
    ensures ev.fd in st.db.Sel(k).fds <==> Marked(h, k, base, Pair(ev.fd, ev)) || Joined(base, st, ev)
  {
    TablesOk(h, st.db, k);
    HeldPair(h, st.db.Sel(k).table, Pair(ev.fd, ev));
    assert TrackedPair(h, k, base, st, Pair(ev.fd, ev));
  }

  lemma SelectedMarks(h: int -> int, st: St, o: Outcome, k: Kind, ev: Event)
    requires Inv(h, st) && o.Ready?
    ensures Marked(h, k, Selected(st, o), Pair(ev.fd, ev)) <==> ReportedReady(h, st.db, k, o, ev)
  {
    SelectedIs(h, st, o, k, ev.fd);
    TablesOk(h, st.db, k);
    HeldPair(h, st.db.Sel(k).table, Pair(ev.fd, ev));
  }

  /** When select_del works after a round, for every callback behaviour and every outcome of select. After a positive
      select: the descriptor is registered in the set that the type names, and its event was either registered and
      reported ready in this round or accepted during it. After a failed select, whose sets stay as they were
      built: it is registered. After a timeout, which clears the sets: never. */
  lemma DelAfterRound(h: int -> int, st: St, o: Outcome, script: Script, ev: Event, k: Kind)
    requires GoodHash(h) && Inv(h, st) && ScriptOk(script) && KindOf(ev) == Some(k)
    ensures var st' := Round(h, st, o, script);
            var found := Lookup(h, st'.db.Sel(k).table, ev.fd);
            Del(h, st'.db, ev).1 <==>
              match o
              case Ready(_, _, _) =>
                found.Some? && (ReportedReady(h, st.db, k, o, found.value) || Joined(st, st', found.value))
              case Timeout => false
              case Error => found.Some?
  {
    var st' := Round(h, st, o, script);
    assert Inv(h, st') by { RoundInv(h, st, o, script); }
    DelTakes(h, st'.db, ev);
    RegisteredFd(h, st'.db, k, ev.fd);
    match o
    case Ready(_, _, _) =>
      var found := Lookup(h, st'.db.Sel(k).table, ev.fd);
      if found.Some? {
        BitAfterRound(h, st, o, script, k, found.value, st');
      }
    case Timeout =>
    case Error =>
      WatchesRegistered(h, st.db, k);
      TablesOk(h, st.db, k);
      KeysAreRegistered(h, st.db.Sel(k).table, ev.fd);
  }

  /** A registered descriptor is not negative and carries an event of its own; a bit is only set for a registered
      one. */
  lemma RegisteredFd(h: int -> int, db: Db, k: Kind, fd: int)
    requires DbOk(h, db)
    ensures var found := Lookup(h, db.Sel(k).table, fd);
            && (found.Some? ==> fd >= 0 && found.value.fd == fd && KindOf(found.value) == Some(k))
            && (fd in db.Sel(k).fds ==> found.Some?)
  {
    var t := db.Sel(k).table;
    TablesOk(h, db, k);
    if Lookup(h, t, fd).Some? {
      var i := KeyIndex(t[h(fd)], fd);
      assert PairOk(k, db.maxfd, t[h(fd)][i]);
    }
  }

  // ------------------------------------------------------------- events that select did not report

  /** A turn leaves a registered pair alone whose bit is not set, and does not set its bit. */
  lemma TurnKeepsIdle(h: int -> int, j: Kind, st: St, k: Kind, pos: Pos, script: Script, q: Pair<int, Event>)
    requires GoodHash(h) && Inv(h, st) && ScriptOk(script) && OnTable(st.db.Sel(k).table, pos) && pos.At?
    requires Holds(h, st.db.Sel(j).table, q) && q.key !in st.db.Sel(j).fds
    ensures var st1 := Turn(h, st, k, pos, script).0;
            Holds(h, st1.db.Sel(j).table, q) && q.key !in st1.db.Sel(j).fds
  {
    var p: Pair<int, Event> := st.db.Sel(k).table[pos.b][pos.i];
    if p.key in st.db.Sel(k).fds {
      var st0, st1 := MayFire(h, st, k, p.val, script), Turn(h, st, k, pos, script).0;
      assert Held(st.db)[p.val] >= 1 by { AtIsHeld(st.db.Sel(k).table, pos); }
      assert Gained(h, j, st, st0) by { FireGained(h, j, st, k, p.val, script); }
      HoldsOk(h, st.db, j, q);
      TurnLeaves(h, st, j, k, pos, script, q);
      assert TrackedPair(h, j, st, st1, q) by { TurnTracksAll(h, j, st, k, pos, script); }
      assert !Joined(st, st1, q.val) by {
        assert Joined(st, st0, q.val) ==> Fresh(h, j, st, st0, q.val);
      }
    }
  }

  /** After the callback a turn takes out no pair but its own. */
  lemma TurnLeaves(h: int -> int, st: St, j: Kind, k: Kind, pos: Pos, script: Script, q: Pair<int, Event>)
    requires Sized(st.db) && OnTable(st.db.Sel(k).table, pos) && pos.At?
    requires var p := st.db.Sel(k).table[pos.b][pos.i];
             && p.key in st.db.Sel(k).fds && (j == k ==> q.key != p.key)
             && Holds(h, MayFire(h, st, k, p.val, script).db.Sel(j).table, q)
    ensures var p := st.db.Sel(k).table[pos.b][pos.i];
            var st1 := Turn(h, st, k, pos, script).0;
            Holds(h, st1.db.Sel(j).table, q) && st1.accepted == MayFire(h, st, k, p.val, script).accepted
  {
    var t := st.db.Sel(k).table;
    var p: Pair<int, Event> := t[pos.b][pos.i];
    var st0 := MayFire(h, st, k, p.val, script);
    FirePrepends(h, st, k, p.val, script, k);
    if j != k {
      TurnOthers(h, j, st, k, pos, script);
    } else if OneShot(k, p.val) {
      DropLeaves(h, st0, k, Shifted(t, st0.db.Sel(k).table, pos), q);
    }
  }

  lemma DropLeaves(h: int -> int, st: St, k: Kind, pos: Pos, q: Pair<int, Event>)
    requires Sized(st.db) && OnTable(st.db.Sel(k).table, pos) && pos.At?
    requires Holds(h, st.db.Sel(k).table, q) && q.key != st.db.Sel(k).table[pos.b][pos.i].key
    ensures Holds(h, Dropped(st, k, pos).db.Sel(k).table, q)
  {
    var t, t' := st.db.Sel(k).table, Dropped(st, k, pos).db.Sel(k).table;
    var b := h(q.key);
    var i :| 0 <= i < |t[b]| && t[b][i] == q;
    assert t'[b][if b == pos.b && i > pos.i then i - 1 else i] == q;
  }

  lemma {:induction false} PassKeepsIdle(h: int -> int, j: Kind, st: St, k: Kind, pos: Pos, script: Script,
                                         q: Pair<int, Event>)
    requires GoodHash(h) && Inv(h, st) && ScriptOk(script) && OnTable(st.db.Sel(k).table, pos)
    requires Holds(h, st.db.Sel(j).table, q) && q.key !in st.db.Sel(j).fds
    ensures var st' := Handle(h, st, k, pos, script).0;
            Holds(h, st'.db.Sel(j).table, q) && q.key !in st'.db.Sel(j).fds
    decreases BucketsAhead(st.db.Sel(k).table, pos), NodesAhead(st.db.Sel(k).table, pos)
  {
    if pos.At? {
      var (st1, pos1) := Turn(h, st, k, pos, script);
      TurnAdvances(h, st, k, pos, script);
      assert Inv(h, st1) by { TurnInv(h, st, k, pos, script); }
      TurnKeepsIdle(h, j, st, k, pos, script, q);
      PassKeepsIdle(h, j, st1, k, pos1, script, q);
    }
  }

  /** A registered event that select did not report survives the round, whatever callbacks add, and select_del does
      not remove it. */
  lemma IdleEventStuck(h: int -> int, st: St, o: Outcome, script: Script, k: Kind, ev: Event)
    requires GoodHash(h) && Inv(h, st) && ScriptOk(script) && o.Ready?
    requires Lookup(h, st.db.Sel(k).table, ev.fd) == Some(ev) && ev.fd !in ReadyFor(o, k)
    ensures var st' := Round(h, st, o, script);
            Lookup(h, st'.db.Sel(k).table, ev.fd) == Some(ev) && !Del(h, st'.db, ev).1
  {
    var q := Pair(ev.fd, ev);
    var st1, st' := Selected(st, o), Round(h, st, o, script);
    var st2 := HandleAll(h, st1, In, script);
    TablesOk(h, st.db, k);
    HeldPair(h, st.db.Sel(k).table, q);
    SelectedIs(h, st, o, k, ev.fd);
    RoundIs(h, st, o, script);
    PassKeepsIdle(h, k, st1, In, FirstFrom(st1.db.inn.table, 0), script, q);
    PassKeepsIdle(h, k, st2, Out, FirstFrom(st2.db.out.table, 0), script, q);
    assert Inv(h, st') by { RoundInv(h, st, o, script); }
    TablesOk(h, st'.db, k);
    HeldPair(h, st'.db.Sel(k).table, q);
    DelTakes(h, st'.db, ev);
    RegisteredFd(h, st'.db, k, ev.fd);
  }

  // ------------------------------------------------------------- ending the loop

  /** A turn without callback logs none. */
  lemma TurnSilent(h: int -> int, st: St, k: Kind, pos: Pos, script: Script)
    requires Sized(st.db) && OnTable(st.db.Sel(k).table, pos) && pos.At?
    requires var s := st.db.Sel(k); var p := s.table[pos.b][pos.i]; !(p.key in s.fds && Fires(k, p.val))
    ensures forall c | c in TurnEntries(h, st, k, pos, script) :: !c.Call?
  {
    forall c | c in TurnEntries(h, st, k, pos, script)
      ensures !c.Call?
    {
      if c.Call? {
        TurnCalls(h, st, k, pos, script, c);
      }
    }
  }

  /** No callback was made between the two states. */
  ghost predicate NoCalls(st: St, st': St)
    requires st.log <= st'.log
  {
    st'.calls == st.calls && forall c | c in Since(st, st') :: !c.Call?
  }

  lemma NoCallsTrans(a: St, b: St, c: St)
    requires a.log <= b.log <= c.log && NoCalls(a, b) && NoCalls(b, c)
    ensures a.log <= c.log && NoCalls(a, c)
  {
    assert Since(a, c) == Since(a, b) + Since(b, c);
  }

  /** If the next callback ends the loop, a pass makes no callback or the loop is told to end. */
  lemma {:induction false} PassStops(h: int -> int, st: St, k: Kind, pos: Pos, script: Script)
    requires Sized(st.db) && OnTable(st.db.Sel(k).table, pos)
    ensures var st' := Handle(h, st, k, pos, script).0;
            (st.stop ==> st'.stop) && (script(st.calls).exit ==> st'.stop || NoCalls(st, st'))
    decreases BucketsAhead(st.db.Sel(k).table, pos), NodesAhead(st.db.Sel(k).table, pos)
  {
    if pos.At? {
      var (st1, pos1) := Turn(h, st, k, pos, script);
      var st2 := Handle(h, st1, k, pos1, script).0;
      TurnAdvances(h, st, k, pos, script);
      TurnCounts(h, st, k, pos, script);
      PassStops(h, st1, k, pos1, script);
      if st1.calls == st.calls {
        TurnSilent(h, st, k, pos, script);
        assert Since(st, st1) == TurnEntries(h, st, k, pos, script);
      }
      if st1.calls == st.calls && NoCalls(st1, st2) {
        NoCallsTrans(st, st1, st2);
      }
      assert Handle(h, st, k, pos, script).0 == st2;
    }
  }

  /** The same for a round. */
  lemma RoundStops(h: int -> int, st: St, o: Outcome, script: Script)
    requires GoodHash(h) && Inv(h, st) && ScriptOk(script) && o.Ready? && script(st.calls).exit
    ensures var st' := Round(h, st, o, script); st.log <= st'.log && (st'.stop || NoCalls(st, st'))
  {
    var st1 := Selected(st, o);
    var st2 := HandleAll(h, st1, In, script);
    RoundIs(h, st, o, script);
    PassStops(h, st1, In, FirstFrom(st1.db.inn.table, 0), script);
    PassStops(h, st2, Out, FirstFrom(st2.db.out.table, 0), script);
    if NoCalls(st1, st2) && NoCalls(st2, Round(h, st, o, script)) {
      NoCallsTrans(st1, st2, Round(h, st, o, script));
    }
  }

  // ------------------------------------------------------------- after the loop returned

  /** When select_dispatch has returned after at least one round, the state is that of its last round: a failed select
      if it returns 0, a positive one if it returns 1, for only callbacks end the loop. */
  lemma {:induction false} LastRound(h: int -> int, st: St, outcomes: seq<Outcome>, script: Script)
    returns (last: St, o: Outcome)
    requires GoodHash(h) && Inv(h, st) && ScriptOk(script) && !st.stop && Loop(h, st, outcomes, script).1.Some?
    ensures Inv(h, last) && st.accepted <= last.accepted
    ensures var (st', ret) := Loop(h, st, outcomes, script);
            st' == Round(h, last, o, script) && (ret == Some(0) ==> o.Error?) && (ret == Some(1) ==> o.Ready?)
    decreases |outcomes|
  {
    var st1 := Round(h, st, outcomes[0], script);
    if outcomes[0].Error? || (st1.stop && outcomes[0].Ready?) {
      last, o := st, outcomes[0];
    } else {
      assert Inv(h, st1) && st.accepted <= st1.accepted by { RoundInv(h, st, outcomes[0], script); }
      last, o := LastRound(h, st1, outcomes[1..], script);
    }
  }

  /** When select_del works once select_dispatch has returned. After a failed select: on every registered descriptor.
      After a callback ended the loop: on a registered descriptor whose event was reported ready in the last round,
      or accepted in it. */
  lemma DelAfterLoop(h: int -> int, st: St, outcomes: seq<Outcome>, script: Script, ev: Event, k: Kind)
    returns (last: St, o: Outcome)
    requires GoodHash(h) && Inv(h, st) && ScriptOk(script) && KindOf(ev) == Some(k)
    requires !st.stop && Loop(h, st, outcomes, script).1.Some?
    ensures var (st', ret) := Loop(h, st, outcomes, script);
            var found := Lookup(h, st'.db.Sel(k).table, ev.fd);
            && Inv(h, last) && st' == Round(h, last, o, script)
            && ((ret == Some(0) && o.Error?) || (ret == Some(1) && o.Ready?))
            && Del(h, st'.db, ev).1 ==
                 (found.Some? && (o.Ready? ==>
                   ReportedReady(h, last.db, k, o, found.value) || Joined(last, st', found.value)))
  {
    last, o := LastRound(h, st, outcomes, script);
    LoopReturns(h, st, outcomes, script);
    DelAfterRound(h, last, o, script, ev, k);
  }
}
