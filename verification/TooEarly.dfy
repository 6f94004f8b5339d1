/** Events added by a callback: add_event sets their bit in the very set that the pass reads readiness from,
    so some of them are called in the same round although select never reported them. */
module TooEarly {
  import opened Seqs
  import opened Chains
  import opened Registry
  import opened Dispatch
  import opened History
  import opened Passes
  import opened Callbacks

  /** From st to st' set j only gained: pairs and bits stayed, and each event of its kind that was accepted
      is there now, with its bit set, under a descriptor that was free before. */
  ghost predicate Gained(h: int -> int, j: Kind, st: St, st': St) {
    && (forall q :: Holds(h, st.db.Sel(j).table, q) ==> Holds(h, st'.db.Sel(j).table, q))
    && st.db.Sel(j).fds <= st'.db.Sel(j).fds
    && st.accepted <= st'.accepted
    && forall ev | st.accepted[ev] < st'.accepted[ev] && KindOf(ev) == Some(j) :: Fresh(h, j, st, st', ev)
  }

  ghost predicate Fresh(h: int -> int, j: Kind, st: St, st': St, ev: Event) {
    && Holds(h, st'.db.Sel(j).table, Pair(ev.fd, ev)) && ev.fd in st'.db.Sel(j).fds
    && forall q: Pair<int, Event> | q.key == ev.fd :: !Holds(h, st.db.Sel(j).table, q)
  }

  lemma GainedTrans(h: int -> int, j: Kind, a: St, b: St, c: St)
    requires Gained(h, j, a, b) && Gained(h, j, b, c)
    ensures Gained(h, j, a, c)
  {
  }

  lemma AddGained(h: int -> int, j: Kind, st: St, ev: Event)
    requires GoodHash(h) && DbOk(h, st.db) && ev.fd < FD_SETSIZE
    ensures Gained(h, j, st, DoAdd(h, st, ev))
  {
    forall q: Pair<int, Event>
      ensures Holds(h, st.db.Sel(j).table, q) ==> Holds(h, DoAdd(h, st, ev).db.Sel(j).table, q)
      ensures Takes(h, st.db, ev) && KindOf(ev) == Some(j) && q.key == ev.fd ==> !Holds(h, st.db.Sel(j).table, q)
    {
      AddChanges(h, st.db, j, ev, q);
    }
    AddChanges(h, st.db, j, ev, Pair(ev.fd, ev));
  }

  lemma {:induction false} AddsGained(h: int -> int, j: Kind, st: St, evs: seq<Event>)
    requires GoodHash(h) && Inv(h, st) && FdsInRange(evs)
    ensures Gained(h, j, st, DoAdds(h, st, evs))
    decreases |evs|
  {
    if evs == [] {
      GainedRefl(h, j, st);
    } else {
      var st1 := DoAdd(h, st, evs[0]);
      var st2 := DoAdds(h, st1, evs[1..]);
      assert Inv(h, st1) by { DoAddInv(h, st, evs[0]); }
      assert Gained(h, j, st, st1) by { AddGained(h, j, st, evs[0]); }
      assert Gained(h, j, st1, st2) by { AddsGained(h, j, st1, evs[1..]); }
      assert Gained(h, j, st, st2) by { GainedTrans(h, j, st, st1, st2); }
    }
  }

  lemma FireGained(h: int -> int, j: Kind, st: St, k: Kind, ev: Event, script: Script)
    requires GoodHash(h) && Inv(h, st) && ScriptOk(script) && Held(st.db)[ev] >= 1
    ensures Gained(h, j, st, MayFire(h, st, k, ev, script))
  {
    if Fires(k, ev) {
      var act := script(st.calls);
      var st0 := Called(st, k, ev, act.exit);
      assert Inv(h, st0) by { CallInv(h, st, k, ev, act.exit); }
      var st1 := DoAdds(h, st0, act.adds);
      assert Gained(h, j, st0, st1) by { AddsGained(h, j, st0, act.adds); }
      assert MayFire(h, st, k, ev, script) == st1;
    }
  }

  /** A pass over one set only adds to the others. */
  lemma TurnGained(h: int -> int, j: Kind, st: St, k: Kind, pos: Pos, script: Script)
    requires GoodHash(h) && Inv(h, st) && ScriptOk(script) && OnTable(st.db.Sel(k).table, pos) && pos.At? && j != k
    ensures Gained(h, j, st, Turn(h, st, k, pos, script).0)
  {
    var s := st.db.Sel(k);
    var p: Pair<int, Event> := s.table[pos.b][pos.i];
    if p.key !in s.fds {
      GainedRefl(h, j, st);
    } else {
      assert Held(st.db)[p.val] >= 1 by { AtIsHeld(s.table, pos); }
      var st1 := MayFire(h, st, k, p.val, script);
      assert Gained(h, j, st, st1) by { FireGained(h, j, st, k, p.val, script); }
      var st2 := Turn(h, st, k, pos, script).0;
      assert st2.db.Sel(j) == st1.db.Sel(j) && st2.accepted == st1.accepted by { TurnOthers(h, j, st, k, pos, script); }
      SameSetGained(h, j, st, st1, st2);
    }
  }

  lemma SameSetGained(h: int -> int, j: Kind, st: St, st1: St, st2: St)
    requires Gained(h, j, st, st1) && st2.db.Sel(j) == st1.db.Sel(j) && st2.accepted == st1.accepted
    ensures Gained(h, j, st, st2)
  {
  }

  lemma GainedRefl(h: int -> int, j: Kind, st: St)
    ensures Gained(h, j, st, st)
  {
  }

  lemma {:induction false} PassGained(h: int -> int, j: Kind, st: St, k: Kind, pos: Pos, script: Script)
    requires GoodHash(h) && Inv(h, st) && ScriptOk(script) && OnTable(st.db.Sel(k).table, pos) && j != k
    ensures Gained(h, j, st, Handle(h, st, k, pos, script).0)
    decreases BucketsAhead(st.db.Sel(k).table, pos), NodesAhead(st.db.Sel(k).table, pos)
  {
    if pos.At? {
      var (st1, pos1) := Turn(h, st, k, pos, script);
      var st2 := Handle(h, st1, k, pos1, script).0;
      TurnAdvances(h, st, k, pos, script);
      assert Inv(h, st1) by { TurnInv(h, st, k, pos, script); }
      assert Gained(h, j, st, st1) by { TurnGained(h, j, st, k, pos, script); }
      assert Gained(h, j, st1, st2) by { PassGained(h, j, st1, k, pos1, script); }
      assert Gained(h, j, st, st2) by { GainedTrans(h, j, st, st1, st2); }
      assert Handle(h, st, k, pos, script).0 == st2;
    }
  }

  /** Every write event with a callback that is accepted while the read events are handled is called in the
      same round, whatever select reported about its descriptor. */
  lemma FreshWriteIsCalled(h: int -> int, st: St, script: Script, ev: Event)
    requires GoodHash(h) && Inv(h, st) && ScriptOk(script)
    requires KindOf(ev) == Some(Out) && ev.callback
    requires st.accepted[ev] < HandleAll(h, st, In, script).accepted[ev]
    ensures var st2 := HandleAll(h, st, In, script);
            var st3 := HandleAll(h, st2, Out, script);
            st2.log <= st3.log && Call(ev, Out) in Since(st2, st3)
  {
    var st2 := HandleAll(h, st, In, script);
    var q := Pair(ev.fd, ev);
    var t := st2.db.out.table;
    assert Gained(h, Out, st, st2) by { PassGained(h, Out, st, In, FirstFrom(st.db.inn.table, 0), script); }
    assert Fresh(h, Out, st, st2, ev);
    assert Inv(h, st2) by { HandleAllInv(h, st, In, script); }
    HeldPair(h, t, q);
    FirstFromPassed(t);
    PassCallsReady(h, st2, Out, FirstFrom(t, 0), script, ev);
  }

  // ------------------------------------------------------------- events added to the set that is being walked

  /** What is in the buckets after the one stepped in is ahead. */
  lemma SteppedLater(mid: EvTable, at: Pos, t': EvTable, pos': Pos, q: Pair<int, Event>)
    requires OnTable(mid, at) && at.At? && Stepped(mid, at, t', pos') && OnTable(t', pos')
    requires q in Flatten(t'[at.b + 1..])
    ensures q in Remaining(t', pos')
  {
    assert q in Flatten(mid[at.b + 1..]) by {
      assert t'[at.b + 1..] == mid[at.b + 1..];
    }
    assert Remaining(mid, at) == [mid[at.b][at.i]] + Remaining(t', pos') by {
      RemainingSteps(mid, at);
    }
    MemberOfTail(mid[at.b][at.i], Remaining(t', pos'), mid[at.b][at.i..], Flatten(mid[at.b + 1..]), q);
  }

  /** The pairs that are filed in later buckets after a step are ahead. */
  lemma LaterHeldAhead(h: int -> int, mid: EvTable, at: Pos, t': EvTable, pos': Pos, q: Pair<int, Event>)
    requires OnTable(mid, at) && at.At? && Stepped(mid, at, t', pos') && OnTable(t', pos')
    requires TableOk(h, t') && Holds(h, t', q) && h(q.key) > at.b
    ensures q in Remaining(t', pos')
  {
    InFlatten(h, t', at.b + 1, q);
    SteppedLater(mid, at, t', pos', q);
  }

  lemma MemberOfTail<T>(p: T, r: seq<T>, x: seq<T>, tail: seq<T>, q: T)
    requires x + tail == [p] + r && x != [] && q in tail
    ensures q in r
  {
    var j :| 0 <= j < |tail| && tail[j] == q;
    assert (x + tail)[|x| + j] == q;
    assert ([p] + r)[|x| + j] == r[|x| + j - 1];
  }

  /** An event that a callback in bucket pos.b adds to the set under way is served later in the same pass exactly when
      its own bucket comes after pos.b. */
  lemma FreshIsServed(h: int -> int, st: St, k: Kind, pos: Pos, script: Script, ev: Event)
    requires GoodHash(h) && Inv(h, st) && ScriptOk(script) && OnTable(st.db.Sel(k).table, pos) && pos.At?
    requires KindOf(ev) == Some(k) && Joined(st, Turn(h, st, k, pos, script).0, ev)
    ensures var (st1, pos1) := Turn(h, st, k, pos, script);
            Serves(h, st1, k, pos1, script, ev) == if h(ev.fd) > pos.b then 1 else 0
  {
    var s := st.db.Sel(k);
    var (st1, pos1) := Turn(h, st, k, pos, script);
    var t1 := st1.db.Sel(k).table;
    var q := Pair(ev.fd, ev);
    assert s.table[pos.b][pos.i].key in s.fds;
    assert Fresh(h, k, st, st1, ev) by { FreshAfterTurn(h, st, k, pos, script, ev); }
    assert Inv(h, st1) by { TurnInv(h, st, k, pos, script); }
    assert TableOk(h, t1) by { TablesOk(h, st1.db, k); }
    ServesOnce(h, st1, k, pos1, script, ev);
    if h(ev.fd) > pos.b {
      TurnStepped(h, st, k, pos, script);
      var mid := MidTable(h, st, k, pos, script);
      LaterHeldAhead(h, mid, Shifted(s.table, mid, pos), t1, pos1, q);
      PassServesReady(h, st1, k, pos1, script, ev);
    } else if Serves(h, st1, k, pos1, script, ev) == 1 {
      PassVisitsOnce(h, st1, k, pos1, script);
      assert Ahead(h, t1, pos1, q);
      TurnSuffix(h, st, k, pos, script);
      NotBehind(h, st.db, k, pos, t1, pos1, q);
    }
  }

  /** So, if it has a callback, it is called later in the pass exactly then. */
  lemma FreshReadIsCalled(h: int -> int, st: St, k: Kind, pos: Pos, script: Script, ev: Event)
    requires GoodHash(h) && Inv(h, st) && ScriptOk(script) && OnTable(st.db.Sel(k).table, pos) && pos.At?
    requires KindOf(ev) == Some(k) && Fires(k, ev) && Joined(st, Turn(h, st, k, pos, script).0, ev)
    ensures var (st1, pos1) := Turn(h, st, k, pos, script);
            Call(ev, k) in Since(st1, Handle(h, st1, k, pos1, script).0) <==> h(ev.fd) > pos.b
  {
    var (st1, pos1) := Turn(h, st, k, pos, script);
    assert Inv(h, st1) by { TurnInv(h, st, k, pos, script); }
    FreshIsServed(h, st, k, pos, script, ev);
    PassLog(h, st1, k, pos1, script, ev, k);
    var calls := multiset(Since(st1, Handle(h, st1, k, pos1, script).0));
    assert Call(ev, k) in calls <==> calls[Call(ev, k)] > 0;
  }

  lemma FreshAfterTurn(h: int -> int, st: St, k: Kind, pos: Pos, script: Script, ev: Event)
    requires GoodHash(h) && Inv(h, st) && ScriptOk(script) && OnTable(st.db.Sel(k).table, pos) && pos.At?
    requires KindOf(ev) == Some(k)
    requires st.db.Sel(k).table[pos.b][pos.i].key in st.db.Sel(k).fds
    requires st.accepted[ev] < Turn(h, st, k, pos, script).0.accepted[ev]
    ensures Fresh(h, k, st, Turn(h, st, k, pos, script).0, ev)
  {
    var p: Pair<int, Event> := st.db.Sel(k).table[pos.b][pos.i];
    assert Held(st.db)[p.val] >= 1 by { AtIsHeld(st.db.Sel(k).table, pos); }
    var st1 := MayFire(h, st, k, p.val, script);
    assert Gained(h, k, st, st1) by { FireGained(h, k, st, k, p.val, script); }
    FirePrepends(h, st, k, p.val, script, k);
    assert Holds(h, st.db.Sel(k).table, p) by { PairAt(h, st.db, k, pos); }
    assert Fresh(h, k, st, st1, ev);
    if OneShot(k, p.val) {
      var pos1 := Shifted(st.db.Sel(k).table, st1.db.Sel(k).table, pos);
      DropKeeps(h, st1, k, pos1, Pair(ev.fd, ev));
    }
  }

  lemma DropKeeps(h: int -> int, st: St, k: Kind, pos: Pos, q: Pair<int, Event>)
    requires Sized(st.db) && OnTable(st.db.Sel(k).table, pos) && pos.At?
    requires Holds(h, st.db.Sel(k).table, q) && q.key in st.db.Sel(k).fds
    requires q.key != st.db.Sel(k).table[pos.b][pos.i].key
    ensures Holds(h, Dropped(st, k, pos).db.Sel(k).table, q) && q.key in Dropped(st, k, pos).db.Sel(k).fds
  {
  }

  /** A pair that is ahead after the turn, in a bucket no later than the current one, was there before. */
  lemma NotBehind(h: int -> int, db: Db, k: Kind, pos: Pos, t1: EvTable, pos1: Pos, q: Pair<int, Event>)
    requires DbOk(h, db) && TableOk(h, t1) && OnTable(db.Sel(k).table, pos) && pos.At? && OnTable(t1, pos1)
    requires Ahead(h, t1, pos1, q) && h(q.key) <= pos.b
    requires pos1.At? ==> pos1.b >= pos.b
                          && (pos1.b == pos.b ==> t1[pos.b][pos1.i..] == db.Sel(k).table[pos.b][pos.i + 1..])
    ensures Holds(h, db.Sel(k).table, q)
  {
  }

  // ------------------------------------------------------------- at most once

  /** No event is called twice in one pass. */
  lemma PassCallsOnce(h: int -> int, st: St, k: Kind, pos: Pos, script: Script, ev: Event)
    requires GoodHash(h) && Inv(h, st) && ScriptOk(script) && OnTable(st.db.Sel(k).table, pos)
    ensures multiset(Since(st, Handle(h, st, k, pos, script).0))[Call(ev, k)] <= 1
  {
    ServesOnce(h, st, k, pos, script, ev);
    PassLog(h, st, k, pos, script, ev, k);
  }
}
