/** Exactly which events a pass and a round serve, call and free, and which are registered afterwards, whatever the
    callbacks add. */
module Calls {
  import opened Seqs
  import opened Chains
  import opened Registry
  import opened Dispatch
  import opened History
  import opened Passes
  import opened Callbacks
  import opened TooEarly
  import opened Rounds
  import HashRuns

  /** What a walk has ahead of it: the registered pairs in the rest of the chain and in later buckets. */
  lemma RemainingIs(h: int -> int, t: EvTable, pos: Pos, q: Pair<int, Event>)
    requires TableOk(h, t) && OnTable(t, pos)
    ensures q in Remaining(t, pos) <==> Holds(h, t, q) && Ahead(h, t, pos, q)
  {
    if pos.At? {
      var c := t[pos.b];
      assert ChainOk(h, pos.b, c);
      InFlatten(h, t, pos.b + 1, q);
      assert q in c[pos.i..] ==> q in c;
      assert q in Remaining(t, pos) <==> q in c[pos.i..] || q in Flatten(t[pos.b + 1..]);
    }
  }

  /** A registered pair that is ahead after a turn was ahead before it. */
  lemma AheadBefore(h: int -> int, st: St, k: Kind, pos: Pos, script: Script, q: Pair<int, Event>)
    requires GoodHash(h) && Inv(h, st) && ScriptOk(script) && OnTable(st.db.Sel(k).table, pos) && pos.At?
    requires Holds(h, st.db.Sel(k).table, q)
    requires var (st1, pos1) := Turn(h, st, k, pos, script); q in Remaining(st1.db.Sel(k).table, pos1)
    ensures q in Remaining(st.db.Sel(k).table, pos)
  {
    var (st1, pos1) := Turn(h, st, k, pos, script);
    var t, t1 := st.db.Sel(k).table, st1.db.Sel(k).table;
    assert Inv(h, st1) by { TurnInv(h, st, k, pos, script); }
    TablesOk(h, st.db, k);
    TablesOk(h, st1.db, k);
    RemainingIs(h, t1, pos1, q);
    TurnSuffix(h, st, k, pos, script);
    AheadStep(h, t, pos, t1, pos1, q);
    FirstIsNew(h, t, pos, q);
    RemainingIs(h, t, pos, q);
  }

  /** A callback that the walk reaches from pos accepts the event, and the event's own bucket comes later. */
  ghost predicate JoinsAhead(h: int -> int, st: St, k: Kind, pos: Pos, script: Script, ev: Event)
    requires Sized(st.db) && OnTable(st.db.Sel(k).table, pos)
    decreases BucketsAhead(st.db.Sel(k).table, pos), NodesAhead(st.db.Sel(k).table, pos)
  {
    pos.At? &&
    (TurnAdvances(h, st, k, pos, script);
     var (st1, pos1) := Turn(h, st, k, pos, script);
     (Joined(st, st1, ev) && h(ev.fd) > pos.b) || JoinsAhead(h, st1, k, pos1, script, ev))
  }

  /** The event is registered, ahead of the walk, and its bit is set. */
  ghost predicate ReadyAhead(h: int -> int, k: Kind, st: St, pos: Pos, ev: Event)
    requires OnTable(st.db.Sel(k).table, pos)
  {
    Pair(ev.fd, ev) in Remaining(st.db.Sel(k).table, pos) && Marked(h, k, st, Pair(ev.fd, ev))
  }

  /** What is to be served after a turn was to be served before it, or joined in the turn. */
  lemma TurnReadies(h: int -> int, st: St, k: Kind, pos: Pos, script: Script, ev: Event)
    requires GoodHash(h) && Inv(h, st) && ScriptOk(script) && OnTable(st.db.Sel(k).table, pos) && pos.At?
    requires KindOf(ev) == Some(k)
    requires var (st1, pos1) := Turn(h, st, k, pos, script); ReadyAhead(h, k, st1, pos1, ev)
    ensures ReadyAhead(h, k, st, pos, ev) || JoinsAhead(h, st, k, pos, script, ev)
  {
    var (st1, pos1) := Turn(h, st, k, pos, script);
    var q := Pair(ev.fd, ev);
    assert TrackedPair(h, k, st, st1, q) by { TurnTracked(h, st, k, pos, script); }
    if Marked(h, k, st, q) {
      AheadBefore(h, st, k, pos, script, q);
    } else {
      assert Inv(h, st1) by { TurnInv(h, st, k, pos, script); }
      PassServesReady(h, st1, k, pos1, script, ev);
      FreshIsServed(h, st, k, pos, script, ev);
    }
  }

  /** The event that a turn serves is registered there, with its bit set. */
  lemma ServedIsReady(h: int -> int, st: St, k: Kind, pos: Pos, ev: Event)
    requires DbOk(h, st.db) && OnTable(st.db.Sel(k).table, pos) && pos.At? && ServedNow(st, k, pos, ev)
    ensures ReadyAhead(h, k, st, pos, ev) && KindOf(ev) == Some(k)
  {
    PairAt(h, st.db, k, pos);
    HoldsOk(h, st.db, k, Pair(ev.fd, ev));
    RemainingSteps(st.db.Sel(k).table, pos);
  }

  /** The event is to be served by a pass from pos on. */
  ghost predicate Due(h: int -> int, st: St, k: Kind, pos: Pos, script: Script, ev: Event)
    requires Sized(st.db) && OnTable(st.db.Sel(k).table, pos)
  {
    KindOf(ev) == Some(k) && (ReadyAhead(h, k, st, pos, ev) || JoinsAhead(h, st, k, pos, script, ev))
  }

  /** A pass serves exactly the events that were ahead of it with their bit set, and those that a callback on its way
      adds to a later bucket; each once. */
  lemma {:induction false} ServesExactly(h: int -> int, st: St, k: Kind, pos: Pos, script: Script, ev: Event)
    requires GoodHash(h) && Inv(h, st) && ScriptOk(script) && OnTable(st.db.Sel(k).table, pos)
    ensures Serves(h, st, k, pos, script, ev) == if Due(h, st, k, pos, script, ev) then 1 else 0
    decreases BucketsAhead(st.db.Sel(k).table, pos), NodesAhead(st.db.Sel(k).table, pos)
  {
    ServesOnce(h, st, k, pos, script, ev);
    if pos.At? {
      var (st1, pos1) := Turn(h, st, k, pos, script);
      TurnAdvances(h, st, k, pos, script);
      assert Inv(h, st1) by { TurnInv(h, st, k, pos, script); }
      ServesExactly(h, st1, k, pos1, script, ev);
      if ServedNow(st, k, pos, ev) {
        ServedIsReady(h, st, k, pos, ev);
      } else {
        DueNext(h, st, k, pos, script, ev);
      }
    }
  }

  /** An event that a turn does not serve is due before it exactly if it is due after it. */
  lemma DueNext(h: int -> int, st: St, k: Kind, pos: Pos, script: Script, ev: Event)
    requires GoodHash(h) && Inv(h, st) && ScriptOk(script) && OnTable(st.db.Sel(k).table, pos) && pos.At?
    requires !ServedNow(st, k, pos, ev)
    requires var (st1, pos1) := Turn(h, st, k, pos, script);
             Serves(h, st1, k, pos1, script, ev) == if Due(h, st1, k, pos1, script, ev) then 1 else 0
    ensures var (st1, pos1) := Turn(h, st, k, pos, script);
            Due(h, st, k, pos, script, ev) <==> Due(h, st1, k, pos1, script, ev)
  {
    if KindOf(ev) == Some(k) {
      var (st1, pos1) := Turn(h, st, k, pos, script);
      TurnAdvances(h, st, k, pos, script);
      if ReadyAhead(h, k, st1, pos1, ev) {
        TurnReadies(h, st, k, pos, script, ev);
      }
      if ReadyAhead(h, k, st, pos, ev) {
        PassServesReady(h, st, k, pos, script, ev);
      }
      if Joined(st, st1, ev) && h(ev.fd) > pos.b {
        FreshIsServed(h, st, k, pos, script, ev);
      }
    }
  }

  /** So a pass calls exactly those of them that have a callback. */
  lemma PassCallsExactly(h: int -> int, st: St, k: Kind, pos: Pos, script: Script, ev: Event)
    requires GoodHash(h) && Inv(h, st) && ScriptOk(script) && OnTable(st.db.Sel(k).table, pos)
    requires KindOf(ev) == Some(k) && Fires(k, ev)
    ensures var st' := Handle(h, st, k, pos, script).0;
            st.log <= st'.log &&
            (Call(ev, k) in Since(st, st') <==> ReadyAhead(h, k, st, pos, ev) || JoinsAhead(h, st, k, pos, script, ev))
  {
    ServesExactly(h, st, k, pos, script, ev);
    PassLog(h, st, k, pos, script, ev, k);
    var calls := multiset(Since(st, Handle(h, st, k, pos, script).0));
    assert Call(ev, k) in calls <==> calls[Call(ev, k)] > 0;
  }

  // ------------------------------------------------------------- a round

  /** From the head of the table, all that counts is the bit. */
  lemma DueFromHead(h: int -> int, st: St, k: Kind, script: Script, ev: Event)
    requires Inv(h, st)
    ensures var first := FirstFrom(st.db.Sel(k).table, 0);
            Due(h, st, k, first, script, ev) <==>
            KindOf(ev) == Some(k) && (Marked(h, k, st, Pair(ev.fd, ev)) || JoinsAhead(h, st, k, first, script, ev))
  {
    var t := st.db.Sel(k).table;
    FirstFromPassed(t);
    TablesOk(h, st.db, k);
    HeldPair(h, t, Pair(ev.fd, ev));
  }

  /** The event is to be served in a round: it is registered and reported ready, or a callback of the round adds it in
      time. In time means, for a read event: by the callback of a read event in an earlier bucket. For a write
      event: by the callback of any read event, or of a write event in an earlier bucket. */
  ghost predicate DueInRound(h: int -> int, st: St, o: Outcome, script: Script, ev: Event)
    requires Sized(st.db) && o.Ready?
  {
    var st1 := Selected(st, o);
    var st2 := HandleAll(h, st1, In, script);
    match KindOf(ev)
    case Some(In) => ReportedReady(h, st.db, In, o, ev)
                     || JoinsAhead(h, st1, In, FirstFrom(st1.db.inn.table, 0), script, ev)
    case Some(Out) => ReportedReady(h, st.db, Out, o, ev) || Joined(st, st2, ev)
                      || JoinsAhead(h, st2, Out, FirstFrom(st2.db.out.table, 0), script, ev)
    case _ => false
  }

  /** Which write events have their bit set when the write pass begins. */
  lemma WriteMarks(h: int -> int, st: St, o: Outcome, script: Script, ev: Event)
    requires GoodHash(h) && Inv(h, st) && ScriptOk(script) && o.Ready? && KindOf(ev) == Some(Out)
    ensures var st2 := HandleAll(h, Selected(st, o), In, script);
            Marked(h, Out, st2, Pair(ev.fd, ev)) <==> ReportedReady(h, st.db, Out, o, ev) || Joined(st, st2, ev)
  {
    var st1 := Selected(st, o);
    var st2 := HandleAll(h, st1, In, script);
    var q := Pair(ev.fd, ev);
    SelectedIs(h, st, o, Out, ev.fd);
    SelectedMarks(h, st, o, Out, ev);
    assert Gained(h, Out, st1, st2) by { PassGained(h, Out, st1, In, FirstFrom(st1.db.inn.table, 0), script); }
    assert Joined(st1, st2, ev) ==> Fresh(h, Out, st1, st2, ev);
    assert Holds(h, st2.db.out.table, q) ==> TrackedPair(h, Out, st1, st2, q) by {
      HandleAllTracked(h, Out, st1, In, script);
    }
  }

  /** How often the read and the write pass of a round serve the event. */
  ghost function RoundServes(h: int -> int, st: St, o: Outcome, script: Script, k: Kind, ev: Event): nat
    requires Sized(st.db) && o.Ready?
  {
    var st1 := Selected(st, o);
    var st2 := HandleAll(h, st1, In, script);
    match k
    case In => Serves(h, st1, In, FirstFrom(st1.db.inn.table, 0), script, ev)
    case Out => Serves(h, st2, Out, FirstFrom(st2.db.out.table, 0), script, ev)
    case Exp => 0
  }

  lemma RoundServesIs(h: int -> int, st: St, o: Outcome, script: Script, k: Kind, ev: Event)
    requires GoodHash(h) && Inv(h, st) && ScriptOk(script) && o.Ready?
    ensures RoundServes(h, st, o, script, k, ev) ==
            if KindOf(ev) == Some(k) && DueInRound(h, st, o, script, ev) then 1 else 0
  {
    var st1 := Selected(st, o);
    var st2 := HandleAll(h, st1, In, script);
    RoundIs(h, st, o, script);
    match k
    case In =>
      ServesExactly(h, st1, In, FirstFrom(st1.db.inn.table, 0), script, ev);
      DueFromHead(h, st1, In, script, ev);
      SelectedMarks(h, st, o, In, ev);
    case Out =>
      ServesExactly(h, st2, Out, FirstFrom(st2.db.out.table, 0), script, ev);
      DueFromHead(h, st2, Out, script, ev);
      if KindOf(ev) == Some(Out) {
        WriteMarks(h, st, o, script, ev);
      }
    case Exp =>
  }

  lemma SinceSum(a: St, b: St, c: St, e: Entry)
    requires a.log <= b.log <= c.log
    ensures multiset(Since(a, c))[e] == multiset(Since(a, b))[e] + multiset(Since(b, c))[e]
  {
    assert Since(a, c) == Since(a, b) + Since(b, c);
    CountSum(Since(a, b), Since(b, c), e);
  }

  /** The log of a round, in terms of what its two passes serve. */
  lemma RoundLog(h: int -> int, st: St, o: Outcome, script: Script, ev: Event, kind: Kind)
    requires GoodHash(h) && Inv(h, st) && ScriptOk(script) && o.Ready?
    ensures var since := Since(st, Round(h, st, o, script));
            var r, w := RoundServes(h, st, o, script, In, ev), RoundServes(h, st, o, script, Out, ev);
            && multiset(since)[Call(ev, kind)]
               == (if kind == In && ev.callback then r else 0) + (if kind == Out && ev.callback then w else 0)
            && Frees(since, ev) == (if OneShot(In, ev) then r else 0) + (if OneShot(Out, ev) then w else 0)
  {
    var st1 := Selected(st, o);
    var st2 := HandleAll(h, st1, In, script);
    var st3 := HandleAll(h, st2, Out, script);
    RoundIs(h, st, o, script);
    PassLog(h, st1, In, FirstFrom(st1.db.inn.table, 0), script, ev, kind);
    PassLog(h, st2, Out, FirstFrom(st2.db.out.table, 0), script, ev, kind);
    SinceSum(st1, st2, st3, Call(ev, kind));
    SinceSum(st1, st2, st3, Free(ev));
  }

  /** For every event, every outcome in which select reports something, and every behaviour of the callbacks: a round
      calls the event exactly once, with the type of its set, if it has a callback and is to be served in this round;
      otherwise never. */
  lemma RoundCallsExactly(h: int -> int, st: St, o: Outcome, script: Script, ev: Event, kind: Kind)
    requires GoodHash(h) && Inv(h, st) && ScriptOk(script) && o.Ready?
    ensures var st' := Round(h, st, o, script);
            var called := KindOf(ev) == Some(kind) && ev.callback && DueInRound(h, st, o, script, ev);
            st.log <= st'.log && multiset(Since(st, st'))[Call(ev, kind)] == if called then 1 else 0
  {
    RoundLog(h, st, o, script, ev, kind);
    RoundServesIs(h, st, o, script, In, ev);
    RoundServesIs(h, st, o, script, Out, ev);
  }

  /** And it frees the event exactly once if it is one-shot and is to be served in this round; otherwise never. */
  lemma RoundFreesExactly(h: int -> int, st: St, o: Outcome, script: Script, ev: Event)
    requires GoodHash(h) && Inv(h, st) && ScriptOk(script) && o.Ready?
    ensures var st' := Round(h, st, o, script);
            var freed := ev.evType & EV_PERSIST == 0 && DueInRound(h, st, o, script, ev);
            st.log <= st'.log && Frees(Since(st, st'), ev) == if freed then 1 else 0
  {
    RoundLog(h, st, o, script, ev, In);
    RoundServesIs(h, st, o, script, In, ev);
    RoundServesIs(h, st, o, script, Out, ev);
  }

  /** The registry holds an event once if a lookup of its descriptor finds it, and otherwise not at all. */
  lemma HeldIsFound(h: int -> int, st: St, k: Kind, ev: Event)
    requires Inv(h, st) && KindOf(ev) == Some(k)
    ensures Held(st.db)[ev] == if Lookup(h, st.db.Sel(k).table, ev.fd) == Some(ev) then 1 else 0
  {
    Alternates(st.log, ev, |st.log|);
    assert st.log[..|st.log|] == st.log;
    assert Held(st.db)[ev] <= 1;
    if Held(st.db)[ev] == 1 {
      HeldIsThere(h, st.db, k, ev);
    }
    if Lookup(h, st.db.Sel(k).table, ev.fd) == Some(ev) {
      RegisteredIs(h, st.db, k, ev);
      var all := Flatten(st.db.Sel(k).table);
      var i :| 0 <= i < |all| && all[i] == Pair(ev.fd, ev);
      assert Vals(all)[i] == ev;
    }
  }

  lemma HeldIsThere(h: int -> int, db: Db, k: Kind, ev: Event)
    requires DbOk(h, db) && KindOf(ev) == Some(k) && Held(db)[ev] > 0
    ensures Lookup(h, db.Sel(k).table, ev.fd) == Some(ev)
  {
    if HashRuns.Stored(db.inn.table)[ev] > 0 {
      StoredIsFound(h, In, db.maxfd, db.inn, ev);
    } else {
      StoredIsFound(h, Out, db.maxfd, db.out, ev);
    }
  }

  /** 1 if the event is registered, else 0. */
  ghost function Registered(h: int -> int, db: Db, k: Kind, ev: Event): nat
    requires |db.Sel(k).table| == BUCKETS
  {
    if Lookup(h, db.Sel(k).table, ev.fd) == Some(ev) then 1 else 0
  }

  /** Registration after such a round: whether the event was registered, and how often it was accepted in the round,
      is balanced by whether it is registered now, and whether the round served and so freed it. */
  lemma RoundRegistersExactly(h: int -> int, st: St, o: Outcome, script: Script, ev: Event, k: Kind)
    requires GoodHash(h) && Inv(h, st) && ScriptOk(script) && o.Ready? && KindOf(ev) == Some(k)
    ensures var st' := Round(h, st, o, script);
            var freed := if OneShot(k, ev) && DueInRound(h, st, o, script, ev) then 1 else 0;
            Registered(h, st.db, k, ev) + st'.accepted[ev] == Registered(h, st'.db, k, ev) + st.accepted[ev] + freed
  {
    var st' := Round(h, st, o, script);
    assert Inv(h, st') by { RoundInv(h, st, o, script); }
    HeldIsFound(h, st, k, ev);
    HeldIsFound(h, st', k, ev);
    RoundFreesExactly(h, st, o, script, ev);
    FreesSince(st, st', ev);
  }

  lemma FreesSince(st: St, st': St, ev: Event)
    requires st.log <= st'.log
    ensures Frees(st'.log, ev) == Frees(st.log, ev) + Frees(Since(st, st'), ev)
  {
    assert st'.log == st.log + Since(st, st');
    CountSum(st.log, Since(st, st'), Free(ev));
  }
}
