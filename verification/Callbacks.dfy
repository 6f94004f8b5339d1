/** Passes whose callbacks add events: who is called, and who is called too early. */
module Callbacks {
  import opened Seqs
  import opened Chains
  import opened Registry
  import opened Dispatch
  import opened History
  import opened Passes
  import HashRuns

  /** The pair is in the chain of its key. */
  ghost predicate Holds(h: int -> int, t: EvTable, q: Pair<int, Event>) {
    |t| == BUCKETS && Available(h(q.key)) && q in t[h(q.key)]
  }

  /** Event ev was accepted between st and st'. */
  ghost predicate Joined(st: St, st': St, ev: Event) {
    st.accepted[ev] < st'.accepted[ev]
  }

  /** The pair was registered in set k with its bit set. */
  ghost predicate Marked(h: int -> int, k: Kind, st: St, q: Pair<int, Event>) {
    Holds(h, st.db.Sel(k).table, q) && q.key in st.db.Sel(k).fds
  }

  /** How a set may look later on: each pair in it was there or joined in between, and its bit is set exactly if
      it was set then or the pair joined. */
  ghost predicate Tracked(h: int -> int, k: Kind, st: St, st': St) {
    && st.accepted <= st'.accepted
    && forall q :: Holds(h, st'.db.Sel(k).table, q) ==> TrackedPair(h, k, st, st', q)
  }

  ghost predicate TrackedPair(h: int -> int, k: Kind, st: St, st': St, q: Pair<int, Event>) {
    && (Holds(h, st.db.Sel(k).table, q) || Joined(st, st', q.val))
    && (q.key in st'.db.Sel(k).fds <==> Marked(h, k, st, q) || Joined(st, st', q.val))
  }

  lemma TrackedTrans(h: int -> int, k: Kind, a: St, b: St, c: St)
    requires Tracked(h, k, a, b) && Tracked(h, k, b, c)
    ensures Tracked(h, k, a, c)
  {
    forall q | Holds(h, c.db.Sel(k).table, q)
      ensures TrackedPair(h, k, a, c, q)
    {
      assert TrackedPair(h, k, b, c, q);
      assert Holds(h, b.db.Sel(k).table, q) ==> TrackedPair(h, k, a, b, q);
      assert a.accepted[q.val] <= b.accepted[q.val] <= c.accepted[q.val];
    }
  }

  /** The same, with no bit cleared either. */
  ghost predicate Grew(h: int -> int, k: Kind, st: St, st': St) {
    Tracked(h, k, st, st') && st.db.Sel(k).fds <= st'.db.Sel(k).fds
  }

  lemma GrewRefl(h: int -> int, k: Kind, st: St)
    ensures Grew(h, k, st, st)
  {
  }

  lemma GrewTrans(h: int -> int, k: Kind, a: St, b: St, c: St)
    requires Grew(h, k, a, b) && Grew(h, k, b, c)
    ensures Grew(h, k, a, c)
  {
  }

  /** A pair is found by its key. */
  lemma HeldPair(h: int -> int, t: EvTable, q: Pair<int, Event>)
    requires TableOk(h, t)
    ensures Holds(h, t, q) <==> Lookup(h, t, q.key) == Some(q.val) && Available(h(q.key)) && q in t[h(q.key)]
    ensures Holds(h, t, q) <==> q in Flatten(t)
    ensures Lookup(h, t, q.key) == Some(q.val) ==> Holds(h, t, q)
  {
    InFlatten(h, t, 0, q);
    assert t[0..] == t;
    if Available(h(q.key)) {
      var c := t[h(q.key)];
      assert ChainOk(h, h(q.key), c);
      if q in c {
        var i :| 0 <= i < |c| && c[i] == q;
        HashRuns.KeyIndexIs(c, i);
      }
    }
  }

  /** Every registered pair is filed under its own descriptor and kind. */
  lemma HoldsOk(h: int -> int, db: Db, k: Kind, q: Pair<int, Event>)
    requires DbOk(h, db) && Holds(h, db.Sel(k).table, q)
    ensures q.key == q.val.fd && KindOf(q.val) == Some(k)
  {
    var c := db.Sel(k).table[h(q.key)];
    var i :| 0 <= i < |c| && c[i] == q;
    assert PairOk(k, db.maxfd, db.Sel(k).table[h(q.key)][i]);
  }

  /** A new pair in front of its chain. */
  lemma PrependHolds(h: int -> int, t: EvTable, p: Pair<int, Event>, q: Pair<int, Event>)
    requires |t| == BUCKETS && Available(h(p.key))
    ensures Holds(h, t[h(p.key) := [p] + t[h(p.key)]], q) <==> Holds(h, t, q) || q == p
  {
  }

  /** An addition puts one pair into one chain and sets its bit. */
  lemma AddChanges(h: int -> int, db: Db, k: Kind, ev: Event, q: Pair<int, Event>)
    requires GoodHash(h) && DbOk(h, db) && ev.fd < FD_SETSIZE
    ensures var s, s' := db.Sel(k), Add(h, db, ev).0.Sel(k);
            var taken := Takes(h, db, ev) && KindOf(ev) == Some(k);
            && (Holds(h, s'.table, q) <==> Holds(h, s.table, q) || (taken && q == Pair(ev.fd, ev)))
            && s'.fds == (if taken then s.fds + {ev.fd} else s.fds)
            && (taken && Holds(h, s.table, q) ==> q.key != ev.fd)
  {
    if Takes(h, db, ev) && KindOf(ev) == Some(k) {
      var t := db.Sel(k).table;
      TablesOk(h, db, k);
      PutFresh(h, k, db.maxfd, t, ev);
      HeldPair(h, t, q);
      PrependHolds(h, t, Pair(ev.fd, ev), q);
    } else {
      AddTakes(h, db, ev);
    }
  }

  lemma AddTracked(h: int -> int, k: Kind, st: St, ev: Event)
    requires GoodHash(h) && DbOk(h, st.db) && ev.fd < FD_SETSIZE
    ensures Grew(h, k, st, DoAdd(h, st, ev))
  {
    var st' := DoAdd(h, st, ev);
    forall q | Holds(h, st'.db.Sel(k).table, q)
      ensures TrackedPair(h, k, st, st', q)
    {
      AddChanges(h, st.db, k, ev, q);
      if Holds(h, st.db.Sel(k).table, q) {
        HoldsOk(h, st.db, k, q);
      }
    }
    AddChanges(h, st.db, k, ev, Pair(ev.fd, ev));
  }

  lemma {:induction false} AddsTracked(h: int -> int, k: Kind, st: St, evs: seq<Event>)
    requires GoodHash(h) && Inv(h, st) && FdsInRange(evs)
    ensures Grew(h, k, st, DoAdds(h, st, evs))
    decreases |evs|
  {
    if evs == [] {
      GrewRefl(h, k, st);
    } else {
      var st1 := DoAdd(h, st, evs[0]);
      var st2 := DoAdds(h, st1, evs[1..]);
      assert Inv(h, st1) by { DoAddInv(h, st, evs[0]); }
      assert Grew(h, k, st, st1) by { AddTracked(h, k, st, evs[0]); }
      assert Grew(h, k, st1, st2) by { AddsTracked(h, k, st1, evs[1..]); }
      assert Grew(h, k, st, st2) by { GrewTrans(h, k, st, st1, st2); }
    }
  }

  lemma FireTracked(h: int -> int, k: Kind, st: St, j: Kind, ev: Event, script: Script)
    requires GoodHash(h) && Inv(h, st) && ScriptOk(script) && Held(st.db)[ev] >= 1
    ensures var st1 := MayFire(h, st, j, ev, script);
            Grew(h, k, st, st1)
  {
    if Fires(j, ev) {
      var act := script(st.calls);
      var st0 := Called(st, j, ev, act.exit);
      assert Inv(h, st0) by { CallInv(h, st, j, ev, act.exit); }
      var st1 := DoAdds(h, st0, act.adds);
      assert Grew(h, k, st0, st1) by { AddsTracked(h, k, st0, act.adds); }
      SameStartGrew(h, k, st, st0, st1);
      assert MayFire(h, st, j, ev, script) == st1;
    } else {
      GrewRefl(h, k, st);
    }
  }

  lemma SameStartGrew(h: int -> int, k: Kind, st: St, st0: St, st1: St)
    requires Grew(h, k, st0, st1) && st0.db == st.db && st0.accepted == st.accepted
    ensures Grew(h, k, st, st1)
  {
    assert forall q | Holds(h, st1.db.Sel(k).table, q) :: TrackedPair(h, k, st0, st1, q);
  }

  lemma DropTracked(h: int -> int, st: St, k: Kind, pos: Pos)
    requires DbOk(h, st.db) && OnTable(st.db.Sel(k).table, pos) && pos.At?
    ensures Tracked(h, k, st, Dropped(st, k, pos))
  {
    var t, st' := st.db.Sel(k).table, Dropped(st, k, pos);
    TablesOk(h, st.db, k);
    PairAt(h, st.db, k, pos);
    forall q | Holds(h, st'.db.Sel(k).table, q)
      ensures TrackedPair(h, k, st, st', q)
    {
      assert ChainOk(h, pos.b, t[pos.b]);
      assert q in t[h(q.key)] && q.key != t[pos.b][pos.i].key;
    }
  }

  /** Only the callback of a turn touches the other sets. */
  lemma TurnOthers(h: int -> int, j: Kind, st: St, k: Kind, pos: Pos, script: Script)
    requires Sized(st.db) && OnTable(st.db.Sel(k).table, pos) && pos.At? && j != k
    requires st.db.Sel(k).table[pos.b][pos.i].key in st.db.Sel(k).fds
    ensures var st1, st2 := MayFire(h, st, k, st.db.Sel(k).table[pos.b][pos.i].val, script),
                          Turn(h, st, k, pos, script).0;
            st2.db.Sel(j) == st1.db.Sel(j) && st2.accepted == st1.accepted
  {
    FirePrepends(h, st, k, st.db.Sel(k).table[pos.b][pos.i].val, script, k);
  }

  /** A turn clears no bit but that of its own pair, and sets none but those of accepted events. */
  lemma TurnTracked(h: int -> int, st: St, k: Kind, pos: Pos, script: Script)
    requires GoodHash(h) && Inv(h, st) && ScriptOk(script) && OnTable(st.db.Sel(k).table, pos) && pos.At?
    ensures var st' := Turn(h, st, k, pos, script).0;
            && Tracked(h, k, st, st')
            && st.db.Sel(k).fds - {st.db.Sel(k).table[pos.b][pos.i].key} <= st'.db.Sel(k).fds
  {
    var s := st.db.Sel(k);
    var p: Pair<int, Event> := s.table[pos.b][pos.i];
    if p.key in s.fds {
      assert Held(st.db)[p.val] >= 1 by { AtIsHeld(s.table, pos); }
      var st1 := MayFire(h, st, k, p.val, script);
      assert Grew(h, k, st, st1) by { FireTracked(h, k, st, k, p.val, script); }
      FirePrepends(h, st, k, p.val, script, k);
      var pos1 := Shifted(s.table, st1.db.Sel(k).table, pos);
      if OneShot(k, p.val) {
        assert Inv(h, st1) by { FireInv(h, st, k, p.val, script); }
        assert Tracked(h, k, st1, Dropped(st1, k, pos1)) by { DropTracked(h, st1, k, pos1); }
        TrackedTrans(h, k, st, st1, Dropped(st1, k, pos1));
      }
    } else {
      GrewRefl(h, k, st);
    }
  }

  /** The same for every set, whichever is walked. */
  lemma TurnTracksAll(h: int -> int, j: Kind, st: St, k: Kind, pos: Pos, script: Script)
    requires GoodHash(h) && Inv(h, st) && ScriptOk(script) && OnTable(st.db.Sel(k).table, pos) && pos.At?
    ensures Tracked(h, j, st, Turn(h, st, k, pos, script).0)
  {
    var p: Pair<int, Event> := st.db.Sel(k).table[pos.b][pos.i];
    if j == k {
      TurnTracked(h, st, k, pos, script);
    } else if p.key !in st.db.Sel(k).fds {
      GrewRefl(h, j, st);
    } else {
      assert Held(st.db)[p.val] >= 1 by { AtIsHeld(st.db.Sel(k).table, pos); }
      FireTracked(h, j, st, k, p.val, script);
      TurnOthers(h, j, st, k, pos, script);
      SameSetTracked(h, j, st, MayFire(h, st, k, p.val, script), Turn(h, st, k, pos, script).0);
    }
  }

  lemma SameSetTracked(h: int -> int, j: Kind, st: St, st1: St, st2: St)
    requires Tracked(h, j, st, st1) && st2.db.Sel(j) == st1.db.Sel(j) && st2.accepted == st1.accepted
    ensures Tracked(h, j, st, st2)
  {
    assert forall q | Holds(h, st2.db.Sel(j).table, q) :: TrackedPair(h, j, st, st1, q);
  }

  /** A whole pass over set k, seen from set j. */
  lemma {:induction false} PassTracked(h: int -> int, j: Kind, st: St, k: Kind, pos: Pos, script: Script)
    requires GoodHash(h) && Inv(h, st) && ScriptOk(script) && OnTable(st.db.Sel(k).table, pos)
    ensures Tracked(h, j, st, Handle(h, st, k, pos, script).0)
    decreases BucketsAhead(st.db.Sel(k).table, pos), NodesAhead(st.db.Sel(k).table, pos)
  {
    if pos.End? {
      GrewRefl(h, j, st);
    } else {
      var (st1, pos1) := Turn(h, st, k, pos, script);
      var st2 := Handle(h, st1, k, pos1, script).0;
      TurnAdvances(h, st, k, pos, script);
      assert Inv(h, st1) by { TurnInv(h, st, k, pos, script); }
      assert Tracked(h, j, st, st1) by { TurnTracksAll(h, j, st, k, pos, script); }
      assert Tracked(h, j, st1, st2) by { PassTracked(h, j, st1, k, pos1, script); }
      assert Tracked(h, j, st, st2) by { TrackedTrans(h, j, st, st1, st2); }
      assert Handle(h, st, k, pos, script).0 == st2;
    }
  }

  // ------------------------------------------------------------- the log of a pass

  /** What was appended to the log between two states. */
  ghost function Since(st: St, st': St): seq<Entry>
    requires st.log <= st'.log
  {
    st'.log[|st.log|..]
  }

  lemma SinceSplit(st: St, st1: St, st2: St, a: seq<Entry>)
    requires st1.log == st.log + a && st1.log <= st2.log
    ensures st.log <= st2.log && Since(st, st2) == a + Since(st1, st2)
  {
  }

  lemma SinceMember(a: seq<Entry>, b: seq<Entry>, c: Entry)
    ensures c in a + b <==> c in a || c in b
  {
  }

  /** A callback that a pass may make: of the right type and there, and for an event whose bit was set when
      the pass began, or for one that was accepted while it ran. */
  ghost predicate Legit(h: int -> int, k: Kind, st: St, st': St, c: Entry) {
    c.Call? ==>
      && c.kind == k && KindOf(c.ev) == Some(k) && Fires(k, c.ev)
      && (Marked(h, k, st, Pair(c.ev.fd, c.ev)) || Joined(st, st', c.ev))
  }

  ghost predicate AllLegit(h: int -> int, k: Kind, st: St, st': St)
    requires st.log <= st'.log
  {
    forall c | c in Since(st, st') :: Legit(h, k, st, st', c)
  }

  /** Every pair is filed under its own descriptor. */
  lemma PairAt(h: int -> int, db: Db, k: Kind, pos: Pos)
    requires DbOk(h, db) && OnTable(db.Sel(k).table, pos) && pos.At?
    ensures var p := db.Sel(k).table[pos.b][pos.i];
            p.key == p.val.fd && Holds(h, db.Sel(k).table, p) && h(p.key) == pos.b
  {
  }

  lemma {:induction false} PassIsLegit(h: int -> int, st: St, k: Kind, pos: Pos, script: Script)
    requires GoodHash(h) && Inv(h, st) && ScriptOk(script) && OnTable(st.db.Sel(k).table, pos)
    ensures var st' := Handle(h, st, k, pos, script).0;
            st.accepted <= st'.accepted && st.log <= st'.log && AllLegit(h, k, st, st')
    decreases BucketsAhead(st.db.Sel(k).table, pos), NodesAhead(st.db.Sel(k).table, pos)
  {
    if pos.At? {
      var (st1, pos1) := Turn(h, st, k, pos, script);
      var st2 := Handle(h, st1, k, pos1, script).0;
      TurnAdvances(h, st, k, pos, script);
      assert Inv(h, st1) by { TurnInv(h, st, k, pos, script); }
      assert st1.accepted <= st2.accepted && st1.log <= st2.log && AllLegit(h, k, st1, st2) by {
        PassIsLegit(h, st1, k, pos1, script);
      }
      TurnCallsOnly(h, st, k, pos, script, st2);
      assert Handle(h, st, k, pos, script).0 == st2;
    }
  }

  /** A pass only makes callbacks of the type of its set, for events of that kind that have one, whose bit was set when
      the pass began or that were accepted while it ran. */
  lemma PassCallsOnly(h: int -> int, st: St, k: Kind, pos: Pos, script: Script, ev: Event, kind: Kind)
    requires GoodHash(h) && Inv(h, st) && ScriptOk(script) && OnTable(st.db.Sel(k).table, pos)
    requires Call(ev, kind) in Since(st, Handle(h, st, k, pos, script).0)
    ensures var st' := Handle(h, st, k, pos, script).0;
            && kind == k && KindOf(ev) == Some(k) && ev.callback
            && ((Lookup(h, st.db.Sel(k).table, ev.fd) == Some(ev) && ev.fd in st.db.Sel(k).fds)
                || st.accepted[ev] < st'.accepted[ev])
  {
    PassIsLegit(h, st, k, pos, script);
    assert Legit(h, k, st, Handle(h, st, k, pos, script).0, Call(ev, kind));
    TablesOk(h, st.db, k);
    HeldPair(h, st.db.Sel(k).table, Pair(ev.fd, ev));
    KindExact(ev);
  }

  /** The callback that a turn logs, whatever it adds. */
  lemma TurnCalls(h: int -> int, st: St, k: Kind, pos: Pos, script: Script, c: Entry)
    requires Sized(st.db) && OnTable(st.db.Sel(k).table, pos) && pos.At? && c.Call?
    ensures var s := st.db.Sel(k); var p := s.table[pos.b][pos.i];
            c in TurnEntries(h, st, k, pos, script) <==> c == Call(p.val, k) && p.key in s.fds && Fires(k, p.val)
  {
    var s := st.db.Sel(k);
    var a := FirstEntries(k, s.fds, s.table[pos.b][pos.i]);
    TurnEntriesCount(h, st, k, pos, script, c);
    assert c in TurnEntries(h, st, k, pos, script) <==> multiset(TurnEntries(h, st, k, pos, script))[c] > 0;
    assert c in a <==> multiset(a)[c] > 0;
  }

  lemma TurnCallsOnly(h: int -> int, st: St, k: Kind, pos: Pos, script: Script, st2: St)
    requires GoodHash(h) && Inv(h, st) && ScriptOk(script) && OnTable(st.db.Sel(k).table, pos) && pos.At?
    requires var st1 := Turn(h, st, k, pos, script).0;
             st1.accepted <= st2.accepted && st1.log <= st2.log && AllLegit(h, k, st1, st2)
    ensures st.accepted <= st2.accepted && st.log <= st2.log && AllLegit(h, k, st, st2)
  {
    var st1 := Turn(h, st, k, pos, script).0;
    var a := TurnEntries(h, st, k, pos, script);
    assert Tracked(h, k, st, st1) by { TurnTracked(h, st, k, pos, script); }
    SinceSplit(st, st1, st2, a);
    forall c | c in Since(st, st2)
      ensures Legit(h, k, st, st2, c)
    {
      SinceMember(a, Since(st1, st2), c);
      if c in Since(st1, st2) {
        LegitEarlier(h, k, st, st1, st2, c);
      } else if c.Call? {
        TurnCalls(h, st, k, pos, script, c);
        FirstLegit(h, k, st, pos, st2, c);
      }
    }
  }

  lemma FirstLegit(h: int -> int, k: Kind, st: St, pos: Pos, st2: St, c: Entry)
    requires DbOk(h, st.db) && OnTable(st.db.Sel(k).table, pos) && pos.At?
    requires var s := st.db.Sel(k); var p := s.table[pos.b][pos.i];
             c == Call(p.val, k) && p.key in s.fds && Fires(k, p.val)
    ensures Legit(h, k, st, st2, c)
  {
    PairAt(h, st.db, k, pos);
    HoldsOk(h, st.db, k, st.db.Sel(k).table[pos.b][pos.i]);
  }

  lemma LegitEarlier(h: int -> int, k: Kind, st: St, st1: St, st2: St, c: Entry)
    requires Tracked(h, k, st, st1) && st1.accepted <= st2.accepted && Legit(h, k, st1, st2, c)
    ensures Legit(h, k, st, st2, c)
  {
    if c.Call? && Marked(h, k, st1, Pair(c.ev.fd, c.ev)) {
      assert TrackedPair(h, k, st, st1, Pair(c.ev.fd, c.ev));
    }
  }

  lemma {:induction false} SubseqMember<T>(a: seq<T>, b: seq<T>, x: T)
    requires Subseq(a, b) && x in a
    ensures x in b
    decreases |b|
  {
    if a[0] == b[0] && Subseq(a[1..], b[1..]) {
      if x != a[0] {
        SubseqMember(a[1..], b[1..], x);
      }
    } else {
      SubseqMember(a, b[1..], x);
    }
  }

  lemma AheadDistinct(h: int -> int, t: EvTable, pos: Pos)
    requires TableOk(h, t) && OnTable(t, pos)
    ensures DistinctKeys(Remaining(t, pos))
  {
    assert t[0..] == t;
    FlattenDistinct(h, t, 0);
    PassedAndRemaining(t, pos);
    var all, n := Flatten(t), |Passed(t, pos)|;
    assert forall i | 0 <= i < |Remaining(t, pos)| :: Remaining(t, pos)[i] == all[n + i];
  }

  // ------------------------------------------------------------- what a pass serves

  /** How often a pass serves an event: meets it while its bit is set. */
  ghost function Serves(h: int -> int, st: St, k: Kind, pos: Pos, script: Script, ev: Event): nat
    requires Sized(st.db) && OnTable(st.db.Sel(k).table, pos)
    decreases BucketsAhead(st.db.Sel(k).table, pos), NodesAhead(st.db.Sel(k).table, pos)
  {
    if pos.End? then 0
    else
      TurnAdvances(h, st, k, pos, script);
      var (st1, pos1) := Turn(h, st, k, pos, script);
      (if ServedNow(st, k, pos, ev) then 1 else 0) + Serves(h, st1, k, pos1, script, ev)
  }

  ghost predicate ServedNow(st: St, k: Kind, pos: Pos, ev: Event)
    requires OnTable(st.db.Sel(k).table, pos) && pos.At?
  {
    st.db.Sel(k).table[pos.b][pos.i] == Pair(ev.fd, ev) && ev.fd in st.db.Sel(k).fds
  }

  /** A part of the log in which event ev is served n times: called as often, with the type of the set, if it has a
      callback, and freed as often if it is one-shot. */
  ghost predicate Tallies(log: seq<Entry>, k: Kind, ev: Event, kind: Kind, n: nat) {
    && multiset(log)[Call(ev, kind)] == (if kind == k && Fires(k, ev) then n else 0)
    && Frees(log, ev) == (if OneShot(k, ev) then n else 0)
  }

  lemma TalliesAdd(a: seq<Entry>, b: seq<Entry>, k: Kind, ev: Event, kind: Kind, m: nat, n: nat)
    requires Tallies(a, k, ev, kind, m) && Tallies(b, k, ev, kind, n)
    ensures Tallies(a + b, k, ev, kind, m + n)
  {
    CountSum(a, b, Call(ev, kind));
    CountSum(a, b, Free(ev));
  }

  lemma TurnTallies(h: int -> int, st: St, k: Kind, pos: Pos, script: Script, ev: Event, kind: Kind)
    requires DbOk(h, st.db) && OnTable(st.db.Sel(k).table, pos) && pos.At?
    ensures Tallies(TurnEntries(h, st, k, pos, script), k, ev, kind, if ServedNow(st, k, pos, ev) then 1 else 0)
  {
    var s := st.db.Sel(k);
    PairAt(h, st.db, k, pos);
    TurnEntriesCount(h, st, k, pos, script, Call(ev, kind));
    TurnEntriesCount(h, st, k, pos, script, Free(ev));
    FirstEntriesCount(k, s.fds, s.table[pos.b][pos.i], ev, kind);
  }

  /** A pass calls an event, with the type of its set, as often as it serves it, if it has a callback; and it frees the
      event as often as it serves it, if it is one-shot. */
  lemma {:induction false} PassLog(h: int -> int, st: St, k: Kind, pos: Pos, script: Script, ev: Event, kind: Kind)
    requires GoodHash(h) && Inv(h, st) && ScriptOk(script) && OnTable(st.db.Sel(k).table, pos)
    ensures Tallies(Since(st, Handle(h, st, k, pos, script).0), k, ev, kind, Serves(h, st, k, pos, script, ev))
    decreases BucketsAhead(st.db.Sel(k).table, pos), NodesAhead(st.db.Sel(k).table, pos)
  {
    if pos.At? {
      var (st1, pos1) := Turn(h, st, k, pos, script);
      TurnAdvances(h, st, k, pos, script);
      assert Inv(h, st1) by { TurnInv(h, st, k, pos, script); }
      PassLog(h, st1, k, pos1, script, ev, kind);
      PassLogStep(h, st, k, pos, script, ev, kind);
    } else {
      assert Since(st, st) == [];
    }
  }

  lemma PassLogStep(h: int -> int, st: St, k: Kind, pos: Pos, script: Script, ev: Event, kind: Kind)
    requires DbOk(h, st.db) && OnTable(st.db.Sel(k).table, pos) && pos.At?
    requires var (st1, pos1) := Turn(h, st, k, pos, script);
             Tallies(Since(st1, Handle(h, st1, k, pos1, script).0), k, ev, kind, Serves(h, st1, k, pos1, script, ev))
    ensures Tallies(Since(st, Handle(h, st, k, pos, script).0), k, ev, kind, Serves(h, st, k, pos, script, ev))
  {
    var (st1, pos1) := Turn(h, st, k, pos, script);
    var st2 := Handle(h, st1, k, pos1, script).0;
    TurnAdvances(h, st, k, pos, script);
    TurnLog(h, st, k, pos, script, st2, ev, kind, Serves(h, st1, k, pos1, script, ev));
    assert Handle(h, st, k, pos, script).0 == st2;
  }

  /** One turn more. */
  lemma TurnLog(h: int -> int, st: St, k: Kind, pos: Pos, script: Script, st2: St, ev: Event, kind: Kind, n: nat)
    requires DbOk(h, st.db) && OnTable(st.db.Sel(k).table, pos) && pos.At?
    requires var st1 := Turn(h, st, k, pos, script).0;
             st1.log <= st2.log && Tallies(Since(st1, st2), k, ev, kind, n)
    ensures st.log <= st2.log && Tallies(Since(st, st2), k, ev, kind, (if ServedNow(st, k, pos, ev) then 1 else 0) + n)
  {
    var st1, a := Turn(h, st, k, pos, script).0, TurnEntries(h, st, k, pos, script);
    TurnTallies(h, st, k, pos, script, ev, kind);
    TalliesAdd(a, Since(st1, st2), k, ev, kind, if ServedNow(st, k, pos, ev) then 1 else 0, n);
    SinceSplit(st, st1, st2, a);
  }

  lemma {:induction false} DistinctCount(s: seq<Pair<int, Event>>, q: Pair<int, Event>)
    requires DistinctKeys(s)
    ensures multiset(s)[q] <= 1
  {
    if s != [] {
      var rest := s[1..];
      assert s == [s[0]] + rest;
      DistinctTail(s[0], rest);
      DistinctCount(rest, q);
      CountSum([s[0]], rest, q);
    }
  }

  lemma {:induction false} ServesVisited(h: int -> int, st: St, k: Kind, pos: Pos, script: Script, ev: Event)
    requires Sized(st.db) && OnTable(st.db.Sel(k).table, pos)
    ensures Serves(h, st, k, pos, script, ev) <= multiset(Handle(h, st, k, pos, script).1)[Pair(ev.fd, ev)]
    decreases BucketsAhead(st.db.Sel(k).table, pos), NodesAhead(st.db.Sel(k).table, pos)
  {
    if pos.At? {
      var p: Pair<int, Event> := st.db.Sel(k).table[pos.b][pos.i];
      var (st1, pos1) := Turn(h, st, k, pos, script);
      var rest := Handle(h, st1, k, pos1, script).1;
      TurnAdvances(h, st, k, pos, script);
      assert Serves(h, st1, k, pos1, script, ev) <= multiset(rest)[Pair(ev.fd, ev)] by {
        ServesVisited(h, st1, k, pos1, script, ev);
      }
      CountSum([p], rest, Pair(ev.fd, ev));
      assert Handle(h, st, k, pos, script).1 == [p] + rest;
    }
  }

  /** A pass serves no event twice, and only what it visits. */
  lemma ServesOnce(h: int -> int, st: St, k: Kind, pos: Pos, script: Script, ev: Event)
    requires GoodHash(h) && Inv(h, st) && ScriptOk(script) && OnTable(st.db.Sel(k).table, pos)
    ensures Serves(h, st, k, pos, script, ev) <= 1
    ensures Serves(h, st, k, pos, script, ev) == 1 ==> Pair(ev.fd, ev) in Handle(h, st, k, pos, script).1
  {
    var visited := Handle(h, st, k, pos, script).1;
    ServesVisited(h, st, k, pos, script, ev);
    PassVisitsOnce(h, st, k, pos, script);
    DistinctCount(visited, Pair(ev.fd, ev));
  }

  /** Every event ahead whose bit is set is served, whatever the callbacks before it add. */
  lemma {:induction false} PassServesReady(h: int -> int, st: St, k: Kind, pos: Pos, script: Script, ev: Event)
    requires GoodHash(h) && Inv(h, st) && ScriptOk(script) && OnTable(st.db.Sel(k).table, pos)
    requires Pair(ev.fd, ev) in Remaining(st.db.Sel(k).table, pos) && ev.fd in st.db.Sel(k).fds
    ensures Serves(h, st, k, pos, script, ev) >= 1
    decreases BucketsAhead(st.db.Sel(k).table, pos), NodesAhead(st.db.Sel(k).table, pos)
  {
    assert pos.At?;
    if !ServedNow(st, k, pos, ev) {
      var (st1, pos1) := Turn(h, st, k, pos, script);
      TurnAdvances(h, st, k, pos, script);
      ReadyNext(h, st, k, pos, script, Pair(ev.fd, ev));
      PassServesReady(h, st1, k, pos1, script, ev);
    }
  }

  /** So every event ahead whose bit is set and that has a callback is called. */
  lemma PassCallsReady(h: int -> int, st: St, k: Kind, pos: Pos, script: Script, ev: Event)
    requires GoodHash(h) && Inv(h, st) && ScriptOk(script) && OnTable(st.db.Sel(k).table, pos)
    requires Pair(ev.fd, ev) in Remaining(st.db.Sel(k).table, pos) && ev.fd in st.db.Sel(k).fds && Fires(k, ev)
    ensures var st' := Handle(h, st, k, pos, script).0;
            st.log <= st'.log && Call(ev, k) in Since(st, st')
  {
    PassServesReady(h, st, k, pos, script, ev);
    PassLog(h, st, k, pos, script, ev, k);
    assert Call(ev, k) in multiset(Since(st, Handle(h, st, k, pos, script).0));
  }

  lemma ReadyNext(h: int -> int, st: St, k: Kind, pos: Pos, script: Script, q: Pair<int, Event>)
    requires GoodHash(h) && Inv(h, st) && ScriptOk(script) && OnTable(st.db.Sel(k).table, pos) && pos.At?
    requires q in Remaining(st.db.Sel(k).table, pos) && q.key in st.db.Sel(k).fds
    requires q != st.db.Sel(k).table[pos.b][pos.i]
    ensures var (st1, pos1) := Turn(h, st, k, pos, script);
            Inv(h, st1) && q in Remaining(st1.db.Sel(k).table, pos1) && q.key in st1.db.Sel(k).fds
  {
    TurnInv(h, st, k, pos, script);
    StillAhead(h, st, k, pos, script, q);
    TurnTracked(h, st, k, pos, script);
  }

  lemma StillAhead(h: int -> int, st: St, k: Kind, pos: Pos, script: Script, q: Pair<int, Event>)
    requires DbOk(h, st.db) && OnTable(st.db.Sel(k).table, pos) && pos.At?
    requires q in Remaining(st.db.Sel(k).table, pos) && q != st.db.Sel(k).table[pos.b][pos.i]
    ensures var (st1, pos1) := Turn(h, st, k, pos, script);
            q in Remaining(st1.db.Sel(k).table, pos1) && q.key != st.db.Sel(k).table[pos.b][pos.i].key
  {
    var t := st.db.Sel(k).table;
    var p: Pair<int, Event> := t[pos.b][pos.i];
    var (st1, pos1) := Turn(h, st, k, pos, script);
    var r, r1 := Remaining(t, pos), Remaining(st1.db.Sel(k).table, pos1);
    TurnRemaining(h, st, k, pos, script);
    assert Subseq(r, [p] + r1) by { RemainingPrepended(t, MidTable(h, st, k, pos, script), pos); }
    SubseqMember(r, [p] + r1, q);
    TablesOk(h, st.db, k);
    AheadDistinct(h, t, pos);
    RemainingSteps(t, pos);
    assert r[0] == p;
  }
}
