/** What one pass of handle_events visits and calls. */
module Passes {
  import opened Seqs
  import opened Chains
  import opened Registry
  import opened Dispatch
  import opened History

  // ------------------------------------------------------------- subsequences

  /** a can be had from b by leaving elements out. */
  ghost predicate Subseq<T>(a: seq<T>, b: seq<T>)
    decreases |b|
  {
    a == [] || (b != [] && ((a[0] == b[0] && Subseq(a[1..], b[1..])) || Subseq(a, b[1..])))
  }

  lemma {:induction false} SubseqRefl<T>(a: seq<T>)
    ensures Subseq(a, a)
  {
    if a != [] {
      SubseqRefl(a[1..]);
    }
  }

  lemma {:induction false} SubseqTrans<T>(a: seq<T>, b: seq<T>, c: seq<T>)
    requires Subseq(a, b) && Subseq(b, c)
    ensures Subseq(a, c)
    decreases |b| + |c|
  {
    if a != [] {
      if b[0] == c[0] && Subseq(b[1..], c[1..]) {
        if a[0] == b[0] && Subseq(a[1..], b[1..]) {
          SubseqTrans(a[1..], b[1..], c[1..]);
        } else {
          SubseqTrans(a, b[1..], c[1..]);
        }
      } else {
        SubseqTrans(a, b, c[1..]);
      }
    }
  }

  lemma {:induction false} SubseqAfter<T>(x: seq<T>, a: seq<T>, b: seq<T>)
    requires Subseq(a, b)
    ensures Subseq(a, x + b)
    decreases |x|
  {
    if x == [] {
      assert x + b == b;
    } else {
      SubseqAfter(x[1..], a, b);
      assert (x + b)[1..] == x[1..] + b;
    }
  }

  lemma {:induction false} SubseqPrefixed<T>(x: seq<T>, a: seq<T>, b: seq<T>)
    requires Subseq(a, b)
    ensures Subseq(x + a, x + b)
    decreases |x|
  {
    if x == [] {
      assert x + a == a && x + b == b;
    } else {
      SubseqPrefixed(x[1..], a, b);
      assert (x + b)[1..] == x[1..] + b && (x + a)[1..] == x[1..] + a;
    }
  }

  /** Pairs added in front of chains leave the old order of the walk a part of the new one. */
  lemma {:induction false} FlattenPrepended(t: EvTable, t': EvTable, b: nat)
    requires Prepended(t, t') && b <= |t|
    ensures Subseq(Flatten(t[b..]), Flatten(t'[b..]))
    decreases |t| - b
  {
    if b < |t| {
      FlattenPrepended(t, t', b + 1);
      var d := |t'[b]| - |t[b]|;
      var rest, rest' := Flatten(t[b + 1..]), Flatten(t'[b + 1..]);
      assert t[b..][1..] == t[b + 1..] && t'[b..][1..] == t'[b + 1..];
      assert t'[b] == t'[b][..d] + t[b];
      SubseqPrefixed(t[b], rest, rest');
      SubseqAfter(t'[b][..d], t[b] + rest, t[b] + rest');
      assert t'[b] + rest' == t'[b][..d] + (t[b] + rest');
    }
  }

  lemma {:induction false} RemainingPrepended(t: EvTable, t': EvTable, pos: Pos)
    requires Prepended(t, t') && OnTable(t, pos) && pos.At?
    ensures Subseq(Remaining(t, pos), Remaining(t', Shifted(t, t', pos)))
  {
    var x, a, b := t[pos.b][pos.i..], Flatten(t[pos.b + 1..]), Flatten(t'[pos.b + 1..]);
    assert Subseq(a, b) by { FlattenPrepended(t, t', pos.b + 1); }
    assert Subseq(x + a, x + b) by { SubseqPrefixed(x, a, b); }
    assert Remaining(t', Shifted(t, t', pos)) == x + b;
  }

  // ------------------------------------------------------------- every pair is visited

  /** The table in which the iterator moves on: after the callback, before the erasure. */
  ghost function MidTable(h: int -> int, st: St, k: Kind, pos: Pos, script: Script): EvTable
    requires Sized(st.db) && OnTable(st.db.Sel(k).table, pos) && pos.At?
  {
    var s := st.db.Sel(k);
    var p := s.table[pos.b][pos.i];
    if p.key in s.fds then MayFire(h, st, k, p.val, script).db.Sel(k).table else s.table
  }

  lemma ShiftedSame(t: EvTable, pos: Pos)
    requires OnTable(t, pos) && pos.At?
    ensures Prepended(t, t) && Shifted(t, t, pos) == pos
  {
  }

  /** Stepped past the pair at `at`, or erased it. */
  ghost predicate Stepped(mid: EvTable, at: Pos, t': EvTable, pos': Pos)
    requires OnTable(mid, at) && at.At?
  {
    (t' == mid && pos' == NextPos(mid, at)) || (t' == EraseAt(mid, at) && pos' == ErasePos(mid, at))
  }

  lemma TurnStepped(h: int -> int, st: St, k: Kind, pos: Pos, script: Script)
    requires Sized(st.db) && OnTable(st.db.Sel(k).table, pos) && pos.At?
    ensures var (st', pos') := Turn(h, st, k, pos, script);
            var t, mid := st.db.Sel(k).table, MidTable(h, st, k, pos, script);
            Prepended(t, mid) && Stepped(mid, Shifted(t, mid, pos), st'.db.Sel(k).table, pos')
  {
    var s := st.db.Sel(k);
    if s.table[pos.b][pos.i].key in s.fds {
      FirePrepends(h, st, k, s.table[pos.b][pos.i].val, script, k);
    } else {
      ShiftedSame(s.table, pos);
    }
  }

  /** After a turn the iterator has ahead of it what it had, and whatever the callback put in later buckets. */
  lemma TurnRemaining(h: int -> int, st: St, k: Kind, pos: Pos, script: Script)
    requires Sized(st.db) && OnTable(st.db.Sel(k).table, pos) && pos.At?
    ensures var (st', pos') := Turn(h, st, k, pos, script);
            var t, mid := st.db.Sel(k).table, MidTable(h, st, k, pos, script);
            && Prepended(t, mid)
            && Remaining(mid, Shifted(t, mid, pos)) == [t[pos.b][pos.i]] + Remaining(st'.db.Sel(k).table, pos')
  {
    TurnStepped(h, st, k, pos, script);
    var t, mid := st.db.Sel(k).table, MidTable(h, st, k, pos, script);
    RemainingSteps(mid, Shifted(t, mid, pos));
  }

  /** A pass visits every pair that was ahead of it when it started, in order, whatever its callbacks add
      and whatever it erases. */
  lemma {:induction false} PassVisits(h: int -> int, st: St, k: Kind, pos: Pos, script: Script)
    requires Sized(st.db) && OnTable(st.db.Sel(k).table, pos)
    ensures Subseq(Remaining(st.db.Sel(k).table, pos), Handle(h, st, k, pos, script).1)
    decreases BucketsAhead(st.db.Sel(k).table, pos), NodesAhead(st.db.Sel(k).table, pos)
  {
    if pos.At? {
      var t := st.db.Sel(k).table;
      var p: Pair<int, Event> := t[pos.b][pos.i];
      var (st1, pos1) := Turn(h, st, k, pos, script);
      var rest := Handle(h, st1, k, pos1, script).1;
      TurnAdvances(h, st, k, pos, script);
      var r1 := Remaining(st1.db.Sel(k).table, pos1);
      assert Subseq(r1, rest) by { PassVisits(h, st1, k, pos1, script); }
      assert Subseq(Remaining(t, pos), [p] + r1) by {
        TurnRemaining(h, st, k, pos, script);
        RemainingPrepended(t, MidTable(h, st, k, pos, script), pos);
      }
      SubseqPrefixed([p], r1, rest);
      SubseqTrans(Remaining(t, pos), [p] + r1, [p] + rest);
    }
  }

  /** A step stays in the chain, where the rest of the chain is ahead, or goes to a later one. */
  ghost predicate RestAhead(rest: seq<Pair<int, Event>>, b: nat, t': EvTable, pos': Pos)
    requires OnTable(t', pos')
  {
    pos'.At? ==> pos'.b >= b && (pos'.b == b ==> t'[b][pos'.i..] == rest)
  }

  lemma SteppedSuffix(mid: EvTable, at: Pos, t': EvTable, pos': Pos)
    requires OnTable(mid, at) && at.At? && Stepped(mid, at, t', pos') && OnTable(t', pos')
    ensures RestAhead(mid[at.b][at.i + 1..], at.b, t', pos')
  {
  }

  lemma ShiftedSuffix(t: EvTable, mid: EvTable, pos: Pos)
    requires Prepended(t, mid) && OnTable(t, pos) && pos.At?
    ensures var at := Shifted(t, mid, pos); mid[at.b][at.i + 1..] == t[pos.b][pos.i + 1..]
  {
  }

  /** After a turn in the same chain, the rest of the chain is ahead, unchanged. */
  lemma TurnSuffix(h: int -> int, st: St, k: Kind, pos: Pos, script: Script)
    requires Sized(st.db) && OnTable(st.db.Sel(k).table, pos) && pos.At?
    ensures var (st', pos') := Turn(h, st, k, pos, script);
            RestAhead(st.db.Sel(k).table[pos.b][pos.i + 1..], pos.b, st'.db.Sel(k).table, pos')
  {
    TurnStepped(h, st, k, pos, script);
    var t, mid := st.db.Sel(k).table, MidTable(h, st, k, pos, script);
    ShiftedSuffix(t, mid, pos);
    var (st', pos') := Turn(h, st, k, pos, script);
    SteppedSuffix(mid, Shifted(t, mid, pos), st'.db.Sel(k).table, pos');
  }

  /** Ahead of position pos: in the rest of its chain, or filed in a later bucket. */
  ghost predicate Ahead(h: int -> int, t: EvTable, pos: Pos, q: Pair<int, Event>)
    requires OnTable(t, pos)
  {
    pos.At? && (q in t[pos.b][pos.i..] || h(q.key) > pos.b)
  }

  lemma AheadStep(h: int -> int, t: EvTable, pos: Pos, t': EvTable, pos': Pos, q: Pair<int, Event>)
    requires TableOk(h, t') && OnTable(t, pos) && pos.At? && OnTable(t', pos') && Ahead(h, t', pos', q)
    requires pos'.b >= pos.b && (pos'.b == pos.b ==> t'[pos.b][pos'.i..] == t[pos.b][pos.i + 1..])
    ensures q in t[pos.b][pos.i + 1..] || h(q.key) > pos.b
  {
  }

  lemma FirstIsNew(h: int -> int, t: EvTable, pos: Pos, q: Pair<int, Event>)
    requires TableOk(h, t) && OnTable(t, pos) && pos.At?
    requires q in t[pos.b][pos.i + 1..] || h(q.key) > pos.b
    ensures q.key != t[pos.b][pos.i].key && Ahead(h, t, pos, q)
  {
  }

  /** No descriptor is visited twice in a pass, even if it was erased and registered again meanwhile. */
  lemma {:induction false} PassVisitsOnce(h: int -> int, st: St, k: Kind, pos: Pos, script: Script)
    requires GoodHash(h) && Inv(h, st) && ScriptOk(script) && OnTable(st.db.Sel(k).table, pos)
    ensures DistinctKeys(Handle(h, st, k, pos, script).1)
    ensures forall q | q in Handle(h, st, k, pos, script).1 :: Ahead(h, st.db.Sel(k).table, pos, q)
    decreases BucketsAhead(st.db.Sel(k).table, pos), NodesAhead(st.db.Sel(k).table, pos)
  {
    if pos.At? {
      var t := st.db.Sel(k).table;
      var p: Pair<int, Event> := t[pos.b][pos.i];
      var (st1, pos1) := Turn(h, st, k, pos, script);
      var t1 := st1.db.Sel(k).table;
      var rest := Handle(h, st1, k, pos1, script).1;
      TurnAdvances(h, st, k, pos, script);
      assert Inv(h, st1) by { TurnInv(h, st, k, pos, script); }
      assert TableOk(h, t) && TableOk(h, t1) by { TablesOk(h, st.db, k); TablesOk(h, st1.db, k); }
      PassVisitsOnce(h, st1, k, pos1, script);
      TurnSuffix(h, st, k, pos, script);
      VisitedFirst(h, t, pos, t1, pos1, rest);
      assert Handle(h, st, k, pos, script).1 == [p] + rest;
    }
  }

  /** Visiting one more pair before those that were ahead after it. */
  lemma VisitedFirst(h: int -> int, t: EvTable, pos: Pos, t': EvTable, pos': Pos, rest: seq<Pair<int, Event>>)
    requires TableOk(h, t) && TableOk(h, t') && OnTable(t, pos) && pos.At? && OnTable(t', pos')
    requires pos'.At? ==> pos'.b >= pos.b && (pos'.b == pos.b ==> t'[pos.b][pos'.i..] == t[pos.b][pos.i + 1..])
    requires DistinctKeys(rest) && forall q | q in rest :: Ahead(h, t', pos', q)
    ensures var all := [t[pos.b][pos.i]] + rest;
            DistinctKeys(all) && forall q | q in all :: Ahead(h, t, pos, q)
  {
    var p: Pair<int, Event> := t[pos.b][pos.i];
    forall q: Pair<int, Event> | q in rest
      ensures q.key != p.key && Ahead(h, t, pos, q)
    {
      AheadStep(h, t, pos, t', pos', q);
      FirstIsNew(h, t, pos, q);
    }
    assert t[pos.b][pos.i..][0] == p;
  }

  lemma TablesOk(h: int -> int, db: Db, k: Kind)
    requires DbOk(h, db)
    ensures TableOk(h, db.Sel(k).table)
  {
  }

  // ------------------------------------------------------------- passes whose callbacks leave the backend alone

  ghost predicate Quiet(script: Script) {
    forall n :: script(n).adds == []
  }

  /** The log of a pass over these pairs: for each ready one its callback, if it has one, and its
      destruction, if it is one-shot. */
  ghost function Entries(k: Kind, fds: set<int>, pairs: seq<Pair<int, Event>>): seq<Entry> {
    if pairs == [] then [] else FirstEntries(k, fds, pairs[0]) + Entries(k, fds, pairs[1..])
  }

  ghost function Staying(k: Kind, fds: set<int>, pairs: seq<Pair<int, Event>>): seq<Pair<int, Event>> {
    if pairs == [] then []
    else (if Stays(k, fds, pairs[0]) then [pairs[0]] else []) + Staying(k, fds, pairs[1..])
  }

  ghost function StayingFds(k: Kind, fds: set<int>, pairs: seq<Pair<int, Event>>): set<int> {
    if pairs == [] then fds
    else StayingFds(k, if Stays(k, fds, pairs[0]) then fds else fds - {pairs[0].key}, pairs[1..])
  }

  /** Only the bits of the pairs themselves matter. */
  lemma {:induction false} SameBits(k: Kind, fds: set<int>, fds': set<int>, pairs: seq<Pair<int, Event>>)
    requires forall p | p in pairs :: p.key in fds <==> p.key in fds'
    ensures Entries(k, fds, pairs) == Entries(k, fds', pairs)
    ensures Staying(k, fds, pairs) == Staying(k, fds', pairs)
  {
    if pairs != [] {
      assert pairs[0] in pairs;
      SameBits(k, fds, fds', pairs[1..]);
    }
  }

  lemma QuietFire(h: int -> int, st: St, k: Kind, ev: Event, script: Script)
    requires Quiet(script) && Sized(st.db)
    ensures var st1 := MayFire(h, st, k, ev, script);
            && st1.db == st.db && st1.accepted == st.accepted
            && st1.log == st.log + if Fires(k, ev) then [Call(ev, k)] else []
  {
  }

  /** One turn without additions: the log and the set. */
  lemma QuietTurn(h: int -> int, st: St, k: Kind, pos: Pos, script: Script)
    requires Quiet(script) && Sized(st.db) && OnTable(st.db.Sel(k).table, pos) && pos.At?
    ensures var (st', pos') := Turn(h, st, k, pos, script);
            var s := st.db.Sel(k);
            var p := s.table[pos.b][pos.i];
            && st'.accepted == st.accepted && st'.log == st.log + FirstEntries(k, s.fds, p)
            && (if Stays(k, s.fds, p) then st'.db == st.db && pos' == NextPos(s.table, pos)
                else st'.db == st.db.With(k, EvSet(EraseAt(s.table, pos), s.fds - {p.key}))
                     && pos' == ErasePos(s.table, pos))
  {
    var s := st.db.Sel(k);
    var p := s.table[pos.b][pos.i];
    if p.key in s.fds {
      ShiftedSame(s.table, pos);
      QuietFire(h, st, k, p.val, script);
      Assoc(st.log, if Fires(k, p.val) then [Call(p.val, k)] else [],
            if OneShot(k, p.val) then Destroyed(p.val) else []);
    } else {
      assert st.log + [] == st.log;
    }
  }

  /** One turn without additions: what lies ahead and what was passed. */
  lemma QuietTurnOrder(h: int -> int, st: St, k: Kind, pos: Pos, script: Script)
    requires Quiet(script) && Sized(st.db) && OnTable(st.db.Sel(k).table, pos) && pos.At?
    ensures var (st', pos') := Turn(h, st, k, pos, script);
            var s, s' := st.db.Sel(k), st'.db.Sel(k);
            var p := s.table[pos.b][pos.i];
            && Remaining(s.table, pos) == [p] + Remaining(s'.table, pos')
            && Passed(s'.table, pos') == Passed(s.table, pos) + if Stays(k, s.fds, p) then [p] else []
  {
    QuietTurn(h, st, k, pos, script);
    RemainingSteps(st.db.Sel(k).table, pos);
    PassedNext(st.db.Sel(k).table, pos);
    PassedErase(st.db.Sel(k).table, pos);
  }

  /** Putting one turn in front of the rest of a pass. */
  lemma {:induction false} TurnThenRest(k: Kind, fds: set<int>, p: Pair<int, Event>, rest: seq<Pair<int, Event>>,
                                        log: seq<Entry>, passed: seq<Pair<int, Event>>)
    requires forall q | q in rest :: q.key != p.key
    ensures var fds1 := if Stays(k, fds, p) then fds else fds - {p.key};
            && log + FirstEntries(k, fds, p) + Entries(k, fds1, rest) == log + Entries(k, fds, [p] + rest)
            && passed + (if Stays(k, fds, p) then [p] else []) + Staying(k, fds1, rest)
               == passed + Staying(k, fds, [p] + rest)
            && StayingFds(k, fds1, rest) == StayingFds(k, fds, [p] + rest)
  {
    var fds1 := if Stays(k, fds, p) then fds else fds - {p.key};
    SameBits(k, fds, fds1, rest);
    var all, e, s := [p] + rest, FirstEntries(k, fds, p), if Stays(k, fds, p) then [p] else [];
    assert all[0] == p && all[1..] == rest;
    Assoc(log, e, Entries(k, fds, rest));
    Assoc(passed, s, Staying(k, fds, rest));
  }

  /** What a pass over `ahead` does to the state, when nothing is added. */
  ghost predicate PassEffect(k: Kind, st: St, passed: seq<Pair<int, Event>>, ahead: seq<Pair<int, Event>>, st': St) {
    && st'.log == st.log + Entries(k, st.db.Sel(k).fds, ahead)
    && Flatten(st'.db.Sel(k).table) == passed + Staying(k, st.db.Sel(k).fds, ahead)
    && st'.db.Sel(k).fds == StayingFds(k, st.db.Sel(k).fds, ahead)
    && st'.db == st.db.With(k, st'.db.Sel(k)) && st'.accepted == st.accepted
  }

  /** A pass calls the callback of each ready pair ahead exactly once, in order, and of nothing else; it
      destroys exactly the ready one-shot events; everything else stays as it was. */
  lemma {:induction false} QuietPass(h: int -> int, st: St, k: Kind, pos: Pos, script: Script)
    requires Quiet(script) && Sized(st.db) && OnTable(st.db.Sel(k).table, pos)
    requires DistinctKeys(Remaining(st.db.Sel(k).table, pos))
    ensures PassEffect(k, st, Passed(st.db.Sel(k).table, pos), Remaining(st.db.Sel(k).table, pos),
                       Handle(h, st, k, pos, script).0)
    decreases BucketsAhead(st.db.Sel(k).table, pos), NodesAhead(st.db.Sel(k).table, pos)
  {
    var s := st.db.Sel(k);
    var ahead := Remaining(s.table, pos);
    if pos.End? {
      assert st.db.With(k, s) == st.db;
    } else {
      var p: Pair<int, Event> := s.table[pos.b][pos.i];
      var (st1, pos1) := Turn(h, st, k, pos, script);
      TurnAdvances(h, st, k, pos, script);
      QuietTurn(h, st, k, pos, script);
      QuietTurnOrder(h, st, k, pos, script);
      var s1 := st1.db.Sel(k);
      var rest := Remaining(s1.table, pos1);
      assert ahead == [p] + rest;
      DistinctTail(p, rest);
      var st2 := Handle(h, st1, k, pos1, script).0;
      assert PassEffect(k, st1, Passed(s1.table, pos1), rest, st2) by { QuietPass(h, st1, k, pos1, script); }
      TurnThenRest(k, s.fds, p, rest, st.log, Passed(s.table, pos));
      assert st2.db == st.db.With(k, st2.db.Sel(k));
    }
  }

  lemma DistinctTail(p: Pair<int, Event>, rest: seq<Pair<int, Event>>)
    requires DistinctKeys([p] + rest)
    ensures DistinctKeys(rest) && forall q | q in rest :: q.key != p.key
  {
    var all := [p] + rest;
    forall i | 0 <= i < |rest|
      ensures rest[i] == all[i + 1] && rest[i].key != p.key
    {
      assert all[0].key != all[i + 1].key;
    }
  }

  // ------------------------------------------------------------- a whole round

  /** A pass from the head of a table. */
  lemma QuietHandleAll(h: int -> int, st: St, k: Kind, script: Script)
    requires Quiet(script) && Sized(st.db) && TableOk(h, st.db.Sel(k).table)
    ensures PassEffect(k, st, [], Flatten(st.db.Sel(k).table), HandleAll(h, st, k, script))
  {
    var t := st.db.Sel(k).table;
    FirstFromPassed(t);
    FlattenDistinct(h, t, 0);
    assert t[0..] == t;
    QuietPass(h, st, k, FirstFrom(t, 0), script);
  }

  lemma EmptyHandleAll(h: int -> int, st: St, k: Kind, script: Script)
    requires Sized(st.db) && st.db.Sel(k).table == EmptyTable()
    ensures HandleAll(h, st, k, script) == st
  {
  }

  /** A round in which select reports r and w ready and callbacks leave the backend alone: each ready
      registered event is called and, if one-shot, destroyed; each table keeps exactly the rest,
      and each bit set the ready part of the rest. */
  lemma RoundExact(h: int -> int, st: St, o: Outcome, script: Script)
    requires Quiet(script) && DbOk(h, st.db) && o.Ready?
    ensures var st' := Round(h, st, o, script);
            var ins, outs := Flatten(st.db.inn.table), Flatten(st.db.out.table);
            var r, w := KeysOf(st.db.inn.table) * o.r, KeysOf(st.db.out.table) * o.w;
            && st'.log == st.log + Entries(In, r, ins) + Entries(Out, w, outs)
            && Flatten(st'.db.inn.table) == Staying(In, r, ins)
            && Flatten(st'.db.out.table) == Staying(Out, w, outs)
            && st'.db.inn.fds == StayingFds(In, r, ins) && st'.db.out.fds == StayingFds(Out, w, outs)
            && st'.accepted == st.accepted
  {
    WatchesRegistered(h, st.db, In);
    WatchesRegistered(h, st.db, Out);
    AfterSelectOk(h, st.db, o);
    var st1 := Selected(st, o);
    var st2 := HandleAll(h, st1, In, script);
    assert PassEffect(In, st1, [], Flatten(st.db.inn.table), st2) by { QuietHandleAll(h, st1, In, script); }
    assert st2.db.Sel(Out) == st1.db.Sel(Out) && st2.db.Sel(Exp) == st1.db.Sel(Exp);
    var st3 := HandleAll(h, st2, Out, script);
    assert PassEffect(Out, st2, [], Flatten(st.db.out.table), st3) by { QuietHandleAll(h, st2, Out, script); }
    assert st3.db.Sel(In) == st2.db.Sel(In) && st3.db.Sel(Exp) == st1.db.Sel(Exp);
    EmptyHandleAll(h, st3, Exp, script);
  }

  /** Reading the log of a pass: one callback for each ready event that has one, with the type of the set,
      one free for each ready one-shot event, and none for any other. */
  lemma {:induction false} EntriesMeaning(k: Kind, fds: set<int>, pairs: seq<Pair<int, Event>>, ev: Event, kind: Kind)
    requires DistinctKeys(pairs) && forall p | p in pairs :: p.key == p.val.fd
    ensures var here := Pair(ev.fd, ev) in pairs && ev.fd in fds;
            && multiset(Entries(k, fds, pairs))[Call(ev, kind)] == (if here && Fires(k, ev) && kind == k then 1 else 0)
            && Frees(Entries(k, fds, pairs), ev) == (if here && OneShot(k, ev) then 1 else 0)
  {
    if pairs != [] {
      var p, rest := pairs[0], pairs[1..];
      assert pairs == [p] + rest;
      DistinctTail(p, rest);
      EntriesMeaning(k, fds, rest, ev, kind);
      var a, b := FirstEntries(k, fds, p), Entries(k, fds, rest);
      assert multiset(a + b) == multiset(a) + multiset(b);
      FirstEntriesCount(k, fds, p, ev, kind);
    }
  }

  lemma FirstEntriesCount(k: Kind, fds: set<int>, p: Pair<int, Event>, ev: Event, kind: Kind)
    ensures var here := p.val == ev && p.key in fds;
            && multiset(FirstEntries(k, fds, p))[Call(ev, kind)] == (if here && Fires(k, ev) && kind == k then 1 else 0)
            && Frees(FirstEntries(k, fds, p), ev) == (if here && OneShot(k, ev) then 1 else 0)
  {
    var a := if p.key in fds && Fires(k, p.val) then [Call(p.val, k)] else [];
    var b := if Stays(k, fds, p) then [] else Destroyed(p.val);
    DestroyedCount(p.val, ev, kind);
    CalledCount(p.val, k, p.key in fds && Fires(k, p.val), ev, kind);
    CountSum(a, b, Call(ev, kind));
    CountSum(a, b, Free(ev));
  }

  lemma CalledCount(called: Event, k: Kind, fires: bool, ev: Event, kind: Kind)
    ensures var a := if fires then [Call(called, k)] else [];
            && multiset(a)[Call(ev, kind)] == (if fires && called == ev && kind == k then 1 else 0)
            && multiset(a)[Free(ev)] == 0
  {
  }

  lemma DestroyedCount(gone: Event, ev: Event, kind: Kind)
    ensures multiset(Destroyed(gone))[Call(ev, kind)] == 0
    ensures multiset(Destroyed(gone))[Free(ev)] == if gone == ev then 1 else 0
  {
  }
}
