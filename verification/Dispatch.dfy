/** The dispatch pass and whole runs of the select backend, as functions on values. */
module Dispatch {
  import opened Seqs
  import opened Chains
  import opened Registry

  /** What one callback does to the backend: it may add events and it may end the loop. */
  datatype Action = Action(adds: seq<Event>, exit: bool)

  /** The n-th callback of the run performs script(n). */
  type Script = nat -> Action

  /** The backend with its history: callbacks made, termination flag, events ever accepted, log. */
  datatype St = St(db: Db, calls: nat, stop: bool, accepted: multiset<Event>, log: seq<Entry>)

  function DoAdd(h: int -> int, st: St, ev: Event): (r: St)
    requires Sized(st.db)
    ensures Sized(r.db) && r.calls == st.calls && r.stop == st.stop
  {
    var st1 := st.(db := Add(h, st.db, ev).0);
    if Takes(h, st.db, ev) then st1.(accepted := st.accepted + multiset{ev}, log := st.log + [Accept(ev)]) else st1
  }

  function DoAdds(h: int -> int, st: St, evs: seq<Event>): (r: St)
    requires Sized(st.db)
    ensures Sized(r.db)
    ensures r.calls == st.calls && r.stop == st.stop && r.log == st.log + Accepts(h, st, evs)
    decreases |evs|
  {
    if evs == [] then st
    else
      var st1 := DoAdd(h, st, evs[0]);
      Assoc(st.log, if Takes(h, st.db, evs[0]) then [Accept(evs[0])] else [], Accepts(h, st1, evs[1..]));
      DoAdds(h, st1, evs[1..])
  }

  /** What a list of additions adds to the log. */
  function Accepts(h: int -> int, st: St, evs: seq<Event>): (r: seq<Entry>)
    requires Sized(st.db)
    ensures forall e | e in r :: e.Accept?
    decreases |evs|
  {
    if evs == [] then []
    else (if Takes(h, st.db, evs[0]) then [Accept(evs[0])] else []) + Accepts(h, DoAdd(h, st, evs[0]), evs[1..])
  }

  function Fires(k: Kind, ev: Event): bool {
    if k == Exp then ev.errorCb else ev.callback
  }

  /** A callback is entered. */
  function Called(st: St, k: Kind, ev: Event, exit: bool): St {
    St(st.db, st.calls + 1, st.stop || exit, st.accepted, st.log + [Call(ev, k)])
  }

  /** A callback is made and does what the script says. */
  function Fire(h: int -> int, st: St, k: Kind, ev: Event, script: Script): (r: St)
    requires Sized(st.db)
    ensures Sized(r.db) && r.log == st.log + FireEntries(h, st, k, ev, script)
    ensures r.calls == st.calls + 1 && r.stop == (st.stop || script(st.calls).exit)
  {
    var act := script(st.calls);
    DoAdds(h, Called(st, k, ev, act.exit), act.adds)
  }

  /** What a callback adds to the log: itself, then the events it adds. */
  function FireEntries(h: int -> int, st: St, k: Kind, ev: Event, script: Script): seq<Entry>
    requires Sized(st.db)
  {
    var act := script(st.calls);
    [Call(ev, k)] + Accepts(h, Called(st, k, ev, act.exit), act.adds)
  }

  /** The callback, if there is one. */
  function MayFire(h: int -> int, st: St, k: Kind, ev: Event, script: Script): (r: St)
    requires Sized(st.db)
    ensures Sized(r.db) && r.log == st.log + if Fires(k, ev) then FireEntries(h, st, k, ev, script) else []
    ensures r.calls == st.calls + (if Fires(k, ev) then 1 else 0)
    ensures r.stop == (st.stop || (Fires(k, ev) && script(st.calls).exit))
  {
    if Fires(k, ev) then Fire(h, st, k, ev, script) else st
  }

  function OneShot(k: Kind, ev: Event): bool {
    ev.evType & EV_PERSIST == 0 || (k == Exp && Fires(k, ev))
  }

  /** t' is t with pairs added in front of its chains. */
  ghost predicate Prepended(t: EvTable, t': EvTable) {
    |t| == |t'| && forall b | 0 <= b < |t| :: |t[b]| <= |t'[b]| && t'[b][|t'[b]| - |t[b]|..] == t[b]
  }

  lemma PrependPrepends(t: EvTable, b: nat, p: Pair<int, Event>)
    requires b < |t|
    ensures Prepended(t, t[b := [p] + t[b]])
  {
    assert ([p] + t[b])[1..] == t[b];
  }

  lemma PrependedRefl(t: EvTable)
    ensures Prepended(t, t)
  {
  }

  lemma AddEventPrepends(h: int -> int, s: EvSet, ev: Event)
    requires |s.table| == BUCKETS
    ensures Prepended(s.table, AddEvent(h, s, ev).0.table)
  {
    PrependedRefl(s.table);
    if Available(h(ev.fd)) {
      PrependPrepends(s.table, h(ev.fd), Pair(ev.fd, ev));
    }
  }

  lemma AddPrepends(h: int -> int, db: Db, ev: Event, k: Kind)
    requires Sized(db)
    ensures Prepended(db.Sel(k).table, Add(h, db, ev).0.Sel(k).table)
  {
    AddEventPrepends(h, db.Sel(k), ev);
    PrependedRefl(db.Sel(k).table);
  }

  lemma PrependedTrans(t: EvTable, t': EvTable, t'': EvTable)
    requires Prepended(t, t') && Prepended(t', t'')
    ensures Prepended(t, t'')
  {
  }

  lemma {:induction false} AddsPrepend(h: int -> int, st: St, evs: seq<Event>, k: Kind)
    requires Sized(st.db)
    ensures Prepended(st.db.Sel(k).table, DoAdds(h, st, evs).db.Sel(k).table)
    decreases |evs|
  {
    if evs != [] {
      var st1 := DoAdd(h, st, evs[0]);
      var t0, t1, t2 := st.db.Sel(k).table, st1.db.Sel(k).table, DoAdds(h, st, evs).db.Sel(k).table;
      assert Prepended(t0, t1) by { AddPrepends(h, st.db, evs[0], k); }
      assert Prepended(t1, t2) by { AddsPrepend(h, st1, evs[1..], k); }
      PrependedTrans(t0, t1, t2);
    }
  }

  lemma FirePrepends(h: int -> int, st: St, k: Kind, ev: Event, script: Script, j: Kind)
    requires Sized(st.db)
    ensures Prepended(st.db.Sel(j).table, MayFire(h, st, k, ev, script).db.Sel(j).table)
  {
    if Fires(k, ev) {
      var act := script(st.calls);
      AddsPrepend(h, Called(st, k, ev, act.exit), act.adds, j);
    }
  }

  /** Where the iterator's pair is after pairs were added in front of its chain. */
  function Shifted(t: EvTable, t': EvTable, pos: Pos): (p: Pos)
    requires Prepended(t, t') && OnTable(t, pos) && pos.At?
    ensures OnTable(t', p) && p.At? && p.b == pos.b
    ensures t'[p.b][p.i] == t[pos.b][pos.i] && t'[p.b][p.i..] == t[pos.b][pos.i..]
  {
    var d := |t'[pos.b]| - |t[pos.b]|;
    assert t'[pos.b][d..][pos.i] == t[pos.b][pos.i];
    assert t'[pos.b][d..][pos.i..] == t'[pos.b][d + pos.i..];
    At(pos.b, d + pos.i)
  }

  /** The pair at pos leaves its set, its bit is cleared and its event destroyed. */
  function Dropped(st: St, k: Kind, pos: Pos): (r: St)
    requires Sized(st.db) && OnTable(st.db.Sel(k).table, pos) && pos.At?
    ensures Sized(r.db) && r.log == st.log + Destroyed(st.db.Sel(k).table[pos.b][pos.i].val)
    ensures r.calls == st.calls && r.stop == st.stop && r.accepted == st.accepted
  {
    var s := st.db.Sel(k);
    var p := s.table[pos.b][pos.i];
    st.(db := st.db.With(k, EvSet(EraseAt(s.table, pos), s.fds - {p.key})), log := st.log + Destroyed(p.val))
  }

  /** The pair is still registered after it was visited. */
  predicate Stays(k: Kind, fds: set<int>, p: Pair<int, Event>) {
    !(p.key in fds && OneShot(k, p.val))
  }

  /** What one visited pair adds to the log when callbacks add nothing: its callback if it is ready and has one, and
      its destruction if it is ready and one-shot. */
  function FirstEntries(k: Kind, fds: set<int>, p: Pair<int, Event>): seq<Entry> {
    (if p.key in fds && Fires(k, p.val) then [Call(p.val, k)] else [])
    + (if Stays(k, fds, p) then [] else Destroyed(p.val))
  }

  /** What a turn adds to the log. */
  function TurnEntries(h: int -> int, st: St, k: Kind, pos: Pos, script: Script): seq<Entry>
    requires Sized(st.db) && OnTable(st.db.Sel(k).table, pos) && pos.At?
  {
    var s := st.db.Sel(k);
    var p := s.table[pos.b][pos.i];
    if p.key !in s.fds then []
    else
      (if Fires(k, p.val) then FireEntries(h, st, k, p.val, script) else [])
      + (if OneShot(k, p.val) then Destroyed(p.val) else [])
  }

  lemma AcceptsBetween(c: seq<Entry>, a: seq<Entry>, d: seq<Entry>, e: Entry)
    requires !e.Accept? && forall x | x in a :: x.Accept?
    ensures multiset(c + a + d)[e] == multiset(c + d)[e]
  {
    assert e !in a;
    CountSum(c, a, e);
    CountSum(c, d, e);
    CountSum(c + a, d, e);
  }

  /** But for the events it adds, a turn logs what it would without additions. */
  lemma TurnEntriesCount(h: int -> int, st: St, k: Kind, pos: Pos, script: Script, e: Entry)
    requires Sized(st.db) && OnTable(st.db.Sel(k).table, pos) && pos.At? && !e.Accept?
    ensures var s := st.db.Sel(k);
            multiset(TurnEntries(h, st, k, pos, script))[e] ==
            multiset(FirstEntries(k, s.fds, s.table[pos.b][pos.i]))[e]
  {
    var s := st.db.Sel(k);
    var p := s.table[pos.b][pos.i];
    if p.key in s.fds && Fires(k, p.val) {
      var act := script(st.calls);
      AcceptsBetween([Call(p.val, k)], Accepts(h, Called(st, k, p.val, act.exit), act.adds),
                     if OneShot(k, p.val) then Destroyed(p.val) else [], e);
    }
  }

  /** One turn of the loop in handle_events: the new state and where the iterator stands. */
  function Turn(h: int -> int, st: St, k: Kind, pos: Pos, script: Script): (r: (St, Pos))
    requires Sized(st.db) && OnTable(st.db.Sel(k).table, pos) && pos.At?
    ensures Sized(r.0.db) && OnTable(r.0.db.Sel(k).table, r.1)
    ensures r.0.log == st.log + TurnEntries(h, st, k, pos, script)
  {
    var s := st.db.Sel(k);
    var p := s.table[pos.b][pos.i];
    if p.key !in s.fds then (st, NextPos(s.table, pos))
    else
      var st1 := MayFire(h, st, k, p.val, script);
      var s1 := st1.db.Sel(k);
      FirePrepends(h, st, k, p.val, script, k);
      var pos1 := Shifted(s.table, s1.table, pos);
      Assoc(st.log, if Fires(k, p.val) then FireEntries(h, st, k, p.val, script) else [], Destroyed(p.val));
      if OneShot(k, p.val) then
        (Dropped(st1, k, pos1), ErasePos(s1.table, pos1))
      else (st1, NextPos(s1.table, pos1))
  }

  /** After the callback a turn only touches the set that is walked. */
  lemma TurnAfterFire(h: int -> int, st: St, k: Kind, pos: Pos, script: Script)
    requires Sized(st.db) && OnTable(st.db.Sel(k).table, pos) && pos.At?
    requires st.db.Sel(k).table[pos.b][pos.i].key in st.db.Sel(k).fds
    ensures var st0 := MayFire(h, st, k, st.db.Sel(k).table[pos.b][pos.i].val, script);
            var st1 := Turn(h, st, k, pos, script).0;
            st1.calls == st0.calls && st1.stop == st0.stop
  {
    FirePrepends(h, st, k, st.db.Sel(k).table[pos.b][pos.i].val, script, k);
  }

  /** A turn makes at most one callback, the next of the script. */
  lemma TurnCounts(h: int -> int, st: St, k: Kind, pos: Pos, script: Script)
    requires Sized(st.db) && OnTable(st.db.Sel(k).table, pos) && pos.At?
    ensures var st1 := Turn(h, st, k, pos, script).0;
            var p := st.db.Sel(k).table[pos.b][pos.i];
            var fires := p.key in st.db.Sel(k).fds && Fires(k, p.val);
            st1.calls == st.calls + (if fires then 1 else 0)
            && st1.stop == (st.stop || (fires && script(st.calls).exit))
  {
    if st.db.Sel(k).table[pos.b][pos.i].key in st.db.Sel(k).fds {
      TurnAfterFire(h, st, k, pos, script);
    }
  }

  function BucketsAhead(t: EvTable, pos: Pos): nat
    requires OnTable(t, pos)
  {
    if pos.End? then 0 else |t| - pos.b
  }

  function NodesAhead(t: EvTable, pos: Pos): nat
    requires OnTable(t, pos)
  {
    if pos.End? then 0 else |t[pos.b]| - pos.i
  }

  /** Fewer buckets ahead, or as many and fewer nodes in the current chain. */
  predicate Closer(t': EvTable, pos': Pos, t: EvTable, pos: Pos)
    requires OnTable(t', pos') && OnTable(t, pos)
  {
    BucketsAhead(t', pos') < BucketsAhead(t, pos)
    || (BucketsAhead(t', pos') == BucketsAhead(t, pos) && NodesAhead(t', pos') < NodesAhead(t, pos))
  }

  lemma StepCloser(t: EvTable, pos: Pos)
    requires OnTable(t, pos) && pos.At?
    ensures Closer(t, NextPos(t, pos), t, pos)
    ensures Closer(EraseAt(t, pos), ErasePos(t, pos), t, pos)
  {
  }

  lemma ShiftedLevel(t: EvTable, t': EvTable, pos: Pos)
    requires Prepended(t, t') && OnTable(t, pos) && pos.At?
    ensures var at := Shifted(t, t', pos);
            BucketsAhead(t', at) == BucketsAhead(t, pos) && NodesAhead(t', at) == NodesAhead(t, pos)
  {
  }

  /** Each turn uses up a node of the current chain or moves on to a later bucket: pairs that callbacks add
      to the current chain go to its front, behind the iterator. */
  lemma TurnAdvances(h: int -> int, st: St, k: Kind, pos: Pos, script: Script)
    requires Sized(st.db) && OnTable(st.db.Sel(k).table, pos) && pos.At?
    ensures var (st', pos') := Turn(h, st, k, pos, script);
            Closer(st'.db.Sel(k).table, pos', st.db.Sel(k).table, pos)
  {
    var s := st.db.Sel(k);
    var p := s.table[pos.b][pos.i];
    if p.key in s.fds {
      var t1 := MayFire(h, st, k, p.val, script).db.Sel(k).table;
      FirePrepends(h, st, k, p.val, script, k);
      ShiftedLevel(s.table, t1, pos);
      StepCloser(t1, Shifted(s.table, t1, pos));
    } else {
      StepCloser(s.table, pos);
    }
  }

  /** handle_events from a position on: the final state, the pairs visited. */
  function Handle(h: int -> int, st: St, k: Kind, pos: Pos, script: Script): (r: (St, seq<Pair<int, Event>>))
    requires Sized(st.db) && OnTable(st.db.Sel(k).table, pos)
    ensures Sized(r.0.db) && st.log <= r.0.log
    decreases BucketsAhead(st.db.Sel(k).table, pos), NodesAhead(st.db.Sel(k).table, pos)
  {
    if pos.End? then (st, [])
    else
      TurnAdvances(h, st, k, pos, script);
      var (st1, pos1) := Turn(h, st, k, pos, script);
      var (st2, rest) := Handle(h, st1, k, pos1, script);
      (st2, [st.db.Sel(k).table[pos.b][pos.i]] + rest)
  }

  function HandleAll(h: int -> int, st: St, k: Kind, script: Script): (r: St)
    requires Sized(st.db)
    ensures Sized(r.db) && st.log <= r.log
  {
    Handle(h, st, k, FirstFrom(st.db.Sel(k).table, 0), script).0
  }

  // ------------------------------------------------------------- the select loop

  /** What one call of select brings: the ready descriptors of each set, a timeout, or an error. */
  datatype Outcome = Ready(r: set<int>, w: set<int>, e: set<int>) | Timeout | Error

  function KeysIn(s: seq<Pair<int, Event>>): set<int> {
    set p | p in s :: p.key
  }

  function KeysOf(t: EvTable): set<int> {
    KeysIn(Flatten(t))
  }

  function InitFds(s: EvSet): EvSet {
    s.(fds := KeysOf(s.table))
  }

  function InitAll(db: Db): Db {
    db.(inn := InitFds(db.inn), out := InitFds(db.out), exp := InitFds(db.exp))
  }

  /** The descriptors that select looks at: bits below nfds = maxfd + 1. */
  function Watched(db: Db, k: Kind): set<int> {
    set fd | fd in db.Sel(k).fds && fd <= db.maxfd
  }

  /** select leaves in each set a part of what it watched; on a timeout nothing. */
  function AfterSelect(db: Db, o: Outcome): Db {
    match o
    case Ready(r, w, e) =>
      db.(inn := db.inn.(fds := Watched(db, In) * r),
          out := db.out.(fds := Watched(db, Out) * w),
          exp := db.exp.(fds := Watched(db, Exp) * e))
    case Timeout => db.(inn := db.inn.(fds := {}), out := db.out.(fds := {}), exp := db.exp.(fds := {}))
    case Error => db
  }

  /** The state in which the passes of a round begin. */
  function Selected(st: St, o: Outcome): (r: St)
    requires Sized(st.db)
    ensures Sized(r.db)
  {
    st.(db := AfterSelect(InitAll(st.db), o))
  }

  /** One round: rebuild the sets, call select, handle what is ready. */
  function Round(h: int -> int, st: St, o: Outcome, script: Script): (r: St)
    requires Sized(st.db)
    ensures Sized(r.db) && st.log <= r.log
  {
    var st1 := Selected(st, o);
    if o.Ready? then
      HandleAll(h, HandleAll(h, HandleAll(h, st1, In, script), Out, script), Exp, script)
    else st1
  }

  /** select_dispatch over the given outcomes of select; None when it is still waiting for the next one. */
  function Loop(h: int -> int, st: St, outcomes: seq<Outcome>, script: Script): (r: (St, Option<int>))
    requires Sized(st.db)
    ensures Sized(r.0.db)
    decreases |outcomes|
  {
    if st.stop then (st, Some(1))
    else if outcomes == [] then (st, None)
    else
      var st1 := Round(h, st, outcomes[0], script);
      if outcomes[0].Error? then (st1, Some(0)) else Loop(h, st1, outcomes[1..], script)
  }

  predicate NoError(outcomes: seq<Outcome>) {
    forall o | o in outcomes :: !o.Error?
  }

  lemma NoErrorCons(o: Outcome, rest: seq<Outcome>)
    ensures NoError([o] + rest) <==> !o.Error? && NoError(rest)
  {
  }

  /** select_dispatch returns 1 only when the loop was told to end, 0 only when select failed, and waits on only when
      neither happened; told to end beforehand, it does nothing. */
  lemma {:induction false} LoopReturns(h: int -> int, st: St, outcomes: seq<Outcome>, script: Script)
    requires Sized(st.db)
    ensures var (st', ret) := Loop(h, st, outcomes, script);
            match ret
            case None => !st'.stop && NoError(outcomes)
            case Some(r) => if r == 1 then st'.stop else r == 0 && !NoError(outcomes)
    ensures st.stop ==> Loop(h, st, outcomes, script) == (st, Some(1))
    decreases |outcomes|
  {
    if !st.stop && outcomes != [] {
      var o, rest := outcomes[0], outcomes[1..];
      assert outcomes == [o] + rest;
      NoErrorCons(o, rest);
      if !o.Error? {
        LoopReturns(h, Round(h, st, o, script), rest, script);
      }
    }
  }

  // ------------------------------------------------------------- runs

  datatype Cmd = AddEv(ev: Event) | DelEv(ev: Event) | Wait(outcomes: seq<Outcome>)

  function Deleted(h: int -> int, st: St, ev: Event): (r: St)
    requires Sized(st.db)
    ensures Sized(r.db)
  {
    var (db, _, gone) := Del(h, st.db, ev);
    st.(db := db, log := st.log + AllDestroyed(gone))
  }

  function DoCmd(h: int -> int, st: St, cmd: Cmd, script: Script): (r: St)
    requires Sized(st.db)
    ensures Sized(r.db)
  {
    match cmd
    case AddEv(ev) => DoAdd(h, st, ev)
    case DelEv(ev) => Deleted(h, st, ev)
    case Wait(outcomes) => Loop(h, st, outcomes, script).0
  }

  function RunCmds(h: int -> int, st: St, cmds: seq<Cmd>, script: Script): (r: St)
    requires Sized(st.db)
    ensures Sized(r.db)
    decreases |cmds|
  {
    if cmds == [] then st else RunCmds(h, DoCmd(h, st, cmds[0], script), cmds[1..], script)
  }

  /** select_cleanup: every event of every set is destroyed. */
  function CleanupAll(st: St): St {
    St(EmptyDb(), st.calls, st.stop, st.accepted,
       st.log + AllDestroyed(Vals(Flatten(st.db.inn.table)) + Vals(Flatten(st.db.out.table))
                                          + Vals(Flatten(st.db.exp.table))))
  }

  function Start(): St {
    St(EmptyDb(), 0, false, multiset{}, [])
  }
}
