/** When select_del works, at any moment of any run: what the bits of the descriptor sets mean. */
module AnyTime {
  import opened Seqs
  import opened Chains
  import opened Registry
  import opened Dispatch
  import opened History
  import opened Passes
  import opened Callbacks
  import opened Rounds
  import opened Calls
  import HashRuns

  // ------------------------------------------------------------- the last call of select

  /** The last call of select in a run: the state in which its round began, and its outcome; Never if there was none. */
  datatype LastSelect = Never | Returned(before: St, o: Outcome)

  /** The last call of select when the loop returns, or waits for the next outcome; `last` is the one before it. */
  function LoopSelect(h: int -> int, st: St, outcomes: seq<Outcome>, script: Script, last: LastSelect): LastSelect
    requires Sized(st.db)
    decreases |outcomes|
  {
    if st.stop || outcomes == [] then last
    else if outcomes[0].Error? then Returned(st, outcomes[0])
    else
      LoopSelect(h, Round(h, st, outcomes[0], script), outcomes[1..], script, Returned(st, outcomes[0]))
  }

  function CmdSelect(h: int -> int, st: St, cmd: Cmd, script: Script, last: LastSelect): LastSelect
    requires Sized(st.db)
  {
    if cmd.Wait? then LoopSelect(h, st, cmd.outcomes, script, last) else last
  }

  /** The last call of select in a run. */
  function RunSelect(h: int -> int, st: St, cmds: seq<Cmd>, script: Script, last: LastSelect): LastSelect
    requires Sized(st.db)
    decreases |cmds|
  {
    if cmds == [] then last
    else
      RunSelect(h, DoCmd(h, st, cmds[0], script), cmds[1..], script, CmdSelect(h, st, cmds[0], script, last))
  }

  /** The state that this call of select left. */
  function Base(last: LastSelect): St
    requires last.Returned? ==> Sized(last.before.db)
  {
    match last
    case Never => Start()
    case Returned(before, o) => Selected(before, o)
  }

  // ------------------------------------------------------------- every command keeps track of the bits

  /** Of a set, a deletion takes out the pair of its descriptor and clears its bit, and leaves the rest. */
  lemma DelEventTracked(h: int -> int, s: EvSet, ev: Event, q: Pair<int, Event>)
    requires TableOk(h, s.table) && Holds(h, DelEvent(h, s, ev).0.table, q)
    ensures var s' := DelEvent(h, s, ev).0; Holds(h, s.table, q) && (q.key in s'.fds <==> q.key in s.fds)
  {
    if ev.fd >= 0 && ev.fd in s.fds {
      HashRuns.RemoveKeepsOk(h, s.table, ev.fd);
      HeldPair(h, Remove(h, s.table, ev.fd).table, q);
      HashRuns.RemoveLookup(h, s.table, ev.fd, q.key);
      HeldPair(h, s.table, q);
    }
  }

  lemma DelTracked(h: int -> int, k: Kind, st: St, ev: Event)
    requires DbOk(h, st.db)
    ensures Tracked(h, k, st, Deleted(h, st, ev))
  {
    var st' := Deleted(h, st, ev);
    TablesOk(h, st.db, k);
    forall q | Holds(h, st'.db.Sel(k).table, q)
      ensures TrackedPair(h, k, st, st', q)
    {
      if KindOf(ev) == Some(k) {
        DelEventTracked(h, st.db.Sel(k), ev, q);
      }
    }
  }

  /** A round, from what select left: any outcome. */
  lemma RoundTracksAny(h: int -> int, st: St, o: Outcome, script: Script, k: Kind)
    requires GoodHash(h) && Inv(h, st) && ScriptOk(script)
    ensures Tracked(h, k, Selected(st, o), Round(h, st, o, script))
  {
    if o.Ready? {
      RoundTracked(h, st, o, script, k);
    } else {
      GrewRefl(h, k, Selected(st, o));
    }
  }

  /** What is known of the last call of select. */
  ghost predicate LastOk(h: int -> int, last: LastSelect) {
    last.Returned? ==> Inv(h, last.before)
  }

  /** The bits of set k in st are explained by what the last call of select left, and by what was accepted since. */
  ghost predicate Follows(h: int -> int, k: Kind, last: LastSelect, st: St) {
    LastOk(h, last) && Tracked(h, k, Base(last), st)
  }

  lemma FollowsOn(h: int -> int, k: Kind, last: LastSelect, st: St, st': St)
    requires Follows(h, k, last, st) && Tracked(h, k, st, st')
    ensures Follows(h, k, last, st')
  {
    TrackedTrans(h, k, Base(last), st, st');
  }

  lemma RoundFollows(h: int -> int, k: Kind, st: St, o: Outcome, script: Script)
    requires GoodHash(h) && Inv(h, st) && ScriptOk(script)
    ensures Inv(h, Round(h, st, o, script)) && Follows(h, k, Returned(st, o), Round(h, st, o, script))
  {
    RoundTracksAny(h, st, o, script, k);
    RoundInv(h, st, o, script);
  }

  lemma {:induction false} LoopFollows(h: int -> int, k: Kind, st: St, outcomes: seq<Outcome>, script: Script,
                                       last: LastSelect)
    requires GoodHash(h) && Inv(h, st) && ScriptOk(script) && Follows(h, k, last, st)
    ensures Follows(h, k, LoopSelect(h, st, outcomes, script, last), Loop(h, st, outcomes, script).0)
    decreases |outcomes|
  {
    if !st.stop && outcomes != [] {
      var o := outcomes[0];
      RoundFollows(h, k, st, o, script);
      if !o.Error? {
        LoopFollows(h, k, Round(h, st, o, script), outcomes[1..], script, Returned(st, o));
      }
    }
  }

  lemma CmdFollows(h: int -> int, k: Kind, st: St, cmd: Cmd, script: Script, last: LastSelect)
    requires GoodHash(h) && Inv(h, st) && ScriptOk(script) && CmdsOk([cmd]) && Follows(h, k, last, st)
    ensures Follows(h, k, CmdSelect(h, st, cmd, script, last), DoCmd(h, st, cmd, script))
  {
    match cmd
    case AddEv(ev) =>
      assert [cmd][0].AddEv?;
      AddFollows(h, k, st, ev, last);
    case DelEv(ev) => DelFollows(h, k, st, ev, last);
    case Wait(outcomes) => LoopFollows(h, k, st, outcomes, script, last);
  }

  lemma AddFollows(h: int -> int, k: Kind, st: St, ev: Event, last: LastSelect)
    requires GoodHash(h) && Inv(h, st) && ev.fd < FD_SETSIZE && Follows(h, k, last, st)
    ensures Follows(h, k, last, DoAdd(h, st, ev))
  {
    assert Grew(h, k, st, DoAdd(h, st, ev)) by { AddTracked(h, k, st, ev); }
    FollowsOn(h, k, last, st, DoAdd(h, st, ev));
  }

  lemma DelFollows(h: int -> int, k: Kind, st: St, ev: Event, last: LastSelect)
    requires Inv(h, st) && Follows(h, k, last, st)
    ensures Follows(h, k, last, Deleted(h, st, ev))
  {
    DelTracked(h, k, st, ev);
    FollowsOn(h, k, last, st, Deleted(h, st, ev));
  }

  /** A state on the way of a run. */
  ghost predicate OnTheWay(h: int -> int, k: Kind, last: LastSelect, st: St) {
    Inv(h, st) && Follows(h, k, last, st)
  }

  lemma CmdOnTheWay(h: int -> int, k: Kind, st: St, cmd: Cmd, script: Script, last: LastSelect)
    requires GoodHash(h) && ScriptOk(script) && CmdsOk([cmd]) && Sized(st.db) && OnTheWay(h, k, last, st)
    ensures OnTheWay(h, k, CmdSelect(h, st, cmd, script, last), DoCmd(h, st, cmd, script))
  {
    CmdFollows(h, k, st, cmd, script, last);
    CmdInv(h, st, cmd, script);
  }

  /** The first command of a run, and the rest of it. */
  lemma RunStep(h: int -> int, st: St, cmds: seq<Cmd>, script: Script, last: LastSelect)
    requires Sized(st.db) && cmds != []
    ensures var st1, last1 := DoCmd(h, st, cmds[0], script), CmdSelect(h, st, cmds[0], script, last);
            RunCmds(h, st, cmds, script) == RunCmds(h, st1, cmds[1..], script)
            && RunSelect(h, st, cmds, script, last) == RunSelect(h, st1, cmds[1..], script, last1)
  {
  }

  lemma {:induction false} RunFollows(h: int -> int, k: Kind, st: St, cmds: seq<Cmd>, script: Script, last: LastSelect)
    requires GoodHash(h) && ScriptOk(script) && CmdsOk(cmds) && Sized(st.db) && OnTheWay(h, k, last, st)
    ensures OnTheWay(h, k, RunSelect(h, st, cmds, script, last), RunCmds(h, st, cmds, script))
    decreases |cmds|
  {
    if cmds != [] {
      var st1, last1 := DoCmd(h, st, cmds[0], script), CmdSelect(h, st, cmds[0], script, last);
      CmdsOkSplit(cmds);
      CmdOnTheWay(h, k, st, cmds[0], script, last);
      RunFollows(h, k, st1, cmds[1..], script, last1);
      RunStep(h, st, cmds, script, last);
    }
  }

  lemma StartFollows(h: int -> int, k: Kind)
    ensures OnTheWay(h, k, Never, Start())
  {
    StartInv(h);
    GrewRefl(h, k, Start());
  }

  lemma FromStart(h: int -> int, k: Kind, cmds: seq<Cmd>, script: Script)
    requires GoodHash(h) && ScriptOk(script) && CmdsOk(cmds)
    ensures OnTheWay(h, k, RunSelect(h, Start(), cmds, script, Never), RunCmds(h, Start(), cmds, script))
  {
    StartFollows(h, k);
    RunFollows(h, k, Start(), cmds, script, Never);
  }

  // ------------------------------------------------------------- what the bits mean

  /** Why the bit of a registered event is set in st: nothing has cleared bits yet, or the last select failed, or it
      reported the event, or the event was accepted since. */
  ghost predicate BitReason(h: int -> int, k: Kind, last: LastSelect, st: St, ev: Event)
    requires last.Returned? ==> Sized(last.before.db)
  {
    match last
    case Never => true
    case Returned(before, o) =>
      o.Error? || Joined(before, st, ev) || (o.Ready? && ReportedReady(h, before.db, k, o, ev))
  }

  /** What the last call of select left marked. */
  lemma BaseMarks(h: int -> int, k: Kind, last: LastSelect, ev: Event)
    requires LastOk(h, last) && last.Returned?
    ensures Marked(h, k, Base(last), Pair(ev.fd, ev)) <==>
            match last.o
            case Ready(_, _, _) => ReportedReady(h, last.before.db, k, last.o, ev)
            case Timeout => false
            case Error => Holds(h, Base(last).db.Sel(k).table, Pair(ev.fd, ev))
  {
    var st := last.before;
    var t, q := st.db.Sel(k).table, Pair(ev.fd, ev);
    TablesOk(h, st.db, k);
    HeldPair(h, t, q);
    match last.o
    case Ready(_, _, _) => SelectedIs(h, st, last.o, k, ev.fd);
    case Timeout =>
    case Error =>
      WatchesRegistered(h, st.db, k);
      KeysAreRegistered(h, t, ev.fd);
  }

  /** A registered event was accepted. */
  lemma AcceptedOnce(h: int -> int, k: Kind, st: St, ev: Event)
    requires Inv(h, st) && Lookup(h, st.db.Sel(k).table, ev.fd) == Some(ev)
    ensures Joined(Start(), st, ev)
  {
    RegisteredFd(h, st.db, k, ev.fd);
    HeldIsFound(h, st, k, ev);
  }

  lemma BitNever(h: int -> int, k: Kind, st: St, ev: Event)
    requires Inv(h, st) && Tracked(h, k, Start(), st) && Lookup(h, st.db.Sel(k).table, ev.fd) == Some(ev)
    ensures ev.fd in st.db.Sel(k).fds
  {
    BitSince(h, k, Start(), st, ev);
    AcceptedOnce(h, k, st, ev);
  }

  lemma BitReturned(h: int -> int, k: Kind, last: LastSelect, st: St, ev: Event)
    requires Inv(h, st) && Follows(h, k, last, st) && last.Returned? && Lookup(h, st.db.Sel(k).table, ev.fd) == Some(ev)
    ensures ev.fd in st.db.Sel(k).fds <==> BitReason(h, k, last, st, ev)
  {
    BitSince(h, k, Base(last), st, ev);
    BaseMarks(h, k, last, ev);
    HeldThen(h, k, Base(last), st, ev);
  }

  /** A registered event was registered earlier on, or joined since. */
  lemma HeldThen(h: int -> int, k: Kind, base: St, st: St, ev: Event)
    requires Tracked(h, k, base, st) && DbOk(h, st.db) && Lookup(h, st.db.Sel(k).table, ev.fd) == Some(ev)
    ensures Holds(h, base.db.Sel(k).table, Pair(ev.fd, ev)) || Joined(base, st, ev)
  {
    TablesOk(h, st.db, k);
    HeldPair(h, st.db.Sel(k).table, Pair(ev.fd, ev));
    assert TrackedPair(h, k, base, st, Pair(ev.fd, ev));
  }

  lemma BitIs(h: int -> int, k: Kind, last: LastSelect, st: St, ev: Event)
    requires Inv(h, st) && Follows(h, k, last, st) && Lookup(h, st.db.Sel(k).table, ev.fd) == Some(ev)
    ensures ev.fd in st.db.Sel(k).fds <==> BitReason(h, k, last, st, ev)
  {
    if last.Never? {
      BitNever(h, k, st, ev);
    } else {
      BitReturned(h, k, last, st, ev);
    }
  }

  /** In every reachable state the bit of a registered descriptor is set if and only if there was no call of select yet,
      or the last one failed, or it reported the event that is registered, or that event was accepted since. */
  lemma BitAnyTime(h: int -> int, cmds: seq<Cmd>, script: Script, k: Kind, ev: Event)
    requires GoodHash(h) && ScriptOk(script) && CmdsOk(cmds)
    requires Lookup(h, RunCmds(h, Start(), cmds, script).db.Sel(k).table, ev.fd) == Some(ev)
    ensures var st, last := RunCmds(h, Start(), cmds, script), RunSelect(h, Start(), cmds, script, Never);
            LastOk(h, last) && (ev.fd in st.db.Sel(k).fds <==> BitReason(h, k, last, st, ev))
  {
    FromStart(h, k, cmds, script);
    BitIs(h, k, RunSelect(h, Start(), cmds, script, Never), RunCmds(h, Start(), cmds, script), ev);
  }

  /** So select_del works, at any moment of any run, if and only if its descriptor is registered in the set that the
      type names, and the bit of the event registered there has such a reason. */
  lemma DelAnyTime(h: int -> int, cmds: seq<Cmd>, script: Script, ev: Event, k: Kind)
    requires GoodHash(h) && ScriptOk(script) && CmdsOk(cmds) && KindOf(ev) == Some(k)
    ensures var st, last := RunCmds(h, Start(), cmds, script), RunSelect(h, Start(), cmds, script, Never);
            var found := Lookup(h, st.db.Sel(k).table, ev.fd);
            LastOk(h, last)
            && (Del(h, st.db, ev).1 <==> found.Some? && BitReason(h, k, last, st, found.value))
  {
    var st, last := RunCmds(h, Start(), cmds, script), RunSelect(h, Start(), cmds, script, Never);
    var found := Lookup(h, st.db.Sel(k).table, ev.fd);
    FromStart(h, k, cmds, script);
    DelTakes(h, st.db, ev);
    RegisteredFd(h, st.db, k, ev.fd);
    if found.Some? {
      BitIs(h, k, last, st, found.value);
    }
  }
}
