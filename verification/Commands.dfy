/** What each call of a run does to the registry, read as maps from descriptors to events: additions, deletions, the
    callbacks and the turns of a pass, and the loop as a sequence of rounds. */
module Commands {
  import opened Seqs
  import opened Chains
  import opened Registry
  import opened Dispatch
  import opened History
  import opened Passes
  import opened Callbacks
  import HashRuns

  /** What set k has for a descriptor: the registered event and the bit. */
  datatype View = View(event: Option<Event>, bit: bool)

  function Look(h: int -> int, db: Db, k: Kind, fd: int): View
    requires Sized(db)
  {
    View(Lookup(h, db.Sel(k).table, fd), fd in db.Sel(k).fds)
  }

  /** The event is for set k and descriptor fd: an odd type for the read set, one that is 2 modulo 4 for the write
      set. */
  predicate For(ev: Event, k: Kind, fd: int) {
    ev.fd == fd && fd >= 0 && ((k == In && ev.evType % 2 == 1) || (k == Out && ev.evType % 4 == 2))
  }

  /** A descriptor is taken by the first event that comes for it, and keeps that one. */
  function Taken(slot: View, evs: seq<Event>, k: Kind, fd: int): View {
    var i := FirstIndex(evs, (ev: Event) => For(ev, k, fd));
    if slot.event == None && i < |evs| then View(Some(evs[i]), true) else slot
  }

  // ------------------------------------------------------------- additions

  lemma DoAddExact(h: int -> int, st: St, ev: Event, k: Kind, fd: int)
    requires GoodHash(h) && DbOk(h, st.db) && ev.fd < FD_SETSIZE
    ensures Look(h, DoAdd(h, st, ev).db, k, fd) ==
            if For(ev, k, fd) && Look(h, st.db, k, fd).event == None then View(Some(ev), true)
            else Look(h, st.db, k, fd)
  {
    AddExact(h, st.db, ev, k, fd);
  }

  lemma {:induction false} TakenCons(slot: View, evs: seq<Event>, k: Kind, fd: int)
    requires evs != []
    ensures Taken(slot, evs, k, fd) ==
            Taken(if For(evs[0], k, fd) && slot.event == None then View(Some(evs[0]), true) else slot,
                  evs[1..], k, fd)
  {
  }

  /** A list of additions: every free descriptor goes to the first event that is for it. */
  lemma {:induction false} AddsExact(h: int -> int, st: St, evs: seq<Event>, k: Kind, fd: int)
    requires GoodHash(h) && Inv(h, st) && FdsInRange(evs)
    ensures Look(h, DoAdds(h, st, evs).db, k, fd) == Taken(Look(h, st.db, k, fd), evs, k, fd)
    decreases |evs|
  {
    if evs != [] {
      var st1 := DoAdd(h, st, evs[0]);
      assert Inv(h, st1) by { DoAddInv(h, st, evs[0]); }
      DoAddExact(h, st, evs[0], k, fd);
      AddsExact(h, st1, evs[1..], k, fd);
      TakenCons(Look(h, st.db, k, fd), evs, k, fd);
    }
  }

  // ------------------------------------------------------------- turns

  /** One-shot, in numbers: the bit 4 of the type is clear. */
  lemma OneShotExact(k: Kind, ev: Event)
    requires k != Exp
    ensures OneShot(k, ev) <==> ev.evType / 4 % 2 == 0
    ensures Fires(k, ev) <==> ev.callback
  {
  }

  /** A callback is entered, adds what the script says at its number, and ends the loop if the script says so. */
  lemma FireExact(h: int -> int, st: St, j: Kind, ev: Event, script: Script, k: Kind, fd: int)
    requires GoodHash(h) && Inv(h, st) && ScriptOk(script) && Held(st.db)[ev] >= 1 && j != Exp
    ensures var st' := MayFire(h, st, j, ev, script);
            && Look(h, st'.db, k, fd) ==
                 Taken(Look(h, st.db, k, fd), if ev.callback then script(st.calls).adds else [], k, fd)
            && (ev.callback ==> st.log + [Call(ev, j)] <= st'.log)
            && st'.calls == st.calls + (if ev.callback then 1 else 0)
            && st'.stop == (st.stop || (ev.callback && script(st.calls).exit))
  {
    OneShotExact(j, ev);
    if ev.callback {
      var act := script(st.calls);
      CallInv(h, st, j, ev, act.exit);
      AddsExact(h, Called(st, j, ev, act.exit), act.adds, k, fd);
    }
  }

  lemma DropExact(h: int -> int, st: St, k: Kind, pos: Pos, j: Kind, fd: int)
    requires DbOk(h, st.db) && OnTable(st.db.Sel(k).table, pos) && pos.At?
    ensures Look(h, Dropped(st, k, pos).db, j, fd) ==
            if j == k && fd == st.db.Sel(k).table[pos.b][pos.i].key then View(None, false) else Look(h, st.db, j, fd)
  {
    var t := st.db.Sel(k).table;
    EraseIsRemoveHere(h, t, pos);
    HashRuns.RemoveLookup(h, t, t[pos.b][pos.i].key, fd);
  }

  lemma ServeExact(h: int -> int, st: St, k: Kind, pos: Pos, script: Script, j: Kind, fd: int)
    requires GoodHash(h) && Inv(h, st) && ScriptOk(script) && OnTable(st.db.Sel(k).table, pos) && pos.At? && k != Exp
    requires st.db.Sel(k).table[pos.b][pos.i].key in st.db.Sel(k).fds
    ensures var p := st.db.Sel(k).table[pos.b][pos.i];
            Look(h, Turn(h, st, k, pos, script).0.db, j, fd) ==
            if OneShot(k, p.val) && j == k && fd == p.key then View(None, false)
            else Look(h, MayFire(h, st, k, p.val, script).db, j, fd)
  {
    var t: EvTable := st.db.Sel(k).table;
    var ev := t[pos.b][pos.i].val;
    var st1 := MayFire(h, st, k, ev, script);
    FirePrepends(h, st, k, ev, script, k);
    if OneShot(k, ev) {
      AtIsHeld(t, pos);
      assert Inv(h, st1) by { FireInv(h, st, k, ev, script); }
      DropExact(h, st1, k, Shifted(t, st1.db.Sel(k).table, pos), j, fd);
    }
  }

  /** A turn leaves a pair alone whose bit is clear. Otherwise it makes the callback, if there is one, with the script's
      next additions, and then takes the pair out, bit and all, if its event is one-shot. */
  lemma TurnExact(h: int -> int, st: St, k: Kind, pos: Pos, script: Script, j: Kind, fd: int)
    requires GoodHash(h) && Inv(h, st) && ScriptOk(script) && OnTable(st.db.Sel(k).table, pos) && pos.At?
    ensures var p := st.db.Sel(k).table[pos.b][pos.i];
            var ready := p.key in st.db.Sel(k).fds;
            var adds := if ready && p.val.callback then script(st.calls).adds else [];
            Look(h, Turn(h, st, k, pos, script).0.db, j, fd) ==
            if ready && p.val.evType / 4 % 2 == 0 && j == k && fd == p.key then View(None, false)
            else Taken(Look(h, st.db, j, fd), adds, j, fd)
  {
    var s := st.db.Sel(k);
    var p := s.table[pos.b][pos.i];
    assert k != Exp by { PairAt(h, st.db, k, pos); }
    OneShotExact(k, p.val);
    if p.key in s.fds {
      AtIsHeld(s.table, pos);
      FireExact(h, st, k, p.val, script, j, fd);
      ServeExact(h, st, k, pos, script, j, fd);
    }
  }

  // ------------------------------------------------------------- the loop

  /** A round in which select reports nothing makes no callback and leaves every registration alone. After a timeout
      every bit is clear, after an error the bits are those of the registered descriptors. */
  lemma IdleRound(h: int -> int, st: St, o: Outcome, script: Script, k: Kind, fd: int)
    requires Inv(h, st) && !o.Ready?
    ensures var st' := Round(h, st, o, script);
            var event := Look(h, st.db, k, fd).event;
            && Look(h, st'.db, k, fd) == View(event, o.Error? && event.Some?)
            && st' == st.(db := st'.db) && st'.db.maxfd == st.db.maxfd
  {
    WatchesRegistered(h, st.db, k);
    TablesOk(h, st.db, k);
    KeysAreRegistered(h, st.db.Sel(k).table, fd);
  }

  /** The loop as its rounds: it begins one when it was not told to end, the last select did not fail, and there is an
      outcome to be had; and it does not stop before. */
  ghost predicate Waits(h: int -> int, outcomes: seq<Outcome>, script: Script, states: seq<St>) {
    && 0 < |states| <= |outcomes| + 1
    && (forall i | 0 <= i < |states| :: Sized(states[i].db))
    && (forall i | 0 <= i < |states| - 1 :: NextRound(h, outcomes, script, states, i))
    && !GoesOn(outcomes, states, |states| - 1)
  }

  ghost predicate NextRound(h: int -> int, outcomes: seq<Outcome>, script: Script, states: seq<St>, i: nat)
    requires i + 1 < |states| <= |outcomes| + 1 && Sized(states[i].db)
  {
    GoesOn(outcomes, states, i) && states[i + 1] == Round(h, states[i], outcomes[i], script)
  }

  predicate GoesOn(outcomes: seq<Outcome>, states: seq<St>, i: nat)
    requires i < |states| <= |outcomes| + 1
  {
    !states[i].stop && i < |outcomes| && (i > 0 ==> !outcomes[i - 1].Error?)
  }

  /** The loop ends in the last of these states; it returns 1 if it was told to end, 0 if select failed before. */
  lemma {:induction false} LoopIsRounds(h: int -> int, st: St, outcomes: seq<Outcome>, script: Script)
    returns (states: seq<St>)
    requires Sized(st.db)
    ensures Waits(h, outcomes, script, states) && states[0] == st
    ensures forall i | 0 <= i < |states| - 1 ::
              states[i + 1] == Round(h, states[i], outcomes[i], script) && !states[i].stop
    ensures var last := states[|states| - 1];
            Loop(h, st, outcomes, script) ==
            (last, if |states| > 1 && outcomes[|states| - 2].Error? then Some(0)
                   else if last.stop then Some(1) else None)
    decreases |outcomes|
  {
    if st.stop || outcomes == [] {
      states := [st];
    } else {
      var st1 := Round(h, st, outcomes[0], script);
      if outcomes[0].Error? {
        states := [st, st1];
      } else {
        var rest := LoopIsRounds(h, st1, outcomes[1..], script);
        states := [st] + rest;
        WaitsCons(h, st, outcomes, script, rest);
      }
    }
  }

  lemma WaitsCons(h: int -> int, st: St, outcomes: seq<Outcome>, script: Script, rest: seq<St>)
    requires Sized(st.db) && outcomes != [] && !st.stop && !outcomes[0].Error?
    requires Waits(h, outcomes[1..], script, rest) && rest[0] == Round(h, st, outcomes[0], script)
    ensures Waits(h, outcomes, script, [st] + rest)
  {
    var states := [st] + rest;
    forall i | 0 <= i < |states| - 1
      ensures NextRound(h, outcomes, script, states, i)
    {
      if i > 0 {
        assert NextRound(h, outcomes[1..], script, rest, i - 1);
        GoesOnLater(outcomes, st, rest, i - 1);
      }
    }
    GoesOnLater(outcomes, st, rest, |rest| - 1);
  }

  lemma GoesOnLater(outcomes: seq<Outcome>, st: St, rest: seq<St>, i: nat)
    requires outcomes != [] && !outcomes[0].Error? && i < |rest| <= |outcomes|
    ensures GoesOn(outcomes, [st] + rest, i + 1) == GoesOn(outcomes[1..], rest, i)
  {
  }

  // ------------------------------------------------------------- runs

  ghost predicate LooksAdded(h: int -> int, st: St, ev: Event, st': St, k: Kind, fd: int)
    requires Sized(st.db) && Sized(st'.db)
  {
    var slot := Look(h, st.db, k, fd);
    Look(h, st'.db, k, fd) == if For(ev, k, fd) && slot.event == None then View(Some(ev), true) else slot
  }

  ghost predicate LooksDeleted(h: int -> int, st: St, ev: Event, st': St, k: Kind, fd: int)
    requires Sized(st.db) && Sized(st'.db)
  {
    var slot := Look(h, st.db, k, fd);
    Look(h, st'.db, k, fd) == if For(ev, k, fd) && slot.bit then View(None, false) else slot
  }

  /** What a command must do: an addition takes its descriptor if it is free, a deletion frees it if its bit is set, a
      dispatch is a sequence of rounds. */
  ghost predicate Means(h: int -> int, st: St, cmd: Cmd, script: Script, st': St)
    requires Sized(st.db) && Sized(st'.db)
  {
    match cmd
    case AddEv(ev) => forall k, fd :: LooksAdded(h, st, ev, st', k, fd)
    case DelEv(ev) => forall k, fd :: LooksDeleted(h, st, ev, st', k, fd)
    case Wait(outcomes) => exists states ::
        Waits(h, outcomes, script, states) && states[0] == st && states[|states| - 1] == st'
  }

  lemma AddMeans(h: int -> int, st: St, ev: Event, script: Script)
    requires GoodHash(h) && Inv(h, st) && ev.fd < FD_SETSIZE
    ensures Means(h, st, AddEv(ev), script, DoAdd(h, st, ev))
  {
    forall k, fd
      ensures LooksAdded(h, st, ev, DoAdd(h, st, ev), k, fd)
    {
      DoAddExact(h, st, ev, k, fd);
    }
  }

  lemma DelMeans(h: int -> int, st: St, ev: Event, script: Script)
    requires Inv(h, st)
    ensures Means(h, st, DelEv(ev), script, Deleted(h, st, ev))
  {
    forall k, fd
      ensures LooksDeleted(h, st, ev, Deleted(h, st, ev), k, fd)
    {
      DelExact(h, st.db, ev, k, fd);
    }
  }

  lemma CmdMeans(h: int -> int, st: St, cmd: Cmd, script: Script)
    requires GoodHash(h) && Inv(h, st) && CmdsOk([cmd])
    ensures Means(h, st, cmd, script, DoCmd(h, st, cmd, script))
  {
    match cmd
    case AddEv(ev) =>
      assert [cmd][0].AddEv?;
      AddMeans(h, st, ev, script);
    case DelEv(ev) => DelMeans(h, st, ev, script);
    case Wait(outcomes) => var states := LoopIsRounds(h, st, outcomes, script);
  }

  /** The commands, each doing what it must, lead from st to st'. */
  ghost predicate Leads(h: int -> int, st: St, cmds: seq<Cmd>, script: Script, st': St)
    requires Sized(st.db)
    decreases |cmds|
  {
    if cmds == [] then st' == st
    else exists st1: St ::
      Sized(st1.db) && Means(h, st, cmds[0], script, st1) && Leads(h, st1, cmds[1..], script, st')
  }

  lemma {:induction false} RunLeads(h: int -> int, st: St, cmds: seq<Cmd>, script: Script)
    requires GoodHash(h) && Inv(h, st) && ScriptOk(script) && CmdsOk(cmds)
    ensures Leads(h, st, cmds, script, RunCmds(h, st, cmds, script))
    decreases |cmds|
  {
    if cmds != [] {
      CmdsOkSplit(cmds);
      var st1 := DoCmd(h, st, cmds[0], script);
      assert Inv(h, st1) by { CmdInv(h, st, cmds[0], script); }
      CmdMeans(h, st, cmds[0], script);
      RunLeads(h, st1, cmds[1..], script);
    }
  }

  /** Every run from the start begins with an empty registry, and each of its commands does what it must. */
  lemma RunMeans(h: int -> int, cmds: seq<Cmd>, script: Script)
    requires GoodHash(h) && ScriptOk(script) && CmdsOk(cmds)
    ensures forall k, fd :: Look(h, Start().db, k, fd) == View(None, false)
    ensures Start().calls == 0 && !Start().stop && Start().log == []
    ensures Leads(h, Start(), cmds, script, RunCmds(h, Start(), cmds, script))
  {
    assert Inv(h, Start()) by { StartInv(h); }
    RunLeads(h, Start(), cmds, script);
    forall k, fd
      ensures Look(h, Start().db, k, fd) == View(None, false)
    {
      StartEmpty(h, k, fd);
    }
  }

  lemma StartEmpty(h: int -> int, k: Kind, fd: int)
    ensures Look(h, Start().db, k, fd) == View(None, false)
  {
  }
}
