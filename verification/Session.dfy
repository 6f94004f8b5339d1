/** The backend on the heap, from its creation to its cleanup. */
module Session {
  import opened Chains
  import opened Registry
  import opened Dispatch
  import opened History
  import opened Select
  import HashFn
  import Findings

  /** From select_init through any run to select_cleanup, with the real hash: every event that was accepted is
      freed exactly once for each time it was accepted, and so is its cleanup callback made; and nothing is called
      back, cleaned up or freed that the backend does not own at that moment. */
  method Live(cmds: seq<Cmd>, script: Script) returns (b: Backend)
    requires ScriptOk(script) && CmdsOk(cmds)
    ensures fresh(b) && b.Valid() && b.inn.ht.table == b.out.ht.table == b.exp.ht.table == EmptyTable()
    ensures forall ev :: multiset(b.log)[Accept(ev)] == b.accepted[ev] == multiset(b.log)[Free(ev)]
    ensures forall ev :: multiset(b.log)[Cleanup(ev)] == if ev.cleanupCb then b.accepted[ev] else 0
    ensures Lifecycles(b.log)
  {
    b := new Backend(HashFn.HashInt);
    StartOrdered(HashFn.HashInt);
    b.PerformAll(cmds, script);
    b.Cleanup();
    Findings.BackendFreesAll(cmds, script);
  }
}
