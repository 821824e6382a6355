/**
 Deadlock freedom from a lock order: if every agent only asks for a lock that
 ranks above all those it holds, no group of agents can be waiting for each
 other. Used for the kernel's spinlocks and for the ropes of the balloon.
 */
module LockOrder {

  /** One agent: the ranks of the locks it holds, and of the one it is waiting
      for, if any. Distinct locks of equal rank are told apart by id. */
  datatype Lock = Lock(rank: nat, id: nat)

  datatype Want = Nothing | Wants(lock: Lock)

  datatype Agent = Agent(held: set<Lock>, want: Want)

  predicate Ordered(a: Agent) { a.want.Wants? ==> forall h :: h in a.held ==> h.rank < a.want.lock.rank }

  /** Every agent of the group waits for a lock that another one holds. */
  ghost predicate Deadlocked(agents: map<nat, Agent>, group: set<nat>) {
    && group != {} && group <= agents.Keys
    && forall a :: a in group ==>
         agents[a].want.Wants? && exists b :: b in group && agents[a].want.lock in agents[b].held
  }

  lemma {:induction false} HighestWanted(agents: map<nat, Agent>, group: set<nat>) returns (top: nat)
    requires group != {} && group <= agents.Keys && forall a :: a in group ==> agents[a].want.Wants?
    ensures top in group
    ensures forall a :: a in group ==> agents[a].want.lock.rank <= agents[top].want.lock.rank
    decreases |group|
  {
    var x :| x in group;
    var rest := group - {x};
    if rest == {} {
      assert group == {x};
      top := x;
    } else {
      var y := HighestWanted(agents, rest);
      assert forall a :: a in group ==> a == x || a in rest;
      top := if agents[y].want.lock.rank < agents[x].want.lock.rank then x else y;
    }
  }

  lemma NoDeadlock(agents: map<nat, Agent>, group: set<nat>)
    requires forall a :: a in agents ==> Ordered(agents[a])
    ensures !Deadlocked(agents, group)
  {
    if Deadlocked(agents, group) {
      var top := HighestWanted(agents, group);
    }
  }
}
