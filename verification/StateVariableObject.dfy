/** State variables as objects sharing the set of those that have submitted, proved against `StateVariables`. */
module StateVariableObjects {
  import opened StateVariables

  class Barrier {
    const numAllStateVars: nat
    var master: StateVariable?
    var submitted: set<StateVariable>

    constructor (numAllStateVars: nat)
      ensures this.numAllStateVars == numAllStateVars && master == null && submitted == {}
    {
      this.numAllStateVars := numAllStateVars;
      master, submitted := null, {};
    }

    method SetMaster(master: StateVariable)
      modifies this`master
      ensures this.master == master
    {
      this.master := master;
    }

    /** What is told again after a reset: the variables that have submitted in any order, and the master as the last. */
    method CreateReplayQuery() returns (ids: seq<StateVariable>, values: seq<string>)
      requires master != null
      ensures |ids| == |values| > 0 && ids[|ids| - 1] == master
      ensures (forall v | v in ids :: v in submitted || v == master) && (forall v | v in submitted :: v in ids)
      ensures forall i, j | 0 <= i < j < |ids| :: ids[i] != ids[j]
      ensures forall i | 0 <= i < |ids| :: values[i] == ids[i].currentState
    {
      ids, values := [], [];
      var todo := submitted;
      while todo != {}
        invariant |ids| == |values| && todo <= submitted
        invariant (forall v | v in ids :: v in submitted && v !in todo && v != master)
        invariant forall v | v in submitted :: v in todo || v in ids || v == master
        invariant forall i, j | 0 <= i < j < |ids| :: ids[i] != ids[j]
        invariant forall i | 0 <= i < |ids| :: values[i] == ids[i].currentState
        decreases todo
      {
        var v :| v in todo;
        todo := todo - {v};
        if v != master {
          ids, values := ids + [v], values + [v.currentState];
        }
      }
      forall i | 0 <= i < |ids|
        ensures ids[i] != master
      {
        assert ids[i] in ids;
      }
      ids, values := ids + [master], values + [master.currentState];
    }
  }

  class StateVariable {
    const barrier: Barrier
    var currentState: string
    var queryState: string
    var pendingState: string
    var stateQuery: bool   // a query is under way
    var sent: seq<string>  // the values sent to the device controller
    ghost var accepted: seq<string>
    ghost var healthy: bool

    ghost function View(): Var
      reads this
    {
      Var(currentState, queryState, pendingState, stateQuery, accepted, sent, healthy)
    }

    constructor (barrier: Barrier)
      ensures View() == FRESH && this.barrier == barrier
    {
      this.barrier := barrier;
      currentState, queryState, pendingState := UNKNOWN, UNKNOWN, UNKNOWN;
      stateQuery, sent, accepted, healthy := false, [], [], true;
    }

    /** Sends the pending state. */
    method StartQuery()
      modifies this
      ensures View() == Send(old(View()))
    {
      queryState := pendingState;
      sent := sent + [queryState];
      stateQuery := true;
    }

    method SetState(state: string)
      modifies this, barrier`submitted
      ensures var held := this == barrier.master && state == READY;
              && barrier.submitted == old(barrier.submitted) + (if held then {this} else {})
              && View() == if held && |barrier.submitted| != barrier.numAllStateVars then old(View()) else Accept(old(View()), state)
    {
      if this == barrier.master && state == READY {
        barrier.submitted := barrier.submitted + {this};
        if |barrier.submitted| != barrier.numAllStateVars {
          return;
        }
      }
      if state == pendingState {
        return;
      }
      pendingState := state;
      accepted := accepted + [state];
      if stateQuery {
        return;
      }
      StartQuery();
    }

    /** The reply to a query: a success counts the variable in, and lets the master be ready when it was the last. */
    method OnQueryFinish(ok: bool)
      requires barrier.master != null && barrier.master.barrier == barrier
      modifies this, barrier`submitted, barrier.master
      ensures barrier.master == old(barrier.master)
      ensures View() == Confirm(old(View()), ok)
      ensures this == barrier.master || !ok ==> barrier.submitted == old(barrier.submitted)
      ensures !ok && this != barrier.master ==> barrier.master.View() == old(barrier.master.View())
      ensures this != barrier.master && ok ==>
                var all := old(barrier.submitted) + {this};
                if |all| != barrier.numAllStateVars
                then barrier.submitted == all && barrier.master.View() == old(barrier.master.View())
                else barrier.submitted == all + {barrier.master}
                     && barrier.master.View() == if |barrier.submitted| != barrier.numAllStateVars then old(barrier.master.View())
                                                 else Accept(old(barrier.master.View()), READY)
    {
      if !ok {
        stateQuery, healthy := false, false;
        return;
      }
      currentState, healthy := queryState, true;
      stateQuery := false;
      if pendingState != currentState {
        StartQuery();
      }
      if this != barrier.master {
        barrier.submitted := barrier.submitted + {this};
        if |barrier.submitted| == barrier.numAllStateVars {
          barrier.master.SetState(READY);
        }
      }
    }
  }
}
