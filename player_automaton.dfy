/** The convergence automaton (`player_automaton`) as seen by the simulator. Its internals
    are not part of this model: its state is a bare identifier, what it does with a set is
    given by a `Behaviour`, a record of transition tables over those states, and the class
    only applies them. */
module Automata {
  import opened Representants

  datatype Status = Pending | Success | Failed

  /** The loop guard `pa_status_t::going`: neither automaton has reached a terminal status. */
  predicate Going(s1: Status, s2: Status) {
    s1 == Pending && s2 == Pending
  }

  /** An automaton state, known only by its identifier. */
  type State = nat

  /** What an automaton does, as tables over its states: the state it starts in
      from a module set, what `set_operation_kind` and `take_set` turn a state into, what
      `get_status` reports in a state and which module `get_a_module` yields there. */
  datatype Behaviour = Behaviour(
    starts: imap<seq<Module>, State>,
    kinds: imap<(State, bool), State>,
    takes: imap<(State, seq<Module>), State>,
    statuses: imap<State, Status>,
    modules: imap<State, Module>)
  {
    /** Every operation is defined for every state and argument. */
    ghost predicate Total() {
      && (forall ms: seq<Module> :: ms in starts)
      && (forall s: State, k: bool :: (s, k) in kinds)
      && (forall s: State, ms: seq<Module> :: (s, ms) in takes)
      && (forall s: State :: s in statuses)
      && (forall s: State :: s in modules)
    }

    function Start(ms: seq<Module>): State
      requires Total()
    {
      starts[ms]
    }

    function SetKind(s: State, intersection: bool): State
      requires Total()
    {
      kinds[(s, intersection)]
    }

    function TakeSet(s: State, ms: seq<Module>): State
      requires Total()
    {
      takes[(s, ms)]
    }

    function StatusOf(s: State): Status
      requires Total()
    {
      statuses[s]
    }

    function AModule(s: State): Module
      requires Total()
    {
      modules[s]
    }
  }

  class PlayerAutomaton {
    const behaviour: Behaviour
    var state: State

    constructor (b: Behaviour, modules: seq<Module>)
      requires b.Total()
      ensures behaviour == b && state == b.Start(modules)
    {
      behaviour := b;
      state := b.Start(modules);
    }

    function GetStatus(): Status
      requires behaviour.Total()
      reads this
    {
      behaviour.StatusOf(state)
    }

    /** Chooses intersection (`true`) or union for the following `TakeSet`. */
    method SetOperationKind(intersection: bool)
      requires behaviour.Total()
      modifies this
      ensures state == behaviour.SetKind(old(state), intersection)
    {
      state := behaviour.SetKind(state, intersection);
    }

    method TakeSet(modules: seq<Module>)
      requires behaviour.Total()
      modifies this
      ensures state == behaviour.TakeSet(old(state), modules)
    {
      state := behaviour.TakeSet(state, modules);
    }

    /** The module the automaton has converged on; only asked for once it reports `Success`. */
    method GetAModule() returns (m: Module)
      requires behaviour.Total() && GetStatus() == Success
      ensures m == behaviour.AModule(state)
    {
      m := behaviour.AModule(state);
    }
  }
}
