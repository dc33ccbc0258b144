/** `deep_complete_simulator` and its implementation object `pimpl_t`. The implementation
    object holds the relations, the vertex list and the random stream; its position in the
    stream (`pos`) is the state of the generator that every draw advances. */
module Simulator {
  import opened Representants
  import opened Automata
  import opened Walk

  class SimulatorImpl {
    const rel: TwoRelations
    const verts: seq<Vertex>
    /** The values `lindis(rndgen)` yields, in order, for the seed this object was made with. */
    const draws: imap<nat, nat>
    /** The automaton type's behaviour. */
    const behaviour: Behaviour
    var pos: nat

    /** The relations describe one bimap each and every draw indexes the vertex list. */
    ghost predicate Valid() {
      Ready(Inputs())
    }

    function Inputs(): Context {
      Context(rel, verts, draws, behaviour)
    }

    constructor (rel: TwoRelations, verts: seq<Vertex>, draws: imap<nat, nat>, behaviour: Behaviour)
      ensures this.rel == rel && this.verts == verts && this.draws == draws && this.behaviour == behaviour
      ensures pos == 0
      ensures Valid() <==> Ready(Context(rel, verts, draws, behaviour))
    {
      this.rel := rel;
      this.verts := verts;
      this.draws := draws;
      this.behaviour := behaviour;
      pos := 0;
    }

    /** `get_modules`: the module sets of `vertex` in both clusterings, each holding exactly
        the modules whose backward range lists the vertex. */
    method GetModules(vertex: Vertex) returns (mset1: seq<Module>, mset2: seq<Module>)
      requires rel.Valid()
      ensures (mset1, mset2) == LookupModules(rel, vertex)
    {
      mset1, mset2 := [], [];
      var sets := LookupModules(rel, vertex);
      mset1, mset2 := sets.0, sets.1;
    }

    /** One value of `lindis(rndgen)`. */
    method Draw() returns (d: nat)
      requires Valid()
      modifies this
      ensures old(pos) in draws && d == draws[old(pos)] && d < |verts|
      ensures pos == old(pos) + 1
    {
      d := draws[pos];
      pos := pos + 1;
    }

    /** The body of the walk loop after the draw: the module set of the clustering the parity
        of `iv2` names is moved out (or, when empty, that of the other one), a member of one of
        its modules other than `vertex` is picked, and when there is none a singleton module of
        the other clustering completes an early result, or a member of one of its modules is
        picked instead. `rm1`, `rm2` are the module sets of `vertex`. */
    method NextHop(vertex: Vertex, rm1: seq<Module>, rm2: seq<Module>, usedVertexIndex: nat, iv2: nat)
      returns (hop: Hop)
      requires rel.Valid()
      requires (rm1, rm2) == LookupModules(rel, vertex)
      requires rm1 != [] || rm2 != []
      ensures hop == HopFrom(rel, vertex, usedVertexIndex, iv2)
    {
      ghost var s1, s2 := rm1, rm2;
      var rm1, rm2 := rm1, rm2;
      var v2first := iv2 % 2 == 1;
      var v2bms;
      if v2first {
        v2bms, rm1 := rm1, [];
      } else {
        v2bms, rm2 := rm2, [];
      }
      if v2bms == [] {
        if v2first {
          v2bms, rm2 := rm2, [];
        } else {
          v2bms, rm1 := rm1, [];
        }
        v2first := !v2first;
      }
      var iv2mod := iv2 % |v2bms|;
      var mtov := if v2first then rel.first else rel.second;
      ModuleHasMembers(mtov, vertex, v2bms[iv2mod]);
      var iverts := mtov.MembersOf(v2bms[iv2mod]);
      assert v2first == ChooseSide(s1, s2, iv2);
      assert v2bms == (if v2first then s1 else s2) && mtov == rel.Side(v2first);
      var ivt := (iv2 + usedVertexIndex) % |iverts|;
      ghost var c := PickAvoiding(iverts, iv2 + usedVertexIndex, vertex);
      // do not take the same vertex
      if iverts[ivt] == vertex {
        ivt := ivt + 1;
        if ivt == |iverts| {
          ivt := 0;
        }
        NextIndex(iverts, iv2 + usedVertexIndex, ivt);
        if iverts[ivt] == vertex {
          // a module that only holds the vertex: look for a singleton module on the other side
          assert c == vertex;
          var picked := v2bms[iv2mod];
          if v2first {
            v2bms, rm2 := rm2, [];
          } else {
            v2bms, rm1 := rm1, [];
          }
          assert v2bms == (if v2first then s2 else s1);
          if v2bms == [] {
            return Abort;
          }
          hop := OtherSideHop(vertex, v2bms, v2first, picked, usedVertexIndex, iv2);
          return;
        }
      }
      assert iverts[ivt] == c && c != vertex;
      hop := MoveTo(iverts[ivt]);
    }

    /** The second scan of the walk loop body, once the pick in module `picked` of clustering 1
        (`v2first`) or 2 stayed on `vertex`: `v2bms`, the module set of `vertex` in the other
        clustering, is searched for modules with a single member; one of them completes the
        pair, and without any the walk takes a member of one of the modules of `v2bms`. */
    method OtherSideHop(vertex: Vertex, v2bms: seq<Module>, v2first: bool, picked: Module, usedVertexIndex: nat, iv2: nat)
      returns (hop: Hop)
      requires rel.Valid()
      requires v2bms == rel.Side(!v2first).ModulesOf(vertex) && v2bms != []
      ensures hop == FromOtherSide(rel.Side(!v2first), v2bms, v2first, picked, vertex, usedVertexIndex, iv2)
    {
      var mtov2 := if v2first then rel.second else rel.first;
      var v2mods := [];
      for i := 0 to |v2bms|
        invariant v2mods == Singletons(mtov2, v2bms[..i])
      {
        assert v2bms[..i + 1][..i] == v2bms[..i];
        if |mtov2.MembersOf(v2bms[i])| == 1 {
          v2mods := v2mods + [v2bms[i]];
        }
      }
      assert v2bms[..|v2bms|] == v2bms;
      if v2mods != [] {
        var v2mod := v2mods[(iv2 + usedVertexIndex) % |v2mods|];
        if v2first {
          return Converged(picked, v2mod);
        } else {
          return Converged(v2mod, picked);
        }
      }
      // no singleton module: take another vertex from a module of the other side
      var iv2mod := iv2 % |v2bms|;
      ModuleHasMembers(mtov2, vertex, v2bms[iv2mod]);
      var iverts := mtov2.MembersOf(v2bms[iv2mod]);
      var ivt := (iv2 + usedVertexIndex) % |iverts|;
      if iverts[ivt] == vertex {
        ivt := ivt + 1;
        if ivt == |iverts| {
          ivt := 0;
        }
        NextIndex(iverts, iv2 + usedVertexIndex, ivt);
      }
      hop := MoveTo(iverts[ivt]);
    }

    /** `try_get_sample`: one attempt, from the current stream position. */
    method TryGetSample(result: SimulationResult) returns (r: SimulationResult)
      requires Valid()
      modifies this
      ensures r == Record(result, Attempt(Inputs(), old(pos)).outcome)
      ensures pos == Attempt(Inputs(), old(pos)).next
    {
      ghost var run := Attempt(Inputs(), pos);
      r := result.(importance := 1.0);
      var d := Draw();
      var vertex := verts[d];
      var rm1, rm2 := GetModules(vertex);
      if vertex == 0 && |rm1| == 0 && |rm2| == 0 {
        vertex := vertex + 1;
        rm1, rm2 := GetModules(vertex);
      }
      assert vertex == StartVertex(rel, verts[d]);
      var attempts := 2 * (|rm1| + |rm2|);
      AttemptWalk(Inputs(), pos - 1, vertex, rm1, rm2);
      var pa1 := new PlayerAutomaton(behaviour, rm1);
      var pa2 := new PlayerAutomaton(behaviour, rm2);
      var early := WalkFrom(vertex, rm1, rm2, attempts, pa1, pa2);
      if early.Found? {
        r := r.(first := early.first, second := early.second);
        return;
      }
      if pa1.GetStatus() == Success && pa2.GetStatus() == Success {
        var first := pa1.GetAModule();
        var second := pa2.GetAModule();
        r := r.(first := first, second := second);
      } else {
        r := r.(first := ResultNone, second := ResultNone);
      }
    }

    /** The walk loop of `try_get_sample`, from `vertex` with both automata started: it
        returns the pair of an immediate convergence, or `NotFound` when the loop ends (by
        abort, by a terminal status or by running out of hops) and the final check decides. */
    method WalkFrom(vertex: Vertex, rm1: seq<Module>, rm2: seq<Module>, attempts: nat,
                    pa1: PlayerAutomaton, pa2: PlayerAutomaton) returns (early: Outcome)
      requires Valid() && pa1 != pa2
      requires pa1.behaviour == behaviour && pa2.behaviour == behaviour
      requires (rm1, rm2) == LookupModules(rel, vertex)
      requires 1 < attempts ==> rm1 != [] || rm2 != []
      modifies this, pa1, pa2
      ensures var run := Loop(Inputs(), vertex, old(pa1.state), old(pa2.state), 1, attempts, old(pos));
        && pos == run.next
        && run.outcome == (if early.Found? then early else Finish(behaviour, pa1.state, pa2.state))
    {
      ghost var run := Loop(Inputs(), vertex, pa1.state, pa2.state, 1, attempts, pos);
      var vertex, rm1, rm2 := vertex, rm1, rm2;
      var usedVertexIndex := 1;
      while Going(pa1.GetStatus(), pa2.GetStatus()) && usedVertexIndex < attempts
        invariant 1 <= usedVertexIndex
        invariant (rm1, rm2) == LookupModules(rel, vertex)
        invariant usedVertexIndex < attempts ==> rm1 != [] || rm2 != []
        invariant Loop(Inputs(), vertex, pa1.state, pa2.state, usedVertexIndex, attempts, pos) == run
        decreases attempts - usedVertexIndex
      {
        ghost var p, v, a1, a2, used := pos, vertex, pa1.state, pa2.state, usedVertexIndex;
        usedVertexIndex := usedVertexIndex + 1;
        var iv2 := Draw();
        var hop := NextHop(vertex, rm1, rm2, usedVertexIndex, iv2);
        LoopStep(Inputs(), v, a1, a2, used, usedVertexIndex, attempts, p, iv2, hop);
        if hop.Abort? {
          return NotFound;
        }
        if hop.Converged? {
          return Found(hop.first, hop.second);
        }
        vertex := hop.vertex;
        rm1, rm2 := GetModules(vertex);
        var doIntersection := (iv2 + usedVertexIndex) % 2 == 1;
        Feed(pa1, pa2, doIntersection, rm1, rm2);
      }
      early := NotFound;
    }

    /** The end of a hop: both automata are told the operation kind, then take the module
        sets of the new vertex. */
    static method Feed(pa1: PlayerAutomaton, pa2: PlayerAutomaton, doIntersection: bool, rm1: seq<Module>, rm2: seq<Module>)
      requires pa1 != pa2 && pa1.behaviour.Total() && pa2.behaviour.Total()
      modifies pa1, pa2
      ensures pa1.state == pa1.behaviour.TakeSet(pa1.behaviour.SetKind(old(pa1.state), doIntersection), rm1)
      ensures pa2.state == pa2.behaviour.TakeSet(pa2.behaviour.SetKind(old(pa2.state), doIntersection), rm2)
    {
      pa1.SetOperationKind(doIntersection);
      pa2.SetOperationKind(doIntersection);
      pa1.TakeSet(rm1);
      pa2.TakeSet(rm2);
    }

    /** `get_sample`: attempts until one yields a pair, giving up with an error once the
        attempt count reaches `MaxAcceptableFailures`. */
    method GetSample() returns (res: Result<SimulationResult, Error>)
      requires Valid()
      modifies this
      ensures res == Sample(Inputs(), old(pos)).result
      ensures pos == Sample(Inputs(), old(pos)).next
    {
      ghost var spec := Sample(Inputs(), pos);
      AttemptFromTotal(Inputs());
      var result := NoneResult;
      var attemptCount := 0;
      while result.first == ResultNone
        invariant attemptCount < MaxAcceptableFailures
        invariant result.first == ResultNone ==> Retry(AttemptFrom(Inputs()), pos, attemptCount, result) == spec
        invariant result.first != ResultNone ==> spec == SampleRun(Ok(result), pos)
        decreases MaxAcceptableFailures - attemptCount
      {
        ghost var p := pos;
        result := TryGetSample(result);
        if result.first == ResultNone {
          result := result.(failedAttempts := result.failedAttempts + result.importance);
        }
        attemptCount := attemptCount + 1;
        if attemptCount >= MaxAcceptableFailures {
          return Err(SuspiciouslyFailing);
        }
      }
      res := Ok(result);
    }
  }

  /** The public handle. Its implementation object may be missing after being moved from. */
  class DeepCompleteSimulator {
    var impl: SimulatorImpl?

    /** A fresh simulator over `rel` and `verts`; `draws` is the stream the entropy-seeded
        generator will produce. */
    constructor (rel: TwoRelations, verts: seq<Vertex>, draws: imap<nat, nat>, behaviour: Behaviour)
      ensures impl != null && fresh(impl)
      ensures impl.rel == rel && impl.verts == verts && impl.draws == draws && impl.behaviour == behaviour
      ensures impl.pos == 0
      ensures impl.Valid() <==> Ready(Context(rel, verts, draws, behaviour))
    {
      impl := new SimulatorImpl(rel, verts, draws, behaviour);
    }

    /** `vertices_num`. */
    function VerticesNum(): nat
      reads this
    {
      if impl == null then 0 else |impl.verts|
    }

    /** Move assignment: this handle takes over the implementation of `source`, which is left
        without one (so a handle moved onto itself ends up empty). */
    method MoveAssign(source: DeepCompleteSimulator)
      modifies this, source
      ensures source.impl == null && source.VerticesNum() == 0
      ensures source != this ==> impl == old(source.impl) && VerticesNum() == old(source.VerticesNum())
      ensures source == this ==> impl == null
    {
      impl := source.impl;
      source.impl := null;
    }

    method GetSample() returns (res: Result<SimulationResult, Error>)
      requires impl != null && impl.Valid()
      modifies impl
      ensures res == Sample(impl.Inputs(), old(impl.pos)).result
      ensures impl.pos == Sample(impl.Inputs(), old(impl.pos)).next
    {
      res := impl.GetSample();
    }

    /** `fork`: a new handle over the same relations and vertices, with a generator of its own
        (`draws`) rather than one derived from this handle's stream. */
    method Fork(draws: imap<nat, nat>) returns (f: DeepCompleteSimulator)
      requires impl != null
      ensures fresh(f) && f.impl != null && fresh(f.impl)
      ensures f.impl.rel == impl.rel && f.impl.verts == impl.verts && f.impl.behaviour == impl.behaviour
      ensures f.impl.draws == draws && f.impl.pos == 0
      ensures f.VerticesNum() == VerticesNum()
    {
      f := new DeepCompleteSimulator(impl.rel, impl.verts, draws, impl.behaviour);
    }
  }
}
