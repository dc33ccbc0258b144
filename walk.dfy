/** The sampling walk of `deep_complete_simulator` as functions of its inputs: the relations,
    the vertex list, the stream of uniform draws (`draws[n]` is the n-th value of
    `lindis(rndgen)`) and the automaton behaviour. One attempt (`try_get_sample`) is `Attempt`,
    the retry driver (`get_sample`) is `Sample`; the imperative methods of the simulator are
    proved equal to them. */
module Walk {
  import opened Representants
  import opened Automata

  /** `RESULT_NONE`, the size_t value -1. */
  const ResultNone: nat := 0xFFFF_FFFF_FFFF_FFFF
  /** `MAX_ACCEPTABLE_FAILURES`. */
  const MaxAcceptableFailures: nat := 1024

  datatype Error = SuspiciouslyFailing  // the domain_error thrown by get_sample
  datatype Result<T, E> = Ok(value: T) | Err(error: E)

  /** Everything an attempt reads: `verts` is indexed by the draws, which all lie below |verts|. */
  datatype Context = Context(rel: TwoRelations, verts: seq<Vertex>, draws: imap<nat, nat>, behaviour: Behaviour)

  ghost predicate DrawsInRange(ctx: Context) {
    forall n: nat :: n in ctx.draws && ctx.draws[n] < |ctx.verts|
  }

  /** The inputs an attempt can run on: consistent relations, total automaton tables and
      draws that index the vertex list. */
  ghost predicate Ready(ctx: Context) {
    ctx.rel.Valid() && ctx.behaviour.Total() && DrawsInRange(ctx)
  }

  /** `simulation_result_t`: a module pair (or RESULT_NONE), the importance of the attempt
      that produced it and the weight of the failed attempts before it. */
  datatype SimulationResult = SimulationResult(first: Module, second: Module, importance: real, failedAttempts: real)

  const NoneResult := SimulationResult(ResultNone, ResultNone, 1.0, 0.0)

  // ---------------------------------------------------------------------------------------
  // Choices made inside one hop

  /** The start vertex for a drawn vertex: vertex 0 with no module in either clustering is
      taken for an artifact of 1-based numbering and replaced by vertex 1. */
  function StartVertex(rel: TwoRelations, drawn: Vertex): (v: Vertex)
    ensures v == drawn <==> !(drawn == 0 && LookupModules(rel, 0) == ([], []))
    ensures v != drawn ==> v == 1
  {
    if drawn == 0 && rel.first.ModulesOf(0) == [] && rel.second.ModulesOf(0) == [] then drawn + 1 else drawn
  }

  /** Which clustering supplies the next module (`true` for clustering 1): the one the parity
      of the draw names, or the other one when that set is empty. */
  function ChooseSide(s1: seq<Module>, s2: seq<Module>, iv2: nat): (isFirst: bool)
    requires s1 != [] || s2 != []
    ensures (if isFirst then s1 else s2) != []
    ensures isFirst == (iv2 % 2 == 1) <==> (if iv2 % 2 == 1 then s1 else s2) != []
  {
    var parity := iv2 % 2 == 1;
    if (if parity then s1 else s2) != [] then parity else !parity
  }

  /** The member of a non-empty range at offset `k`, or, when that member is `origin`, the
      next one (wrapping to the start). */
  function PickAvoiding(r: seq<Vertex>, k: nat, origin: Vertex): (c: Vertex)
    requires |r| > 0
    ensures c in r
    ensures r[k % |r|] != origin ==> c == r[k % |r|]
    ensures r[k % |r|] == origin ==> c == r[(k % |r| + 1) % |r|]
    ensures c == origin <==> r[k % |r|] == origin && r[(k % |r| + 1) % |r|] == origin
  {
    var i := k % |r|;
    if r[i] != origin then r[i] else r[(i + 1) % |r|]
  }

  /** Stepping an iterator past `r[k % |r|]` and wrapping at the end lands on the index
      `PickAvoiding` falls back to. */
  lemma {:induction false} NextIndex(r: seq<Vertex>, k: nat, j: nat)
    requires |r| > 0
    requires j == if k % |r| + 1 == |r| then 0 else k % |r| + 1
    ensures j == (k % |r| + 1) % |r|
  {
  }

  /** In a duplicate-free range the pick stays on the origin exactly when the range is the
      origin alone. */
  lemma {:induction false} SelfLoopOnlyOnSingleton(r: seq<Vertex>, k: nat, origin: Vertex)
    requires |r| > 0 && Distinct(r)
    ensures PickAvoiding(r, k, origin) == origin <==> r == [origin]
  {
    var i := k % |r|;
    if |r| >= 2 {
      var j := (i + 1) % |r|;
      assert j == if i + 1 < |r| then i + 1 else 0;
      assert i != j;
      assert r[i] != r[j];
    }
  }

  /** The modules of `ms`, in order, whose backward range in `c` has exactly one member. */
  function Singletons(c: Clustering, ms: seq<Module>): (r: seq<Module>)
    ensures forall m: Module :: m in r <==> m in ms && |c.MembersOf(m)| == 1
    ensures |r| <= |ms|
  {
    if ms == [] then []
    else
      var last := ms[|ms| - 1];
      Singletons(c, ms[..|ms| - 1]) + (if |c.MembersOf(last)| == 1 then [last] else [])
  }

  // ---------------------------------------------------------------------------------------
  // One hop of the walk

  datatype Hop = MoveTo(vertex: Vertex) | Converged(first: Module, second: Module) | Abort

  /** Where the walk goes from vertex `v` on hop number `u` with draw `iv2`: on to a member
      of one of the modules of `v`, to an immediate result made of a module that only holds
      `v` and a singleton module of the other clustering, or nowhere. */
  function HopFrom(rel: TwoRelations, v: Vertex, u: nat, iv2: nat): (h: Hop)
    requires rel.Valid()
    requires rel.first.ModulesOf(v) != [] || rel.second.ModulesOf(v) != []
    ensures h.MoveTo? ==> rel.first.ModulesOf(h.vertex) != [] || rel.second.ModulesOf(h.vertex) != []
  {
    var s1, s2 := rel.first.ModulesOf(v), rel.second.ModulesOf(v);
    var isFirst := ChooseSide(s1, s2, iv2);
    var bms := if isFirst then s1 else s2;
    var m := bms[iv2 % |bms|];
    ModuleHasMembers(rel.Side(isFirst), v, m);
    var c := PickAvoiding(rel.Side(isFirst).MembersOf(m), iv2 + u, v);
    if c != v then
      MemberHasModule(rel.Side(isFirst), m, c);
      MoveTo(c)
    else
      FromOtherSide(rel.Side(!isFirst), if isFirst then s2 else s1, isFirst, m, v, u, iv2)
  }

  /** The rest of a hop once the pick in module `m` of clustering 1 (`isFirst`) or 2 stayed on
      `v`: `other` is the module set of `v` in the other clustering, whose relation is
      `otherRel`. With no module there the hop gives up; a singleton module there completes
      the pair with `m`; otherwise the walk moves on to a member of one of those modules. */
  function FromOtherSide(otherRel: Clustering, other: seq<Module>, isFirst: bool, m: Module, v: Vertex, u: nat, iv2: nat): (h: Hop)
    requires otherRel.Valid()
    requires other == otherRel.ModulesOf(v)
    ensures h.MoveTo? ==> otherRel.ModulesOf(h.vertex) != []
  {
    if other == [] then Abort
    else
      var singles := Singletons(otherRel, other);
      if singles != [] then
        var m2 := singles[(iv2 + u) % |singles|];
        if isFirst then Converged(m, m2) else Converged(m2, m)
      else
        var m' := other[iv2 % |other|];
        ModuleHasMembers(otherRel, v, m');
        var c' := PickAvoiding(otherRel.MembersOf(m'), iv2 + u, v);
        MemberHasModule(otherRel, m', c');
        MoveTo(c')
  }

  /** A hop that moves lands on a member of a module of the current vertex, in the clustering
      that module belongs to. */
  lemma {:induction false} HopTarget(rel: TwoRelations, v: Vertex, u: nat, iv2: nat)
    requires rel.Valid()
    requires rel.first.ModulesOf(v) != [] || rel.second.ModulesOf(v) != []
    requires HopFrom(rel, v, u, iv2).MoveTo?
    ensures var w := HopFrom(rel, v, u, iv2).vertex;
      exists isFirst: bool, m :: m in rel.Side(isFirst).ModulesOf(v) && w in rel.Side(isFirst).MembersOf(m)
  {
    var s1, s2 := rel.first.ModulesOf(v), rel.second.ModulesOf(v);
    var isFirst := ChooseSide(s1, s2, iv2);
    var bms := if isFirst then s1 else s2;
    var m := bms[iv2 % |bms|];
    var c := PickAvoiding(rel.Side(isFirst).MembersOf(m), iv2 + u, v);
    if c == v {
      var other := if isFirst then s2 else s1;
      var m' := other[iv2 % |other|];
      assert m' in rel.Side(!isFirst).ModulesOf(v);
    }
  }

  /** When no backward range repeats a vertex, a hop that moves never stays on the current
      vertex (the debug check after the second scan). */
  lemma {:induction false} HopLeavesVertex(rel: TwoRelations, v: Vertex, u: nat, iv2: nat)
    requires rel.Valid() && rel.first.DistinctRanges() && rel.second.DistinctRanges()
    requires rel.first.ModulesOf(v) != [] || rel.second.ModulesOf(v) != []
    requires HopFrom(rel, v, u, iv2).MoveTo?
    ensures HopFrom(rel, v, u, iv2).vertex != v
  {
    var s1, s2 := rel.first.ModulesOf(v), rel.second.ModulesOf(v);
    var isFirst := ChooseSide(s1, s2, iv2);
    var bms := if isFirst then s1 else s2;
    var m := bms[iv2 % |bms|];
    var c := PickAvoiding(rel.Side(isFirst).MembersOf(m), iv2 + u, v);
    if c == v {
      OtherSideLeaves(rel.Side(!isFirst), if isFirst then s2 else s1, isFirst, m, v, u, iv2);
    }
  }

  /** The second scan only moves through a module with at least two members, so with no
      repeated member its pick avoids the current vertex. */
  lemma {:induction false} OtherSideLeaves(otherRel: Clustering, other: seq<Module>, isFirst: bool, m: Module, v: Vertex, u: nat, iv2: nat)
    requires otherRel.Valid() && otherRel.DistinctRanges()
    requires other == otherRel.ModulesOf(v)
    requires FromOtherSide(otherRel, other, isFirst, m, v, u, iv2).MoveTo?
    ensures FromOtherSide(otherRel, other, isFirst, m, v, u, iv2).vertex != v
  {
    var m' := other[iv2 % |other|];
    ModuleHasMembers(otherRel, v, m');
    var r := otherRel.MembersOf(m');
    assert m' !in Singletons(otherRel, other);
    assert m' in otherRel.backward;
    SelfLoopOnlyOnSingleton(r, iv2 + u, v);
  }

  /** The early result: the module taken first belongs to the parity side (no fallback
      happened), only holds the current vertex as far as the pick can see, and is paired with
      the singleton module picked from the other clustering; clustering 1 comes first. */
  lemma {:induction false} ConvergedOrientation(rel: TwoRelations, v: Vertex, u: nat, iv2: nat)
    requires rel.Valid()
    requires rel.first.ModulesOf(v) != [] || rel.second.ModulesOf(v) != []
    requires HopFrom(rel, v, u, iv2).Converged?
    ensures var h := HopFrom(rel, v, u, iv2);
      && h.first in rel.first.ModulesOf(v) && h.second in rel.second.ModulesOf(v)
      && (iv2 % 2 == 1 ==>
            && h.first == rel.first.ModulesOf(v)[iv2 % |rel.first.ModulesOf(v)|]
            && PickAvoiding(rel.first.MembersOf(h.first), iv2 + u, v) == v
            && |rel.second.MembersOf(h.second)| == 1
            && var singles := Singletons(rel.second, rel.second.ModulesOf(v));
               h.second == singles[(iv2 + u) % |singles|])
      && (iv2 % 2 == 0 ==>
            && h.second == rel.second.ModulesOf(v)[iv2 % |rel.second.ModulesOf(v)|]
            && PickAvoiding(rel.second.MembersOf(h.second), iv2 + u, v) == v
            && |rel.first.MembersOf(h.first)| == 1
            && var singles := Singletons(rel.first, rel.first.ModulesOf(v));
               h.first == singles[(iv2 + u) % |singles|])
  {
    var s1, s2 := rel.first.ModulesOf(v), rel.second.ModulesOf(v);
    var isFirst := ChooseSide(s1, s2, iv2);
    assert isFirst == (iv2 % 2 == 1);
    var other := if isFirst then s2 else s1;
    var singles := Singletons(rel.Side(!isFirst), other);
    assert singles[(iv2 + u) % |singles|] in singles;
  }

  /** A hop gives up exactly when the picked member is the current vertex and the module set
      of the other clustering is empty, which is always so after the fallback. */
  lemma {:induction false} AbortExactly(rel: TwoRelations, v: Vertex, u: nat, iv2: nat)
    requires rel.Valid()
    requires rel.first.ModulesOf(v) != [] || rel.second.ModulesOf(v) != []
    ensures var s1, s2 := rel.first.ModulesOf(v), rel.second.ModulesOf(v);
      var isFirst := ChooseSide(s1, s2, iv2);
      var bms := if isFirst then s1 else s2;
      |rel.Side(isFirst).MembersOf(bms[iv2 % |bms|])| > 0
    ensures var s1, s2 := rel.first.ModulesOf(v), rel.second.ModulesOf(v);
      var isFirst := ChooseSide(s1, s2, iv2);
      var bms := if isFirst then s1 else s2;
      var stays := PickAvoiding(rel.Side(isFirst).MembersOf(bms[iv2 % |bms|]), iv2 + u, v) == v;
      && (HopFrom(rel, v, u, iv2).Abort? <==> stays && (if isFirst then s2 else s1) == [])
      && (isFirst != (iv2 % 2 == 1) && stays ==> HopFrom(rel, v, u, iv2).Abort?)
  {
    var s1, s2 := rel.first.ModulesOf(v), rel.second.ModulesOf(v);
    var isFirst := ChooseSide(s1, s2, iv2);
    var bms := if isFirst then s1 else s2;
    ModuleHasMembers(rel.Side(isFirst), v, bms[iv2 % |bms|]);
  }

  // ---------------------------------------------------------------------------------------
  // One attempt

  datatype Outcome = Found(first: Module, second: Module) | NotFound

  /** The outcome and the stream position after an attempt. */
  datatype Run = Run(outcome: Outcome, next: nat)

  /** The final check: a pair exactly when both automata report success. */
  function Finish(b: Behaviour, a1: State, a2: State): (o: Outcome)
    requires b.Total()
    ensures o.Found? <==> b.StatusOf(a1) == Success && b.StatusOf(a2) == Success
    ensures o.Found? ==> o.first == b.AModule(a1) && o.second == b.AModule(a2)
  {
    if b.StatusOf(a1) == Success && b.StatusOf(a2) == Success then Found(b.AModule(a1), b.AModule(a2)) else NotFound
  }

  /** The walk loop from vertex `v` with automaton states `a1`, `a2`, `used` hops so far, a
      budget of `attempts` and the stream at position `p`. Each hop draws once, and a move
      re-reads both module sets of the new vertex and feeds them to the automata after setting
      the same operation kind on both. */
  function Loop(ctx: Context, v: Vertex, a1: State, a2: State, used: nat, attempts: nat, p: nat): (run: Run)
    requires ctx.rel.Valid() && ctx.behaviour.Total()
    requires used < attempts ==> ctx.rel.first.ModulesOf(v) != [] || ctx.rel.second.ModulesOf(v) != []
    requires DrawsInRange(ctx)
    // one draw per hop, at most `attempts - used` hops
    ensures p <= run.next <= p + (if used < attempts then attempts - used else 0)
    decreases attempts - used, 1
  {
    var b := ctx.behaviour;
    if Going(b.StatusOf(a1), b.StatusOf(a2)) && used < attempts then Round(ctx, v, a1, a2, used, attempts, p)
    else Run(Finish(b, a1, a2), p)
  }

  /** One round of the walk loop: draw, hop, and either stop or feed the automata and go on. */
  function Round(ctx: Context, v: Vertex, a1: State, a2: State, used: nat, attempts: nat, p: nat): (run: Run)
    requires ctx.rel.Valid() && ctx.behaviour.Total()
    requires ctx.rel.first.ModulesOf(v) != [] || ctx.rel.second.ModulesOf(v) != []
    requires used < attempts && DrawsInRange(ctx)
    ensures p < run.next <= p + attempts - used
    decreases attempts - used, 0
  {
    var b := ctx.behaviour;
    var u := used + 1;
    var iv2 := ctx.draws[p];
    match HopFrom(ctx.rel, v, u, iv2)
    case Abort => Run(Finish(b, a1, a2), p + 1)
    case Converged(f, s) => Run(Found(f, s), p + 1)
    case MoveTo(w) =>
      var intersection := (iv2 + u) % 2 == 1;
      var m1, m2 := ctx.rel.first.ModulesOf(w), ctx.rel.second.ModulesOf(w);
      Loop(ctx, w, b.TakeSet(b.SetKind(a1, intersection), m1), b.TakeSet(b.SetKind(a2, intersection), m2),
           u, attempts, p + 1)
  }

  /** One round of `Loop` in terms of the hop it makes, `u` being the hop number. */
  lemma {:induction false} LoopStep(ctx: Context, v: Vertex, a1: State, a2: State, used: nat, u: nat, attempts: nat, p: nat, iv2: nat, h: Hop)
    requires ctx.rel.Valid() && ctx.behaviour.Total()
    requires ctx.rel.first.ModulesOf(v) != [] || ctx.rel.second.ModulesOf(v) != []
    requires Going(ctx.behaviour.StatusOf(a1), ctx.behaviour.StatusOf(a2)) && used < attempts
    requires DrawsInRange(ctx)
    requires u == used + 1 && iv2 == ctx.draws[p] && h == HopFrom(ctx.rel, v, u, iv2)
    ensures var b, run := ctx.behaviour, Loop(ctx, v, a1, a2, used, attempts, p);
      && (h.Abort? ==> run == Run(Finish(b, a1, a2), p + 1))
      && (h.Converged? ==> run == Run(Found(h.first, h.second), p + 1))
      && (h.MoveTo? ==>
            var intersection := (iv2 + u) % 2 == 1;
            var w := h.vertex;
            run == Loop(ctx, w, b.TakeSet(b.SetKind(a1, intersection), ctx.rel.first.ModulesOf(w)),
                        b.TakeSet(b.SetKind(a2, intersection), ctx.rel.second.ModulesOf(w)), u, attempts, p + 1))
  {
  }

  /** `try_get_sample`: draw the start vertex, seed both automata with its module sets, and
      walk with a budget of twice the number of those modules. */
  function Attempt(ctx: Context, p: nat): Run
    requires Ready(ctx)
  {
    var v := StartVertex(ctx.rel, ctx.verts[ctx.draws[p]]);
    var (s1, s2) := LookupModules(ctx.rel, v);
    Loop(ctx, v, ctx.behaviour.Start(s1), ctx.behaviour.Start(s2), 1, 2 * (|s1| + |s2|), p + 1)
  }

  /** An attempt is the walk from its start vertex `v`, whose module sets are `s1`, `s2`. */
  lemma {:induction false} AttemptWalk(ctx: Context, p: nat, v: Vertex, s1: seq<Module>, s2: seq<Module>)
    requires Ready(ctx)
    requires v == StartVertex(ctx.rel, ctx.verts[ctx.draws[p]]) && (s1, s2) == LookupModules(ctx.rel, v)
    ensures Attempt(ctx, p) == Loop(ctx, v, ctx.behaviour.Start(s1), ctx.behaviour.Start(s2), 1, 2 * (|s1| + |s2|), p + 1)
  {
  }

  /** An attempt takes the start draw and at most `2 * (|s1| + |s2|) - 1` hop draws, where
      `s1`, `s2` are the module sets of the start vertex. */
  lemma {:induction false} AttemptBudget(ctx: Context, p: nat)
    requires Ready(ctx)
    ensures var v := StartVertex(ctx.rel, ctx.verts[ctx.draws[p]]);
      var attempts := 2 * (|ctx.rel.first.ModulesOf(v)| + |ctx.rel.second.ModulesOf(v)|);
      p + 1 <= Attempt(ctx, p).next <= p + (if attempts == 0 then 1 else attempts)
  {
  }

  /** With no module at the start vertex there is no hop: the attempt only reports what the
      automata seeded with empty sets say. */
  lemma {:induction false} NoModulesNoHop(ctx: Context, p: nat)
    requires Ready(ctx)
    requires LookupModules(ctx.rel, StartVertex(ctx.rel, ctx.verts[ctx.draws[p]])) == ([], [])
    ensures var b := ctx.behaviour;
      Attempt(ctx, p) == Run(Finish(b, b.Start([]), b.Start([])), p + 1)
  {
  }

  /** What `try_get_sample` leaves in `result`: the pair (or RESULT_NONE twice) and
      importance 1; the failed-attempts weight is untouched. */
  function Record(result: SimulationResult, o: Outcome): (r: SimulationResult)
    ensures r.importance == 1.0 && r.failedAttempts == result.failedAttempts
    ensures o.Found? ==> r.first == o.first && r.second == o.second
    ensures o.NotFound? ==> r.first == ResultNone && r.second == ResultNone
  {
    match o
    case Found(f, s) => result.(first := f, second := s, importance := 1.0)
    case NotFound => result.(first := ResultNone, second := ResultNone, importance := 1.0)
  }

  // ---------------------------------------------------------------------------------------
  // The retry driver

  datatype SampleRun = SampleRun(result: Result<SimulationResult, Error>, next: nat)

  /** The attempts of the simulator as a function of the stream position. */
  function AttemptFrom(ctx: Context): (attempt: nat --> Run)
  {
    (q: nat) requires Ready(ctx) => Attempt(ctx, q)
  }

  lemma {:induction false} AttemptFromTotal(ctx: Context)
    requires Ready(ctx)
    ensures forall q: nat :: AttemptFrom(ctx).requires(q)
  {
  }

  /** The loop of `get_sample` after `count` attempts, `result`
      carrying the failed weight so far: one more attempt, its importance added to the failed
      weight when it found nothing, then the bail-out once the attempt count reaches the
      limit, checked before success. */
  function Retry(attempt: nat --> Run, p: nat, count: nat, result: SimulationResult): SampleRun
    requires forall q: nat :: attempt.requires(q)
    requires count < MaxAcceptableFailures
    decreases MaxAcceptableFailures - count
  {
    var run := attempt(p);
    var r := Record(result, run.outcome);
    var r' := if r.first == ResultNone then r.(failedAttempts := r.failedAttempts + r.importance) else r;
    if count + 1 >= MaxAcceptableFailures then SampleRun(Err(SuspiciouslyFailing), run.next)
    else if r'.first != ResultNone then SampleRun(Ok(r'), run.next)
    else Retry(attempt, run.next, count + 1, r')
  }

  /** `get_sample` from stream position `p`. */
  function Sample(ctx: Context, p: nat): SampleRun
    requires Ready(ctx)
  {
    AttemptFromTotal(ctx);
    Retry(AttemptFrom(ctx), p, 0, NoneResult)
  }

  /** The stream position at which attempt number `i` (from 0) begins. */
  ghost function AttemptStart(attempt: nat --> Run, p0: nat, i: nat): nat
    requires forall q: nat :: attempt.requires(q)
  {
    if i == 0 then p0 else attempt(AttemptStart(attempt, p0, i - 1)).next
  }

  /** An attempt counts as a success when its first module is not RESULT_NONE. */
  ghost predicate Succeeds(attempt: nat --> Run, p: nat)
    requires forall q: nat :: attempt.requires(q)
  {
    var o := attempt(p).outcome;
    o.Found? && o.first != ResultNone
  }

  ghost predicate AllFail(attempt: nat --> Run, p0: nat, lo: nat, hi: nat)
    requires forall q: nat :: attempt.requires(q)
  {
    forall i: nat :: lo <= i < hi ==> !Succeeds(attempt, AttemptStart(attempt, p0, i))
  }

  /** Attempt `k` is the first success from attempt `lo` on, and the sample is its pair with
      importance 1 and failed weight `k`, the stream ending after attempt `k`. */
  ghost predicate SucceedsAt(attempt: nat --> Run, p0: nat, lo: nat, k: nat, run: SampleRun)
    requires forall q: nat :: attempt.requires(q)
  {
    var o := attempt(AttemptStart(attempt, p0, k)).outcome;
    && lo <= k < MaxAcceptableFailures - 1
    && Succeeds(attempt, AttemptStart(attempt, p0, k))
    && AllFail(attempt, p0, lo, k)
    && run.result == Ok(SimulationResult(o.first, o.second, 1.0, k as real))
    && run.next == AttemptStart(attempt, p0, k + 1)
  }

  lemma {:induction false} RetryFrom(attempt: nat --> Run, p0: nat, c: nat, result: SimulationResult)
    requires forall q: nat :: attempt.requires(q)
    requires c < MaxAcceptableFailures
    requires result.failedAttempts == c as real
    ensures var run := Retry(attempt, AttemptStart(attempt, p0, c), c, result);
      if run.result.Ok? then exists k: nat :: SucceedsAt(attempt, p0, c, k, run)
      else AllFail(attempt, p0, c, MaxAcceptableFailures - 1) && run.next == AttemptStart(attempt, p0, MaxAcceptableFailures)
    decreases MaxAcceptableFailures - c
  {
    var p := AttemptStart(attempt, p0, c);
    var one := attempt(p);
    assert AttemptStart(attempt, p0, c + 1) == one.next;
    var r := Record(result, one.outcome);
    var r' := if r.first == ResultNone then r.(failedAttempts := r.failedAttempts + r.importance) else r;
    var run := Retry(attempt, p, c, result);
    if c + 1 >= MaxAcceptableFailures {
    } else if r'.first != ResultNone {
      assert SucceedsAt(attempt, p0, c, c, run);
    } else {
      assert !Succeeds(attempt, p);
      assert run == Retry(attempt, AttemptStart(attempt, p0, c + 1), c + 1, r');
      RetryFrom(attempt, p0, c + 1, r');
      if run.result.Ok? {
        var k: nat :| SucceedsAt(attempt, p0, c + 1, k, run);
        assert SucceedsAt(attempt, p0, c, k, run);
      }
    }
  }

  /** The retry loop returns only a real pair, found by one of the first 1023 attempts after
      all earlier ones failed, with failed weight equal to the number of those failures; it
      throws exactly when the first 1023 attempts all fail, after running the 1024th (whose
      own result is then discarded). */
  lemma {:induction false} SampleOutcome(ctx: Context, p0: nat)
    requires Ready(ctx)
    ensures var attempt := AttemptFrom(ctx);
      && (forall q: nat :: attempt.requires(q))
      && var run := Sample(ctx, p0);
      && (run.result.Ok? <==> exists k: nat :: 0 <= k < MaxAcceptableFailures - 1 && Succeeds(attempt, AttemptStart(attempt, p0, k)))
      && (run.result.Ok? ==> run.result.value.first != ResultNone && exists k: nat :: SucceedsAt(attempt, p0, 0, k, run))
      && (run.result.Err? ==> run.next == AttemptStart(attempt, p0, MaxAcceptableFailures))
  {
    AttemptFromTotal(ctx);
    var attempt := AttemptFrom(ctx);
    assert AttemptStart(attempt, p0, 0) == p0;
    RetryFrom(attempt, p0, 0, NoneResult);
    var run := Sample(ctx, p0);
    if run.result.Ok? {
      var k: nat :| SucceedsAt(attempt, p0, 0, k, run);
      assert 0 <= k < MaxAcceptableFailures - 1 && Succeeds(attempt, AttemptStart(attempt, p0, k));
      assert exists j: nat :: 0 <= j < MaxAcceptableFailures - 1 && Succeeds(attempt, AttemptStart(attempt, p0, j));
      assert run.result.value.first != ResultNone;
    } else {
      assert AllFail(attempt, p0, 0, MaxAcceptableFailures - 1);
      forall k | 0 <= k < MaxAcceptableFailures - 1
        ensures !Succeeds(attempt, AttemptStart(attempt, p0, k))
      {
      }
    }
  }

  // ---------------------------------------------------------------------------------------
  // The early result as the source writes it

  /** The hop with the pair built from a module read through an iterator into a container that
      was move-assigned before the read: the module taken first is then some unspecified
      `stale` value instead of the one that was picked. */
  function HopFromAsWritten(rel: TwoRelations, v: Vertex, u: nat, iv2: nat, stale: Module): Hop
    requires rel.Valid()
    requires rel.first.ModulesOf(v) != [] || rel.second.ModulesOf(v) != []
  {
    var h := HopFrom(rel, v, u, iv2);
    if h.Converged? then
      if ChooseSide(rel.first.ModulesOf(v), rel.second.ModulesOf(v), iv2) then Converged(stale, h.second)
      else Converged(h.first, stale)
    else h
  }

  /** Vertex 0 alone in module 5 of clustering 1 and module 7 of clustering 2. */
  function LoneVertexRelations(): TwoRelations {
    TwoRelations(Clustering(map[0 := [5]], map[5 := [0]]), Clustering(map[0 := [7]], map[7 := [0]]))
  }

  /** Both views of each lone-vertex relation agree. */
  lemma LoneVertexValid()
    ensures LoneVertexRelations().Valid()
  {
    var rel := LoneVertexRelations();
    assert rel.first.Valid() by {
      forall v, m | m in rel.first.ModulesOf(v) ensures v in rel.first.MembersOf(m) {
        assert v == 0 && m == 5;
      }
      forall v, m | v in rel.first.MembersOf(m) ensures m in rel.first.ModulesOf(v) {
        assert v == 0 && m == 5;
      }
    }
    assert rel.second.Valid() by {
      forall v, m | m in rel.second.ModulesOf(v) ensures v in rel.second.MembersOf(m) {
        assert v == 0 && m == 7;
      }
      forall v, m | v in rel.second.MembersOf(m) ensures m in rel.second.ModulesOf(v) {
        assert v == 0 && m == 7;
      }
    }
  }

  /** Clustering 1 as in the lone-vertex relations; in clustering 2 vertices 0 and 1 share
      module 7, whose backward range lists vertex 0 twice. */
  function RepeatedEntryRelations(): TwoRelations {
    TwoRelations(Clustering(map[0 := [5]], map[5 := [0]]), Clustering(map[0 := [7], 1 := [7]], map[7 := [0, 0, 1]]))
  }

  /** Both views of each repeated-entry relation agree, and the range of module 7 repeats. */
  lemma RepeatedEntryValid()
    ensures RepeatedEntryRelations().Valid() && !RepeatedEntryRelations().second.DistinctRanges()
  {
    var rel := RepeatedEntryRelations();
    assert rel.first.Valid() by {
      forall v, m | m in rel.first.ModulesOf(v) ensures v in rel.first.MembersOf(m) {
        assert v == 0 && m == 5;
      }
      forall v, m | v in rel.first.MembersOf(m) ensures m in rel.first.ModulesOf(v) {
        assert v == 0 && m == 5;
      }
    }
    assert rel.second.Valid() by {
      forall v, m | m in rel.second.ModulesOf(v) ensures v in rel.second.MembersOf(m) {
        assert (v == 0 || v == 1) && m == 7;
      }
      forall v, m | v in rel.second.MembersOf(m) ensures m in rel.second.ModulesOf(v) {
        assert (v == 0 || v == 1) && m == 7;
      }
    }
    var r := rel.second.backward[7];
    assert r[0] == r[1];
  }

  /** Without duplicate-free ranges a hop can move to the vertex it leaves, which is what the
      debug check after the move rejects: the pick in module 5 stays on vertex 0, and so do
      both reads of the range of module 7. */
  lemma RepeatedEntryReturns()
    ensures RepeatedEntryRelations().Valid() && !RepeatedEntryRelations().second.DistinctRanges()
    ensures HopFrom(RepeatedEntryRelations(), 0, 2, 1) == MoveTo(0)
  {
    RepeatedEntryValid();
    var rel := RepeatedEntryRelations();
    assert Singletons(rel.second, [7]) == [] by {
      assert [7][..0] == [];
    }
    assert FromOtherSide(rel.second, [7], true, 5, 0, 2, 1) == MoveTo(0);
  }

  /** On hop 2 with an odd draw, the early result should pair module 5 with module 7; read
      through the stale iterator it pairs 7 with whatever value was read, which for any value
      other than 5 is not a module of the vertex. */
  lemma StaleModuleBreaksOrientation(stale: Module)
    requires stale != 5
    ensures LoneVertexRelations().Valid()
    ensures HopFrom(LoneVertexRelations(), 0, 2, 1) == Converged(5, 7)
    ensures HopFromAsWritten(LoneVertexRelations(), 0, 2, 1, stale).first !in LoneVertexRelations().first.ModulesOf(0)
  {
    var rel := LoneVertexRelations();
    LoneVertexValid();
    assert Singletons(rel.second, [7]) == [7] by {
      assert [7][..0] == [];
    }
  }

  // ---------------------------------------------------------------------------------------
  // A concrete run

  // `Zero`, `StaysPending` and `PendingBehaviour` only build the tables of `LoneVertexContext`.

  /** Zero, whatever the argument. */
  function Zero<T>(x: T): nat {
    0
  }

  function StaysPending(s: State): Status {
    Pending
  }

  /** Automata that stay pending in state 0 whatever they are fed, and report module 0. */
  ghost function PendingBehaviour(): Behaviour {
    Behaviour(imap ms: seq<Module> | true :: Zero(ms), imap sk: (State, bool) | true :: Zero(sk),
              imap sm: (State, seq<Module>) | true :: Zero(sm), imap s: State | true :: StaysPending(s),
              imap s: State | true :: Zero(s))
  }

  /** The lone-vertex relations over the vertex list [0], with every draw 0. */
  ghost function LoneVertexContext(): Context {
    Context(LoneVertexRelations(), [0], imap n: nat | true :: Zero(n), PendingBehaviour())
  }

  /** These inputs are ones an attempt can run on. */
  lemma LoneVertexReady()
    ensures Ready(LoneVertexContext())
  {
    LoneVertexValid();
  }

  /** On hop 2 with draw 0 the draw names clustering 2, whose module 7 only holds vertex 0,
      and the singleton module 5 of clustering 1 completes the pair. */
  lemma LoneVertexHop()
    ensures LoneVertexRelations().Valid()
    ensures HopFrom(LoneVertexRelations(), 0, 2, 0) == Converged(5, 7)
  {
    LoneVertexValid();
    assert Singletons(LoneVertexRelations().first, [5]) == [5] by {
      assert [5][..0] == [];
    }
  }

  /** The attempt from stream position 0 starts at vertex 0 and converges on its first hop,
      after two draws. */
  lemma LoneVertexAttempt()
    ensures Ready(LoneVertexContext())
    ensures Attempt(LoneVertexContext(), 0) == Run(Found(5, 7), 2)
  {
    var ctx := LoneVertexContext();
    LoneVertexReady();
    LoneVertexHop();
    var rel, b := ctx.rel, ctx.behaviour;
    assert ctx.draws[0] == 0 && ctx.draws[1] == 0 && ctx.verts[0] == 0;
    assert StartVertex(rel, 0) == 0 && LookupModules(rel, 0) == ([5], [7]);
    assert b.Start([5]) == 0 && b.Start([7]) == 0 && b.StatusOf(0) == Pending;
    assert Round(ctx, 0, 0, 0, 1, 4, 1) == Run(Found(5, 7), 2);
    assert Loop(ctx, 0, 0, 0, 1, 4, 1) == Run(Found(5, 7), 2);
  }

  /** `get_sample` from stream position 0 returns that pair, with importance 1 and no failed
      weight, after two draws. */
  lemma LoneVertexSample()
    ensures Ready(LoneVertexContext())
    ensures Sample(LoneVertexContext(), 0) == SampleRun(Ok(SimulationResult(5, 7, 1.0, 0.0)), 2)
  {
    var ctx := LoneVertexContext();
    LoneVertexAttempt();
    AttemptFromTotal(ctx);
    assert AttemptFrom(ctx)(0) == Run(Found(5, 7), 2);
  }
}
