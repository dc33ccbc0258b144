# deep_complete_simulator, modelled in Dafny

GenConvNMI compares two overlapping clusterings of one vertex set. It does this by sampling
pairs of corresponding modules: one module from each clustering. `deep_complete_simulator`
runs the sampler.

One attempt (`try_get_sample`) works like this:
- It draws a start vertex.
- It seeds two convergence automata with the start vertex's module sets.
- It walks from vertex to vertex. On each hop it picks a module of the current vertex on the
  side the parity of a fresh draw names (falling back to the other side when that set is
  empty). It then picks a member of that module other than the current vertex.
- When the module holds only the current vertex, it looks for a single-member module in the
  other clustering. If it finds one, it returns that pair at once.
- After each move it feeds both automata the module sets of the new vertex.
- The attempt yields a pair when both automata report success.

`get_sample` retries attempts until one yields a pair. It throws after 1024 attempts.

The model has four modules:

- `Representants` (`representants.dfy`): the two vertex/module relations, each a forward map
  (vertex to module set) and a backward map (module to member range). A relation is well
  formed when the two views describe the same relation. `LookupModules` is the forward
  lookup.
- `Automata` (`player_automaton.dfy`): the automaton as a class. Its state is an identifier,
  and its behaviour is a record of transition tables (start, operation kind, take set,
  status, module).
- `Walk` (`walk.dfy`): one attempt and the retry driver as functions of the inputs.
  - The random stream is an infinite map `draws` from stream position to drawn value. Every
    drawn value indexes the vertex list.
  - `HopFrom` (with `FromOtherSide` for the second scan) is one hop.
  - `Loop` and `Round` are the walk loop, and `Attempt` is a whole attempt.
  - `Retry` and `Sample` are `get_sample`.
  - `LoneVertexContext` is a concrete input on which an attempt can run. `LoneVertexSample`
    follows `get_sample` on it to its result, so the preconditions of the walk are met by
    real inputs.
  - The lemmas state the walk's properties. These are the hop budget, the vertex-0 fix-up,
    self-loop avoidance, the orientation of the early pair, when a hop gives up, and the
    result of the retry loop.
- `Simulator` (`simulator.dfy`): the classes.
  - `SimulatorImpl` stands for `pimpl_t`. Its field `pos`, the position in the stream, is the
    generator state.
  - Its methods `TryGetSample` and `GetSample` keep the source's imperative shape: `while`
    loops, module sets moved out and emptied, automata updated in place, and the early
    `return`. One deliberate departure is listed under "Left out" (`NextHop`). Each method is
    proved equal to `Attempt` and `Sample`.
  - `DeepCompleteSimulator` is the public handle, with a nullable `impl`.

## Model

| member | source | states |
|---|---|---|
| Representants.LookupModulesMembers | src/deep_complete_simulator.cpp:62-73 | each looked-up module set holds exactly the modules whose backward range lists the vertex |
| Simulator.SimulatorImpl.GetModules | src/deep_complete_simulator.cpp:62-73 | the output sets are overwritten, not appended to: they are exactly the lookup of the vertex in both clusterings |
| Walk.StartVertex | src/deep_complete_simulator.cpp:105-111 | the start vertex is the drawn one, except that vertex 0 with no module in either clustering becomes vertex 1 |
| Walk.ChooseSide | src/deep_complete_simulator.cpp:142-150 | the chosen side is never empty, and it is the parity side of the draw exactly when that side's set is non-empty |
| Walk.PickAvoiding | src/deep_complete_simulator.cpp:164-169 | the pick is a member of the range; it is the member at the draw's offset unless that is the origin, and then it is the next member (wrapping); it is the origin exactly when both that member and the next one are the origin |
| Walk.SelfLoopOnlyOnSingleton | src/deep_complete_simulator.cpp:167-171 | in a range with no repeated member, the pick stays on the origin exactly when the range is the origin alone |
| Walk.Singletons | src/deep_complete_simulator.cpp:179-185 | the collected modules are exactly the modules of the set whose backward range has one member, and there are no more of them than modules in the set |
| Walk.HopFrom | src/deep_complete_simulator.cpp:142-171 | a hop that moves lands on a vertex that has modules again, so the next hop is well defined |
| Walk.FromOtherSide | src/deep_complete_simulator.cpp:172-211 | a move made by the second scan lands on a vertex with modules in the scanned clustering |
| Walk.HopTarget | src/deep_complete_simulator.cpp:155-215 | the vertex moved to is a member of a module of the current vertex, in the clustering that module belongs to |
| Walk.HopLeavesVertex | src/deep_complete_simulator.cpp:206-211 | when no backward range repeats a vertex, a hop that moves never stays on the current vertex (the debug check) |
| Walk.OtherSideLeaves | src/deep_complete_simulator.cpp:198-211 | when no backward range repeats a vertex, the second scan only moves through a module with at least two members, so it leaves the current vertex |
| Walk.RepeatedEntryReturns | src/deep_complete_simulator.cpp:198-211 | with a consistent relation whose backward range lists a vertex twice, a hop can move back onto the current vertex, so the debug check needs duplicate-free ranges |
| Walk.ConvergedOrientation | src/deep_complete_simulator.cpp:172-197 | the early pair has its first module from clustering 1 and its second from clustering 2; the side taken first is the parity side; its module only holds the vertex as far as the pick can see; the other module is the singleton at offset `(iv2 + used) % |singles|` |
| Walk.AbortExactly | src/deep_complete_simulator.cpp:143-177 | a hop gives up exactly when the pick stays on the vertex and the other side's set is empty; after the fallback it always gives up when the pick stays |
| Walk.Finish | src/deep_complete_simulator.cpp:229-235 | an attempt yields a pair exactly when both automata report success, and the pair is their two modules |
| Walk.Loop | src/deep_complete_simulator.cpp:124-134 | the walk loop consumes at most one draw per hop and at most `attempts - used` hops |
| Walk.Round | src/deep_complete_simulator.cpp:134-225 | one round consumes its draw and at most the remaining budget |
| Walk.AttemptBudget | src/deep_complete_simulator.cpp:113-134 | an attempt takes the start draw and at most `2 * (|s1| + |s2|) - 1` hop draws, the sizes being those of the start vertex's sets |
| Walk.NoModulesNoHop | src/deep_complete_simulator.cpp:113-135 | with no module at the start vertex no hop runs, and the outcome is what the automata seeded with empty sets report |
| Walk.Record | src/deep_complete_simulator.cpp:101-236 | an attempt sets importance to 1, writes the pair or RESULT_NONE twice, and leaves the failed weight untouched |
| Walk.RetryFrom | src/deep_complete_simulator.cpp:75-97 | from any attempt `c` on, the retry loop either returns the first success among attempts `c`..1022 or runs out after all of them failed, ending after attempt 1023 |
| Walk.SampleOutcome | src/deep_complete_simulator.cpp:75-97 | `get_sample` returns exactly when one of the first 1023 attempts succeeds. The sample is then the first success's pair, with importance 1 and failed weight equal to the number of earlier failures, and never RESULT_NONE. Otherwise it throws after running the 1024th attempt regardless of that attempt's result |
| Walk.LoneVertexReady | src/deep_complete_simulator.cpp:101-236 | the lone-vertex input (vertex 0 alone in module 5 of clustering 1 and module 7 of clustering 2, every draw 0, automata that stay pending) meets everything an attempt requires |
| Walk.LoneVertexHop | src/deep_complete_simulator.cpp:142-197 | on that input, hop 2 with draw 0 takes clustering 2, finds that module 7 only holds the vertex, and returns the pair (5, 7) from the singleton module of clustering 1 |
| Walk.LoneVertexAttempt | src/deep_complete_simulator.cpp:101-197 | on that input, the attempt from stream position 0 returns the pair (5, 7) early, after two draws |
| Walk.LoneVertexSample | src/deep_complete_simulator.cpp:75-97 | on that input, `get_sample` returns the pair (5, 7) with importance 1 and failed weight 0, and the stream ends at position 2 |
| Walk.StaleModuleBreaksOrientation | src/deep_complete_simulator.cpp:188-196 | the early pair as written, read through an iterator into a set that was moved over, is not a pair of modules of the vertex, on a concrete input |
| Simulator.SimulatorImpl.constructor | src/deep_complete_simulator.cpp:47-50 | a fresh implementation over the given relations, vertex list and stream, at stream position 0; it can sample exactly when those inputs are ones an attempt can run on |
| Simulator.SimulatorImpl.Draw | src/deep_complete_simulator.cpp:142 | a draw is the stream's value at the current position, indexes the vertex list, and advances the position by one |
| Simulator.SimulatorImpl.NextHop | src/deep_complete_simulator.cpp:142-211 | the loop body after the draw, with its moves, fallback, iterator stepping and wrap-around, computes `HopFrom` |
| Simulator.SimulatorImpl.OtherSideHop | src/deep_complete_simulator.cpp:179-211 | the second scan, with its collecting loop and early pair, computes `FromOtherSide` |
| Simulator.SimulatorImpl.WalkFrom | src/deep_complete_simulator.cpp:124-225 | the walk loop ends in the state `Loop` describes: same stream position, same early pair, and otherwise automaton states whose final check is the loop's outcome |
| Simulator.SimulatorImpl.Feed | src/deep_complete_simulator.cpp:220-224 | both automata get the same operation kind, then the first takes the set of clustering 1 and the second that of clustering 2 |
| Simulator.SimulatorImpl.TryGetSample | src/deep_complete_simulator.cpp:101-236 | the result is the attempt's outcome recorded into the caller's result, and the stream advances exactly past the attempt's draws |
| Simulator.SimulatorImpl.GetSample | src/deep_complete_simulator.cpp:75-97 | the retry loop returns, or throws, exactly as `Sample`, and the stream ends where `Sample` says |
| Simulator.DeepCompleteSimulator.constructor | src/deep_complete_simulator.cpp:242-244 | a new handle owns a fresh implementation over the given relations and vertices, which can sample exactly when those inputs are ones an attempt can run on |
| Simulator.DeepCompleteSimulator.MoveAssign | src/deep_complete_simulator.cpp:260-268 | the source handle is left empty (vertex count 0), and the target takes over the source's implementation and vertex count; a self-move leaves the handle empty |
| Simulator.DeepCompleteSimulator.GetSample | src/deep_complete_simulator.cpp:270-273 | forwards to the implementation, with its contract |
| Simulator.DeepCompleteSimulator.Fork | src/deep_complete_simulator.cpp:276-279 | the fork is a fresh handle over the same relations and vertices, so it reports the same vertex count, with a generator of its own |

## Left out

- Random numbers: `std::mt19937`, `random_device` and `uniform_int_distribution` are not
  modelled. The values `lindis(rndgen)` yields become an input stream `draws`, each of them
  assumed to index the vertex list. The seed taken from the entropy source becomes a
  constructor parameter, and so does the stream a fork gets. With an empty vertex list
  `lindis(0, size - 1)` has no meaningful range, so the model requires the draws to index
  the list. The 32-bit width of the distribution's values is not modelled either.
- `player_automaton`: its internals (player_automaton.hpp) are not part of this model. Its
  state is an identifier, and what it does comes from total tables given as inputs. The
  guard `pa_status_t::going` is taken to hold while both statuses are `Pending`.
- `gecmi::get_modules`: its internals (representants.hpp) are not part of this model. It is
  the forward lookup of both relations. The order of a module set is its iteration order,
  and no property here depends on it being sorted. Duplicate-free backward ranges are
  assumed only where a lemma needs them: `HopLeavesVertex` and `OtherSideLeaves` require
  `DistinctRanges`, and `SelfLoopOnlyOnSingleton` requires its range to be `Distinct`. With a
  repeated entry a move can return to the current vertex (`RepeatedEntryReturns`), so the
  debug check at line 211 is not proved for such relations.
- `importance_float_t`: modelled as a Dafny `real`. Rounding is not modelled; the only
  values that occur are integers.
- `simulation_result_t`: its constructor is not part of this model. The initial value in
  `get_sample` is taken to be RESULT_NONE twice, importance 1 and failed weight 0.
- Memory management (`new`/`delete`, the destructor), the exception message text, commented-out
  code, console output and concurrency between forked handles are not modelled.
- Code structure: the walk loop's body is split into the methods `NextHop`, `OtherSideHop`
  and `Feed`, and the loop itself is the method `WalkFrom`. The split-out methods follow the
  source's statements, apart from the departure in `NextHop` below. The loop's early
  `return` and `break` become the `Outcome` that `WalkFrom` returns.
- Simulator.SimulatorImpl.NextHop: saves the picked module in `picked` before the move at
  line 174 and uses it where the source reads `*iv2mod` at lines 190 and 194, after that
  move; the behaviour as written is not defined (see Findings).
- Simulator.DeepCompleteSimulator.GetSample: requires a non-null implementation. The source
  dereferences `impl` unchecked there, and a handle that was moved from has a null `impl`.
- Simulator.DeepCompleteSimulator.Fork: requires a non-null implementation for the same
  reason. The source reads `impl` unchecked there.

## Findings

| source | as written | input that shows it | evidently intended | confidence | as-written member | corrected member |
|---|---|---|---|---|---|---|
| src/deep_complete_simulator.cpp:174-194 | the early pair reads the first module through `iv2mod`, an iterator into `v2bms`, after line 174 move-assigned `v2bms`; the iterator then points into a destroyed set, and reading it is undefined behaviour (in practice an arbitrary value) | vertex 0 alone in module 5 of clustering 1 and module 7 of clustering 2; hop 2 with draw 1 | the pair of the module picked before the move (5) with the singleton module (7) | high; not executed | Walk.HopFromAsWritten | Walk.HopFrom |

`StaleModuleBreaksOrientation` exhibits the input: `HopFrom` gives `Converged(5, 7)`, and the
as-written hop gives a first module that is not a module of the vertex for any value read
other than 5. `ConvergedOrientation` proves for `HopFrom`, on all inputs, that the first module
belongs to clustering 1 and the second to clustering 2. `NextHop` keeps the picked module in
`picked` before the move, and it is proved to compute `HopFrom`.
