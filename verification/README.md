# Copper: the timing-critical middle of the compiler

Copper compiles an async Rust loop into a clocked state machine. This project models the
passes that decide when things happen, and proves what the rest of the compiler relies on.

* A statement language shared by every pass (`Syntax`), with a small-step meaning in which
  only a tick ends a clock cycle (`Semantics`). Operators, inputs and stores are arbitrary.
* Control extraction: `while` and counted `for` become loops (`Desugaring`), nested ticks,
  breaks and loops are flattened into numbered states (`Lowering` as a function, `Flattener`
  as the in-place algorithm), locals that cross states become registers (`Hoisting`), and
  zero-time markers are spliced (`Splicing`). `Simulation` relates every state to the source
  configuration it stands for; `Extraction`, `Emission`, `WholeModule` and `Pipeline` hold the
  end-to-end theorems. `Adjusting` says what the machine of an admitted body does when it is
  not what the source does, and exactly when that happens; `ExtractionLimits`, `Preloop`,
  `Ranges` and `Pace` hold the inputs on which the code fails and the conditions under which it
  does not; `Counting` says how many cycles a counted loop takes.
* The graph analyses: the builder (`Cfg`), the three-colour search (`Reachability`), what its
  verdict is on the text (`Verdict`), means for extraction (`Admission`, `Acceptance`) and for runs (`Progress`),
  liveness and registers (`Liveness`, `Carried`, `Sufficiency`), clock phases by union-find (`Phases`), memory buses (`Memory`), latches
  (`DefiniteAssignment`, `Latches`) and read timing (`ReadTiming`). Each is compared with an
  independent definition by paths, and `Tracing` ties the graph to runs of the source.
* Expressions and constants: `match` to multiplexers (`MuxChain`), inlining by substitution
  (`Inlining`), and the emitted constants (`Rendering`, `LocalParams`).

Where the code does not do what its comments promise, the model follows the code:

* Statements in front of the loop move into state 0, which the comment at
  `copper-codegen/src/control_extract.rs:495-501` says runs once. State 0 is also the loop
  head, so they run whenever control comes back to it (`PreloopCounterexample`). The text
  condition under which they run once is `ComesBack` (`PreloopRunsOnce`); for statements that
  only drive, `PreloopDrivesAgain` names the cycles in which the machine differs.
* The comment at `copper-codegen/src/lib.rs:51-53` says a declined module is left untouched.
  That holds at the gate; when the splice fails, the statements in front of the loop have
  already been taken out. `DeclineLate` is an accepted loop for which that happens; a loop the
  reachability check accepts, with no visibly empty range, never gets there
  (`AcceptedExtracts`).
* A tick that ends a branch inside a nested loop, and a loop that ends in a loop, pass the
  gate and come out a cycle off (`TailTickCounterexample`, `LoopInLoopCounterexample`).
  `ExtractionRunsAdjusted` gives the program the machine runs, for every body past the gate,
  and `AdjustedIsExact` the condition under which it is the source.
* A counted loop whose range turns out empty at run time costs one cycle
  (`EmptyRangeCounterexample`); `EntryInStep` is the condition at each entry. The comment at
  `copper-codegen/src/control_extract.rs:241-248` says a `break` from a rewritten loop
  continues into a real clock boundary. For the loop's own exit test that is its last tick; for
  a `break` the user wrote it is a tick the source does not have (`BreakCounterexample`,
  `ExitInStep`). The rewritten loop also reads its bound again at each test, where the source
  read it once (`BoundCounterexample`, `IterationInStep`).
* The comment at `copper-analysis/src/cfg.rs:2490-2497` says taking a `for` to tick is wrong
  only for an empty range. It is also wrong for one that may be left by `break` before its
  tick: such a loop is accepted and can run forever without a clock edge (`LivelockAccepted`,
  `LivelockNeverTicks`). `ClockedRunsForever` is the promise of a test that lets such a loop be
  passed, and `AcceptedRunsForever` what the check's own test then promises.
* A local is said to be a register when its value crosses a clock edge
  (`copper-analysis/src/cfg.rs:325-364`). Edges inside a nested loop do not count, because the loop
  is one node: the value of a local can cross one and the local be none (`InnerEdgeCounterexample`).
  `RegistersSuffice` says what the registers are enough for.
* An arm's bindings replace those of the arms around it, so an inner match loses an outer
  binder (`CaptureCounterexample`); substitution can be captured by a pattern
  (`Inlining.BinderCounterexample`); an invisible group loses its brackets
  (`GroupCounterexample`); a read in front of a `continue` may be deferred for a tick it
  does not reach (`ContinueCounterexample`).

What the end-to-end theorems ask of a loop past the gate, and what happens to other loops:

* On the text. `Exact` is the condition of `AdjustedIsExact`. `Countable` is Rust's scoping of
  loop counters, read and assigned nowhere but by their own loop, and a tick at the end of each
  counted loop that ticks; without visibly empty ranges the latter is what the gate asks anyway
  (`GatedIsCountable`), because a counted loop that does not end in its tick is left as it is and
  refused (`ForBecomes`, `FlattenableIff`). `Lowerable` says that the loops left in a
  state are counted ones that unroll; others are refused further down, before there is
  hardware: a `while` without a tick at `copper-codegen/src/chir_lower.rs:3266-3284`, a nested
  `loop` and a `break` or `continue` in a state at `copper-codegen/src/chir_lower.rs:3286-3307`.
* On the run. `Paced` says that the source enters ticking counted loops with a range that is
  visibly empty or not empty and within 32 bits, leaves none by its own `break`, and finds each
  bound deciding as on entry where the rewritten loop reads it again. Loops that fail it are
  not refused: they come out off by cycles, and `EntryInStep`, `ExitInStep` and
  `IterationInStep` say exactly when, at one entry, exit and tick. `LiteralRanges` and
  `Undisturbed` are text conditions that give it for every run.
* On names. A program has one store, so every local is taken to have a name of its own; a
  `let` in an arm that hides another local would have to be renamed first.

## Model

| member | source | states |
|---|---|---|
| `Pipeline.CompilePreservesBehaviour` | copper-codegen/src/lib.rs:44-55 | From the loop as written to the flattened machine, `while`s and counted `for`s included: for every operator, input stream and number of cycles, and every store from which the run enters counted loops well, leaves none by its own `break` and finds no bound changed, the machine drives what the source drives, cycle by cycle; the source has no other run of that length; stores agree outside loop counters |
| `Pipeline.LiteralLoopsPreserveBehaviour` | copper-codegen/src/lib.rs:44-55 | The same with every condition one on the text as written: Rust's scoping of loop counters, the gate read off the source, literal bounds, no `break` of a counted loop's own and a head that cannot be reached again in no time; extraction then succeeds and keeps behaviour from every store |
| `Pipeline.GatedIsCountable` | copper-codegen/src/control_extract.rs:1649-1782 | Past the gate, `Countable` asks Rust's scoping of counters and no more: without visibly empty ranges every ticking counted loop ends in its tick and is not restarted, and what is left in a state unrolls |
| `Pipeline.Compile` | copper-codegen/src/lib.rs:300-312 | A loop is rejected exactly when its text has a way round it, or round a ticking loop nested in it at any depth, without a tick. It is flattened exactly when it is not rejected, the gate admits it by its text, and the rewritten loop cannot come back to its head in no time; without visibly empty ranges the last follows from acceptance. The machine then has each crossing local once, declared as some state declares it, and the narrowest `pc` that fits |
| `Pipeline.DeclineLate` | copper-codegen/src/control_extract.rs:495-517 | Given `p.write(1);` in front of an accepted loop past the gate: extraction gives up, the loop is as it was, and the write is gone |
| `WholeModule.ModulePreservesBehaviour` | copper-codegen/src/control_extract.rs:529-600 | The rewritten module from its first statement on, hoisted declarations and `pc` included, has one run of each length, with the events and the visible store of the module as written |
| `Pipeline.WrittenModulePreservesBehaviour` | copper-codegen/src/lib.rs:44-55 | From the module as written, `while`s and `for`s included, to the module that is left, hoisted declarations and `pc` included, from every store whose run keeps the pace: one run each of every length, with equal events and stores that agree on every name the loop sees from outside |
| `Pipeline.EmittedLoopPreservesBehaviour` | copper-codegen/src/control_extract.rs:529-620 | The loop as written and the emitted `loop { match pc {..} tick }`, as two programs of one language, have the same runs, outside loop counters and `pc`, from every store whose run keeps the pace |
| `Extraction.ExtractionRunsAdjusted` | copper-codegen/src/control_extract.rs:1167-1317 | For every body past the gate the machine does, cycle by cycle, what the adjusted source does: tail ticks of nested loops taken off, a tick added where a nested loop can end without one |
| `Adjusting.AdjustedIsExact` | copper-codegen/src/control_extract.rs:1171-1174 | Nothing is adjusted exactly in the bodies whose nested loops have their own tick or end in a loop that is never left, with no tick at the end of a path before it |
| `Extraction.ExtractionPreservesBehaviour` | copper-codegen/src/control_extract.rs:461-632 | On those bodies extraction keeps behaviour cycle by cycle, for every store, input stream and length, and the source run is the only one |
| `Extraction.ScopedMachinePreservesBehaviour` | copper-codegen/src/control_extract.rs:966-1012 | With locals scoped to their arm and forgotten at each edge, the machine meets no undeclared name, no state hides a register, and every read has the value the adjusted source gives it, which is the source itself where nothing is adjusted |
| `Unrolling.UnrolledRuns` | copper-codegen/src/chir_lower.rs:2979-3028 | A counted loop without a tick, kept in its state, does in one go what the source does step by step, once per index of its range, and always ends |
| `Emission.ModuleIR.Extract` | copper-codegen/src/control_extract.rs:461-620 | Rewrites the module in place exactly when admitted and able to; a declined module is left untouched exactly when the gate declined it or only locals stood in front of its loop |
| `Simulation.LowerSimulates` | copper-codegen/src/control_extract.rs:1167-1317 | Flattening is a simulation in every loop context, for every list past the gate: code and all states it allocates realise the adjusted source configurations they stand for, break continuations included |
| `Simulation.LowerLoopSimulates` | copper-codegen/src/control_extract.rs:1216-1262 | A nested loop's head state and its entry code realise the end of its adjusted body and the way into it, whether it has a tick of its own, gets one, or never ends |
| `ExtractionLimits.TailTickCounterexample` | copper-codegen/src/control_extract.rs:1171-1174 | A body the gate admits whose machine drives an event in the second cycle that the source does not; it fails the condition, and its adjustment is given |
| `ExtractionLimits.LoopInLoopCounterexample` | copper-codegen/src/control_extract.rs:1718-1721 | An admitted loop ending in a loop whose machine is a cycle behind the source; it fails the condition, and its adjustment is given |
| `Preloop.PreloopRunsEachTime` | copper-codegen/src/control_extract.rs:495-523 | With actions in front, the machine is that of the loop that starts with them and keeps `loop { P; body }` |
| `Preloop.PreloopRunsOnce` | copper-codegen/src/control_extract.rs:495-523 | The machine keeps `P; loop { body }` whenever the text of the body has no way back to its head |
| `Preloop.PreloopDrivesAgain` | copper-codegen/src/control_extract.rs:495-523 | Where P only drives, the machine differs from a run of `P; loop { body }` in exactly the cycles in which control comes back to the head, and shows more there: it keeps the run if and only if there are none |
| `Preloop.RepetitionHidden` | copper-codegen/src/control_extract.rs:495-523 | Why that is stated for statements that only drive: with an assignment in P, a loop whose every later cycle comes back to its head, and `P; loop { body }` and `loop { P; body }` have the same runs of every length all the same |
| `Preloop.PreloopCounterexample` | copper-codegen/src/control_extract.rs:495-523 | A write in front of a loop that the machine repeats every cycle |
| `Flattener.LowerBreakInto` | copper-codegen/src/control_extract.rs:1195-1214 | A `break` uses what its loop's cell holds, or lowers the continuation in the enclosing context and leaves it there |
| `Flattener.LowerLoopInto` | copper-codegen/src/control_extract.rs:1216-1262 | Head and entry of a nested loop are lowered against one new state and one new cell; at the end the lowering has been called for what follows the loop at most once, and once exactly if a `break` was met |
| `Extraction.ExtractionSucceeds` | copper-codegen/src/control_extract.rs:746-798 | Past the gate extraction gives up exactly when the source can get from the loop's head back to it in no time |
| `Extraction.MachineWellFormed` | copper-codegen/src/control_extract.rs:1059-1080 | Every path of every state ends in exactly one `pc` assignment to a state of the table and takes none before; no tick, `break`, `continue`, ticking loop or marker is left; all numbers fit the chosen type exactly up to 2^32 states |
| `Extraction.ExtractedCloses` | copper-codegen/src/control_extract.rs:879-920 | No state of the spliced machine reads a local that only another state declares, and none declares over again, and so hides, one that became a register |
| `Extraction.ExtractControl` | copper-codegen/src/control_extract.rs:461-525 | Produces a machine exactly for admitted bodies whose markers splice; in front of it stands, once each and as some state declares it, every local a state declares and another mentions; `pc` has the narrowest of the three widths that holds all state numbers, the widest if none does |
| `Gate.FlattenableIs` | copper-codegen/src/control_extract.rs:1649-1782 | The gate admits exactly the lists in which, at whatever depth, every loop is one segment, its only tick of its own last or none and a last loop that is one, that nothing restarts, no `while` or `for` ticks, and the jumps of the list's own loop are the right ones |
| `Emission.ModuleIR.TakeActions` | copper-codegen/src/control_extract.rs:495-517 | The actions in front of the loop, in order, leave; the locals stay, in order |
| `Emission.EmittedRuns` | copper-codegen/src/control_extract.rs:529-562 | The emitted loop, run by the source semantics, is the machine: same events per cycle, `pc` at the machine's state |
| `Emission.EmittedPreservesBehaviour` | copper-codegen/src/control_extract.rs:461-620 | Source loop and emitted loop have one run each of every length, with equal events and equal stores but for `pc` |
| `Simulation.LowerBreakSimulates` | copper-codegen/src/control_extract.rs:1195-1214 | A `break`'s code, cached or not, realises what follows the loop in the enclosing context |
| `Simulation.LowerArmsSimulates` | copper-codegen/src/control_extract.rs:1263-1308 | Each arm with its own copy of the continuation realises that arm followed by the continuation |
| `Flattener.LowerInto` | copper-codegen/src/control_extract.rs:1167-1317 | The in-place flattening appends exactly the specified code and grows the table exactly as specified, terminates by remaining size plus pending break continuations, and keeps every break cell filled at most once |
| `Flattener.LowerArmsInto` | copper-codegen/src/control_extract.rs:1263-1308 | Arms are lowered left to right, later arms seeing the states and cells of earlier ones |
| `Shape.LowerSealed` | copper-codegen/src/control_extract.rs:1167-1317 | Every list and every state lowering makes is sealed: one transfer on each path, last, to an allocated state |
| `Shape.LowerGoto` | copper-codegen/src/control_extract.rs:1310-1316 | Lowered code holds a zero-time marker exactly when the source can get back to the head from there in no time |
| `Splicing.SpliceZeroTimeGotos` | copper-codegen/src/control_extract.rs:746-766 | In place, succeeds exactly when every state can be spliced, and then holds each state's spliced body |
| `Splicing.SpliceInStmts` | copper-codegen/src/control_extract.rs:768-801 | Inlines what markers stand for in one list, exactly as specified, failing on a marker met twice on a path |
| `Splicing.SplicedRun` | copper-codegen/src/control_extract.rs:768-801 | Running the spliced list equals running the original and then, on a marker, the marked state's spliced body in the same cycle |
| `Splicing.SpliceRealises` | copper-codegen/src/control_extract.rs:746-798 | A spliced state realises the same source configuration |
| `Splicing.SpliceFromSucceeds` | copper-codegen/src/control_extract.rs:746-766 | The whole table splices exactly when state 0 holds no marker |
| `Hoisting.HoistCrossStateLocals` | copper-codegen/src/control_extract.rs:879-920 | Exactly the locals mentioned by a state other than the declaring one become registers, each declared once, and every other statement is kept |
| `Hoisting.CrossingIff` | copper-codegen/src/control_extract.rs:879-905 | A local leaves its state exactly when a statement somewhere in one state declares it and a statement somewhere in another reads or assigns it; one that only its own state uses stays |
| `Hoisting.CollectLocals` | copper-codegen/src/control_extract.rs:922-964 | Finds every declaration of every state, with its state |
| `Hoisting.ChooseLeaving` | copper-codegen/src/control_extract.rs:879-905 | Chooses exactly the locals some other state mentions |
| `Hoisting.ConvertRuns` | copper-codegen/src/control_extract.rs:966-1012 | Turning a declaration into an assignment changes nothing a state does |
| `Hoisting.HoistCloses` | copper-codegen/src/control_extract.rs:879-920 | After hoisting, each state is closed under its own declarations and the registers |
| `Hoisting.HoistHidesNone` | copper-codegen/src/control_extract.rs:966-1012 | After hoisting a state declares exactly what it declared before but for the registers, so none is hidden in a state |
| `Hoisting.ScopedRunMatches` | copper-codegen/src/control_extract.rs:966-1012 | A table closed under its registers runs the same with arm-scoped, cycle-scoped locals as with one global store |
| `Desugaring.DesugarIsD` | copper-codegen/src/control_extract.rs:113-290 | The two passes one after the other are one structural rewrite, on every body |
| `DesugarSimulation.DesugarPreservesBehaviour` | copper-codegen/src/control_extract.rs:338-442 | Source and rewritten loop have the same runs, in both directions, cycle by cycle, `for`s and `while`s nested in any way, wherever the source's run keeps the pace: ranges entered well, no counted loop left by its own `break`, no bound changed where it is read again; stores differ at most in counters |
| `Ranges.EntryInStep` | copper-codegen/src/control_extract.rs:360-366 | At one entry with 32-bit bounds: the rewritten program stays in step exactly when the range is visibly empty or is not empty |
| `Ranges.LiteralRangesSuffice` | copper-codegen/src/control_extract.rs:360-366 | Literal bounds, visibly empty or ascending within 32 bits, give every run ranges the rewrite counts right |
| `Ranges.EmptyRangeCounterexample` | copper-codegen/src/control_extract.rs:259-266 | A delay whose bound is not positive: source and rewritten loop have two-cycle runs that differ in the first cycle |
| `Pace.ExitInStep` | copper-codegen/src/control_extract.rs:224-256 | At one exit of a counted loop: behind it the rewritten program meets the source, in the same cycle, exactly when the loop was left by its range and not by `break` |
| `Pace.IterationInStep` | copper-codegen/src/control_extract.rs:368-396 | At one tick: the two programs go on in step, into the next iteration or behind the loop, exactly when the bound, read again in front of the tick and behind it, decides as it did on entry |
| `Pace.UndisturbedPaced` | copper-codegen/src/control_extract.rs:214-256 | Where no counted loop has a `break` of its own, reads an input in its bound or assigns what its bound reads, every run whose ranges are entered well keeps the pace, tick-free counted loops of any kind included |
| `Pace.BreakCounterexample` | copper-codegen/src/control_extract.rs:441-441 | A counted loop over 0..3 left by `break` passes the check, the gate and the extraction; its machine shows nothing in the first cycle, in which the source shows the event |
| `Pace.BoundCounterexample` | copper-codegen/src/control_extract.rs:368-396 | A counted loop whose body writes its bound passes as well; its machine shows the event in the second cycle, while the source is still in its loop |
| `Counting.CountedLoopTakes` | copper-codegen/src/control_extract.rs:214-256 | A counted loop takes its body's cycles once per index, in order: after `j` passes its counter holds `lo + j - 1`, and after all of them control is behind it in no further time |
| `Counting.OneTick` | copper-codegen/src/control_extract.rs:214-256 | A body whose only tick is its last statement takes one cycle per index |
| `Counting.RewrittenLoopTakes` | copper-codegen/src/control_extract.rs:338-442 | What the loop is rewritten to runs the same cycles, as many as the indices take, and is then in step with the source behind its loop, in a run that keeps the pace |
| `Desugaring.DesugarStmts` | copper-codegen/src/control_extract.rs:119-195 | The in-place `while` rewrite yields the specified list at every depth |
| `Desugaring.DesugarCountedLoops` | copper-codegen/src/control_extract.rs:268-290 | The in-place `for` rewrite yields the specified list, hoisted declarations and tick in place |
| `Admission.ForBecomes` | copper-codegen/src/control_extract.rs:338-442 | What a counted loop becomes, for every body: a loop over all statements of its rewritten body but a last one that is a tick, with that tick once more behind it; nothing when visibly empty; and the same counted loop with its counter, bounds and whole rewritten body whenever that body does not end in a tick |
| `Admission.DEndsIff` | copper-codegen/src/control_extract.rs:349-358 | A rewritten list ends in a tick exactly when its text does: by a tick, or by a counted loop that ends in one, visibly empty ones skipped |
| `Admission.FlattenableIff` | copper-codegen/src/control_extract.rs:1649-1782 | The gate's verdict on a rewritten list is one on the source at every depth: every loop and ticking `while` is one segment, a ticking counted loop ends in its tick and is one, and one that does not end in its tick has none left |
| `Admission.AdmittedIsText` | copper-codegen/src/control_extract.rs:1536-1563 | Extraction is tried on a rewritten loop exactly when the source flattens, a tick is left in it, and some tick is inside a branch or a loop or the body restarts itself |
| `DesugarSimulation.CycleMatched` | copper-codegen/src/control_extract.rs:338-442 | Each clock cycle of the rewritten program is a cycle of the source from a matching point, with the same events, and ends at a matching point, as long as the source keeps the pace |
| `Cfg.BuildGraph` | copper-analysis/src/cfg.rs:261-300 | The backward-threaded graph is wired as the source's control flow: node by node, every continuation, `continue` to the head; every place of the text has a node and there are no others |
| `Cfg.NestedLoopGraph` | copper-analysis/src/cfg.rs:1892-1914 | A nested loop's own graph is wired the same way, with `break` at its sink |
| `Cfg.BuildCombinational` | copper-analysis/src/cfg.rs:304-320 | A loop-free body's graph ends in one exit, and every node but the head is led to |
| `Cfg.Builder.BuildBlock` | copper-analysis/src/cfg.rs:1919-1926 | A block is built in front of its successor, last statement first, each statement wired to the rest |
| `Cfg.Builder.BuildArms` | copper-analysis/src/cfg.rs:1960-2042 | Each arm gets an entry wired to the arm and then the common successor |
| `Cfg.Builder.BuildStmt` | copper-analysis/src/cfg.rs:1927-2042 | One statement is wired in front of what follows it, jumps to their targets |
| `Cfg.Builder.BuildFolded` | copper-analysis/src/cfg.rs:2043-2100 | A nested loop is one opaque node that drives every output and carries the buses of the whole loop or, if it ticks, of its first cycle, and then has a graph of its own |
| `Cfg.EntryMemIsText` | copper-analysis/src/cfg.rs:1352-1364 | In a nested loop's own graph, the buses on nodes reached from the head without a clock edge are exactly those the loop's text can drive before its first tick, loops nested deeper included |
| `Graphs.TickFreeReaches` | copper-analysis/src/cfg.rs:1387-1404 | True exactly when a path crosses no clock edge |
| `Graphs.EntryCycleMem` | copper-analysis/src/cfg.rs:1356-1364 | Exactly the buses on nodes reached from the head without a clock edge |
| `Reachability.Acyclic` | copper-analysis/src/cfg.rs:1411-1487 | The explicit-stack three-colour search fails exactly when a zero-time cycle is reachable from the head, and terminates |
| `Reachability.CheckReachability` | copper-analysis/src/cfg.rs:1411-1496 | Accepts exactly when neither this loop nor any nested one has a zero-time cycle |
| `Reachability.ZeroPathsAreShort` | copper-analysis/src/cfg.rs:1411-1487 | On success every zero-time path from the head is no longer than the graph |
| `Reachability.CycleIffReturn` | copper-analysis/src/cfg.rs:1411-1496 | The graph's verdict is a fact about the source: a zero-time cycle exists just when control can return to the head without a tick, where a nested loop is passed unless its text shows that it ticks |
| `Reachability.MayExitIsText` | copper-analysis/src/cfg.rs:2499-2545 | The syntactic test in both directions: a nested loop is taken to tick exactly when it is a ticking `for`, or a `loop` in which a tick or such a loop stands with nothing in front that breaks, ticks or loops; the standard wait `loop { tick; if r { break } }` is one |
| `Verdict.SubCycleIffRestart` | copper-analysis/src/cfg.rs:1892-1914 | A nested loop's graph has a zero-time cycle just when the loop can start over without a tick and without being left |
| `Verdict.AcceptsIff` | copper-analysis/src/cfg.rs:1411-1496 | The whole verdict, nested graphs included, is one on the text: the loop cannot return, and no ticking loop nested in it at any depth can start over, without a tick |
| `Acceptance.TicksFirst` | copper-analysis/src/cfg.rs:2499-2544 | The syntactic test is sound for the flattening: a loop said to tick before any `break` cannot be left in no time |
| `Acceptance.GotoReturns` | copper-analysis/src/cfg.rs:2499-2544 | Where the rewritten loop could return to its head in no time, so could the source by the graph's rules |
| `Acceptance.AcceptedExtracts` | copper-analysis/src/cfg.rs:1411-1496 | A loop the check accepts, without visibly empty ranges and past the gate, is one extraction never gives up on |
| `Progress.ClockedRunsForever` | copper-analysis/src/cfg.rs:1411-1496 | A loop in which no ticking loop, itself included, can get round its body in no time has a run of every length from every store whose ranges are entered well; a counted loop may be left early, `loop { for .. { if c { break; } tick; } tick; }` included |
| `Progress.AcceptedRunsForever` | copper-analysis/src/cfg.rs:1411-1496 | The check's verdict is that of this test wherever no ticking counted loop is visibly empty or left before it ticks, so there acceptance gives a run of every length; loops without a tick are counted ones that unroll |
| `Progress.DirectAccepted` | copper-analysis/src/cfg.rs:1411-1496 | The check refuses no loop that ticks every time round, itself and every loop in it, as long as each nested `loop` shows a tick before anything that breaks or ticks otherwise; where no counted loop is left early it accepts no other |
| `Progress.LivelockAccepted` | copper-analysis/src/cfg.rs:2490-2506 | The check accepts `loop { for i in 0..3 { if c { break; } tick; } }`, and the corrected test refuses it |
| `Progress.LivelockNeverTicks` | copper-analysis/src/cfg.rs:2490-2506 | While `c` holds no clock cycle of that loop ever ends |
| `Liveness.LiveSets` | copper-analysis/src/cfg.rs:1604-1637 | The in-place fixpoint terminates and holds exactly the names some path reads before a full write |
| `Liveness.Registers` | copper-analysis/src/cfg.rs:365-381 | Exactly the names written in the loop that are live across a tick edge or from the head |
| `Carried.RegistersAreText` | copper-analysis/src/cfg.rs:365-381 | Without the graph: of the names written, those some way through the text reads before writing them, and those whose value at some tick or ticking loop is still read behind it, on the way round or past the head; a nested loop counts with every name that is read or assigned anywhere in it |
| `Carried.NestedReadsAreUsed` | copper-analysis/src/cfg.rs:2063-2066 | Whatever a path of a nested loop's own graph reads before writing is used by the node the loop is folded into |
| `Sufficiency.RegistersSuffice` | copper-analysis/src/cfg.rs:365-381 | On every loop, ticking nested loops included: overwriting every other name written in the loop with arbitrary values at every clock edge, at an edge inside a nested loop all those it does not itself name, changes no configuration, event or register in any run |
| `Sufficiency.InnerEdgeCounterexample` | copper-analysis/src/cfg.rs:365-381 | Why the nested loop's own names are spared: `loop { let x = d.read(); loop { tick; p.write(x) } }` has no register, and drives in every later cycle whatever the inner edge leaves in `x` |
| `Tracing.EveryCycleIsOneWalk` | copper-analysis/src/cfg.rs:1050-1075 | In every run of a loop whose nested loops do not tick, the nodes the run stands at from tick to tick follow edges within the cycle, also through the head, waiting at a folded loop until it is through, and each event is driven by the node stood at when it shows |
| `Phases.CyclesKeepToOnePhase` | copper-analysis/src/cfg.rs:983-990 | In every such run all nodes stood at between two ticks, silent ones and folded loops included, are of one phase |
| `Phases.UnreportedPortHasOnePhase` | copper-analysis/src/cfg.rs:993-1031 | A port the report does not name, and no nested loop drives, is driven from one phase, the same in all cycles of every run |
| `Phases.Find` | copper-analysis/src/cfg.rs:996-1002 | Path halving returns the root and keeps the forest's classes |
| `Phases.CombPhases` | copper-analysis/src/cfg.rs:1325-1350 | Two nodes get one representative exactly when an undirected path of same-cycle edges joins them |
| `Phases.MultiPhaseOutWrite` | copper-analysis/src/cfg.rs:993-1031 | Exactly the ports with writes on unfolded nodes of two phases |
| `Phases.MultiPhaseIff` | copper-analysis/src/cfg.rs:993-1031 | A port is reported exactly when two statements of the loop's own level drive it whose nodes no edges within the cycle join |
| `Memory.CheckBuses` | copper-analysis/src/cfg.rs:1089-1156 | Refuses exactly when an unrolled loop touches memory, a node accesses a bus twice, or a tick-free path joins two accesses of one bus; exclusive branches no path joins are never refused |
| `Memory.CheckMemoryStaging` | copper-analysis/src/cfg.rs:1081-1208 | The bus rule in this graph and every nested loop's |
| `Memory.StagingIsText` | copper-analysis/src/cfg.rs:1081-1208 | Of loops that tick everywhere it refuses exactly those with a tick-free loop that drives a bus, or a statement whose bus can be driven again before the next clock edge, past the head or not, in the module's loop or in one nested at any depth; accesses on exclusive branches never conflict |
| `Memory.AcceptedBusesAreDrivenOnce` | copper-analysis/src/cfg.rs:1107-1156 | If both checks accept a loop whose nested loops do not tick, no cycle of any run, wrapping cycles included, drives one memory bus twice |
| `DefiniteAssignment.MaySets` | copper-analysis/src/cfg.rs:1533-1553 | The in-place MAY iteration terminates and holds exactly what some path may have driven |
| `DefiniteAssignment.MustSets` | copper-analysis/src/cfg.rs:1555-1582 | The in-place MUST iteration, from the top, terminates and holds exactly what no fresh path avoids |
| `DefiniteAssignment.CheckDefiniteAssignment` | copper-analysis/src/cfg.rs:1518-1599 | Reports exactly the outputs some path to the exit drives and another avoids |
| `Latches.CheckCombinational` | copper-analysis/src/cfg.rs:1518-1599 | For a loop-free body: exactly the outputs one choice of arms drives and another does not |
| `Latches.UnreportedIsNoLatch` | copper-analysis/src/cfg.rs:1500-1517 | An unreported output is driven by every evaluation of the body or by none |
| `ReadTiming.Classifier.ClassifyBlock` | copper-analysis/src/cfg.rs:2790-2800 | Appends the timing of every read, in source order |
| `ReadTiming.Classifier.ClassifyStmt` | copper-analysis/src/cfg.rs:2802-2926 | The same for one statement: conditions see ticks in their branches, a nested body is an iteration of its own |
| `ReadTiming.TimingAgreesWithGraph` | copper-analysis/src/cfg.rs:2700-2726 | In the module's loop and in every nested one without jumps of its own, each read stands at a node of that loop's graph and is deferred exactly when that node, or for the bounds of a `for` the one behind the loop, has a path to a tick that does not pass the loop's head; what is driven onto a wire is not in a module without registers, nor anything in a nested loop without a tick |
| `ReadTiming.TimingAgreesUnlessCutOff` | copper-analysis/src/cfg.rs:2790-2926 | With jumps, in every loop at every depth and in both kinds of module, the two agree exactly where no tick still in the text is cut off by a `continue`, or in a nested loop by a `break` |
| `ReadTiming.EverySampleIsTimed` | copper-analysis/src/cfg.rs:2700-2726 | Every statement that reads an input, in the module's loop or a nested one, has a timing at its place |
| `ReadTiming.ContinueCounterexample` | copper-analysis/src/cfg.rs:2831-2926 | A read deferred for a tick its path never reaches |
| `MuxChain.LoweringKeepsValue` | copper-codegen/src/chir_lower.rs:3770-3912 | Wherever the source expression has a value, the mux chain has it: the body of the first arm whose pattern and guard hold, though the last test is dropped |
| `MuxChain.LowersIff` | copper-codegen/src/chir_lower.rs:3770-3912 | An expression lowers, whatever is bound, exactly when every `match` in it has an arm, no guard on its last arm, alternatives that are a lone `_` or have the scrutinee's arity and look only at positions that lower, no binder among several, and guards and values that lower |
| `MuxChain.ChainIsFirstMatch` | copper-codegen/src/chir_lower.rs:3770-3912 | The same under any bindings, nested matches, or-patterns, partial wildcards, binders and guards |
| `MuxChain.LowerCtx.LowerMatchAsChain` | copper-codegen/src/chir_lower.rs:3770-3912 | The back-to-front loop yields the specified chain or fails, lowering a scrutinee position only where a pattern tests or binds it, and restores the bindings on success |
| `MuxChain.LowerCtx.LowerAlts` | copper-codegen/src/chir_lower.rs:3786-3860 | Alternatives are joined leftmost first; an unconditional one makes the arm unconditional; the arm fails on a wrong arity, a position that cannot be lowered, or a binder among several alternatives |
| `MuxChain.CaptureCounterexample` | copper-codegen/src/chir_lower.rs:3863-3867 | Under an inner match an outer binder is lost: the chain reads a module signal of that name |
| `Inlining.BinderCounterexample` | copper-codegen/src/chir_lower.rs:488-499 | A pattern in the body takes a name of the caller's argument; the body fails the freshness condition for every choice of names |
| `Inlining.BuildInlinedExpr` | copper-codegen/src/chir_lower.rs:405-480 | Fails exactly on wrong arity, no tail, a `let` without initializer or an effect before the tail; otherwise the folded substitution of the tail |
| `Inlining.InlinesIff` | copper-codegen/src/chir_lower.rs:405-480 | A call inlines exactly when it has as many arguments as there are parameters and the body is items and initialized `let`s in front of an expression without a semicolon |
| `Inlining.InliningKeepsValue` | copper-codegen/src/chir_lower.rs:405-480 | The inlined expression has the call's value, rebinding `let`s included, when no inner binder captures and no constant is hidden at the call |
| `Inlining.ReplacedKeepsValue` | copper-codegen/src/chir_lower.rs:491-603 | Substitution is evaluation in the environment it stands for |
| `Rendering.RoundTrip` | copper-codegen/src/file_consts.rs:101-141 | Rendered text reads back by SystemVerilog's precedence as the same tree exactly when the tree without invisible groups shows the brackets it needs and has no minus directly under a minus |
| `Rendering.LexRender` | copper-codegen/src/file_consts.rs:101-141 | The rendered text's tokens are the tree's tokens: nothing joins across the places it was put together |
| `Rendering.RowIsShaped` | copper-codegen/src/file_consts.rs:101-141 | Whatever the reader accepts is a tree that shows the brackets it needs and spells its tokens |
| `Rendering.GroupCounterexample` | copper-codegen/src/file_consts.rs:112-112 | A group rendered without brackets reads back as another tree |
| `LocalParams.Find` | copper-codegen/src/file_consts.rs:200-200 | The first occurrence at or after a position |
| `LocalParams.ContainsIdent` | copper-codegen/src/file_consts.rs:196-211 | True exactly when the name stands in the text as a whole identifier |
| `LocalParams.TextMentionsNames` | copper-codegen/src/file_consts.rs:187-211 | Scanning a rendered initializer finds exactly the names of its expression |
| `LocalParams.ReferencedIdents` | copper-codegen/src/file_consts.rs:187-193 | Exactly the constants whose names stand in the text |
| `LocalParams.Orderer.Visit` | copper-codegen/src/file_consts.rs:155-177 | Places the constant after everything it mentions, cycles aside, and restores the visiting set |
| `LocalParams.DependencyOrder` | copper-codegen/src/file_consts.rs:147-184 | Every constant once, each after what it mentions unless the two are on a cycle |
| `LocalParams.UsedLocalparams` | copper-codegen/src/emit.rs:666-695 | Keeps, in order, exactly the constants reached from the text by whole-identifier mention |
| `LocalParams.EmittedExactAndOrdered` | copper-codegen/src/emit.rs:93-129 | Ordering, scan and closure together: exactly the reachable constants, each once, each after every one it mentions |
| `LocalParams.EmitLocalparams` | copper-codegen/src/emit.rs:60-81 | From the usable constants to the emitted list, end to end |

## Left out

- The simulator, the parser, the later lowerings and the memory runtime: their source is not part of this model, so source meaning is compared with the extracted loop instead of simulator with SystemVerilog.
- Tick-free `while` and `loop`, and `break` or `continue` in a tick-free `for`: the lowering behind extraction refuses them, so the machine has no meaning for them and the behaviour theorems leave them out (`Lowerable`); the shape, scoping, splicing and acceptance theorems take them.
- Labelled `break`, `break` with a value, and bare blocks: blocks are taken as flattened into the list around them.
- The selector of a `match` in the statement language: a branch picks its arm by the value of an expression, so patterns, guards and their own graph nodes appear only in `MuxChain`.
- Shadowing: one global store, so a `let` that hides another local until the end of its arm is outside the model; local names are taken to be unique.
- Names the passes invent: counter names are given and assumed distinct, and the search for a spelling of `pc` that is not declared is replaced by the requirement that the name is unused.
- Expression forms the mention scan does not cover, tuples, structs, indices and partial writes: every write here is a full write of one name.
- `RegOut` ports: an output port in the statement language is a combinational one.
- Memory.CheckMemoryStaging: only the bus rule of the memory check; the observation rules (early observation, observation of a port nothing stages) are not modelled, because expressions here have no form for a memory port's result.
- Heuristic alignment rules (`unprotected_pretick_out_write`, `unprotected_trailing_out_write`, `pretick_out_write_before_update`, `multi_write_collapse`) and `derivation_facts`: calibrated by measurement or reporting only, with nothing in the repository to prove them against.
- Error wording, spans and several reported conflicts at once: checks keep accept or refuse, and the set of latches instead of the first one.
- Widths, signedness and truncation in `chir_lower.rs`, and the single `case` form for matches whose arms are all literals: every match is lowered as a chain here.
- SystemVerilog keywords as names, comments and strings in emitted text, and non-ASCII text: the scan and the reader work on ASCII characters, and unary operators nest as table 11-2 of IEEE 1800-2017 orders them.
- `emit_param_header`'s text layout: only which constants it lists and in what order.
- Sufficiency.RegistersSuffice: at a clock edge inside a nested loop the names that loop reads or assigns are spared, because the analysis folds it into one node and reports none of them for its own edges (`InnerEdgeCounterexample`).
- Tracing.EveryCycleIsOneWalk: for loops whose nested loops do not tick, because a ticking one is one opaque node whose clock edge stands for all of its own; so are CyclesKeepToOnePhase, UnreportedPortHasOnePhase and AcceptedBusesAreDrivenOnce.
- Phases.UnreportedPortHasOnePhase: for ports no nested loop drives, because the report looks at unfolded nodes only.
- Pipeline.CompilePreservesBehaviour: for runs that keep the pace (`Paced`); two programs a cycle apart can still drive the same for a while, so the exact conditions are stated at one entry, exit and tick.
- Pace.ExitInStep: for a loop that does not end the body of a counted loop, where its last tick is the enclosing one's own; so is IterationInStep.
- ReadTiming.TimingAgreesUnlessCutOff: for reads in a loop; what stands in front of the module's loop is sampled once and not modelled.
- MuxChain.LoweringKeepsValue: one direction; a lost binder can also go unnoticed, when the arm that names it is never taken.
- Inlining.InliningKeepsValue: one direction; a captured name can have the same value by chance, and a call whose unused argument has no value still inlines.
- Preloop.PreloopDrivesAgain: for statements that only drive; one that also assigns can hide its own repetition (`RepetitionHidden`).
- WholeModule.ModulePreservesBehaviour: for modules with nothing but locals in front of the loop; what actions there do is `Preloop`.
- Progress.ClockedRunsForever: one direction; a loop that can get round its body without a tick need not, and which way it goes is up to its inputs. A `while` or `loop` without a tick is outside it: it may never end within its cycle.
- Acceptance.AcceptedExtracts: a visibly empty counted loop is dropped by the rewrite although the check takes it to tick, so such loops are outside it (`Pipeline.DeclineLate` is one).
