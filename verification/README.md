# muesli-bt: a verified model of its runtime core

A Dafny 4.11 model of the hard parts of the muesli-bt repository, with proofs of what they promise.
`dafny verify dfyconfig.toml` checks all of it.

**Closures, compiled and interpreted.** `make_closure` silently compiles a Lisp body to bytecode, and the runtime
runs that bytecode instead of walking the tree. `Compiler` is the emitter with its back-patched jumps and slot
allocation, proved to produce the code `Bytecode` defines. `Machine` is the stack machine; `Simulation` proves that
code on it does what a structural reading of the form over local slots does, with no side condition:
one stack slot per expression, forward jumps, no internal fault. `Evaluator` is the tree evaluator as recursive functions,
`Interpreter` the evaluator as it runs (loops that bounce in tail position), proved equal to it.
`CompilerCorrectness` proves that bytecode and evaluator agree on clean bodies, for every oracle standing for the rest of the
program; `Divergence` says exactly where and how they do not, and `Causes` that on all accepted bodies there is no other way; `Positions` and `Runtime` take this to whole programs,
to chains of tail calls of any length and to the difference between tail and other positions.
What happens outside a frame (global lookup, primitives, other calls) is an arbitrary function of the history of
the run, and "the same" always means the same value or error after the same history. `Histories` says what a history
means: every event in it is a question really asked of the host at that point, with these arguments, and a failing
answer ends the run. `EvaluatorLaws` are the laws of the forms that are never compiled.

The bytecode really differs from the evaluator in two places. A `let` nested in a second or later initialiser takes
the slot of an earlier binding of the outer `let` (`ClashingBodyDiffers`), and an `or` outside tail position
whose last argument is `#f` gives `#f` where the evaluator gives nil (`FalseOrBodyDiffers`). `Clean` is the syntactic condition that
rules both out where the difference could be seen; it allows every body without a binding `let` in a later initialiser and
without an `or` outside tail position (`PlainIsClean`), and more. `SlotStores` says exactly when a binding survives, and `StoreTrace` ties its stores
to the store instructions a run executes.

**The mark-sweep collector.** `Collector` is the intrusive list over an arbitrary, possibly cyclic heap;
`CollectorPolicy` is its accounting, thresholds and tick-aware policies over every run of operations, and when
pending requests are served.

**The trace validator.** `TraceEvents` states what a well-formed event log is; `TraceValidator` proves that the
one-pass state machine with its two post-passes accepts exactly those, and `TraceDiagnosis` which findings it reports
on any log, well formed or not. `Normalise` is the field-dropping
normaliser and the trace comparison.

**`env.run-loop`.** `RunLoop` is the nested episode and tick loop with fallbacks and recovery. The backend, `on_tick`, the clock, the
observer and the success predicate are an arbitrary script, including throwing at any call. `RunLoopSpec` gives the trace and the result of
a run, each event with the condition under which it occurs, `RunLoop` proves that the loop leaves exactly those, and
`RunLoopProperties` proves what they promise. `RunLoopLaws` tells how a run ends and what each tick leaves behind
from the settings and from what each tick meets alone.

**Text and trees.** `ReaderSpec`, `Reader`, `Printer` and `IncrementalReading` are the reader and printer, and
`ReaderLaws` says what characters mean. `BtCompiler` compiles behaviour-tree forms to node arrays, `BtDefinition` is
`bt.to-dsl`, and `BtRoundTrip` proves what is lost between the two: the strings that name leaves become symbols, and
nothing else. `Fixture` is the benchmark fixture flattener against `bt.to-dsl`; `Rng` is rejection sampling over
SplitMix64, and `RngVectors` works out its first word;
`FallbackCoverage` is the static fallback analysis of generated fragments.

Where code and its documentation or naming pull apart, the code is followed: an `or` in tail position returns its last value, another
one nil; a threshold request stays pending with its reason until a collection; a tick whose
observer throws after its step is counted twice by the recovery of the run loop (`SlipCountsTwice`); a leaf named by a
string comes back from `bt.to-dsl` named by a symbol (`UnchangedExactly`).

## Model

| member | source | states |
|---|---|---|
| `Values.CheckProperList` | src/value.cpp:507-516 | the cursor loop decides proper lists |
| `Values.VectorFromList` | src/value.cpp:494-505 | the loop returns exactly the items of a proper list and fails on every other value |
| `Values.ListFromVector` | src/value.cpp:486-492 | the list consed from the back is proper and has exactly the given items |
| `Bytecode.CodeForward` | src/compiled_eval.cpp:101-255 | every jump of generated code goes strictly forward and stays within it, wherever the code is placed |
| `Bytecode.CompiledRunnable` | src/compiled_eval.cpp:354-369 | in a compiled closure all jumps go strictly forward to at most the final return |
| `Compiler.Emitter.PatchAll` | src/compiled_eval.cpp:157-159 | all recorded exit jumps get the target, nothing else changes |
| `Compiler.Emitter.CompileExpr` | src/compiled_eval.cpp:305-342 | accepts exactly the compilable expressions and appends exactly their code, raising the local count to what it needs |
| `Compiler.Emitter.CompileListForm` | src/compiled_eval.cpp:257-303 | dispatch of list forms, same contract; refused heads give up |
| `Compiler.Emitter.CompileSequence` | src/compiled_eval.cpp:80-99 | sequences, same contract, with a pop between expressions and only the last in tail position |
| `Compiler.Emitter.CompileIfForm` | src/compiled_eval.cpp:101-132 | the two back-patched jumps end up at the else branch and at the end |
| `Compiler.Emitter.CompileAndForm` | src/compiled_eval.cpp:134-161 | the exit jumps of `and`, patched after the loop, are those of the nested form |
| `Compiler.Emitter.CompileOrForm` | src/compiled_eval.cpp:163-190 | the exit jumps of `or`, patched after the loop, are those of the nested form |
| `Compiler.Emitter.CompileLetForm` | src/compiled_eval.cpp:192-234 | binding scan, slot allocation and body give the code of the let form |
| `Compiler.Emitter.CompileInits` | src/compiled_eval.cpp:225-230 | initialisers are compiled in the outer scope and stored to their own slots |
| `Compiler.Emitter.CompileCallForm` | src/compiled_eval.cpp:236-255 | callee, arguments in order, then a call or tail call with their count |
| `Compiler.TryCompileClosure` | src/compiled_eval.cpp:354-369 | the whole emitter computes the compilation function, and gives up exactly when it is undefined |
| `Machine.RunFrame` | src/compiled_eval.cpp:422-494 | the interpreter loop computes the recursive run, in at most as many turns as there are instructions |
| `Simulation.Sim` | src/compiled_eval.cpp:36-59 | for every accepted form: code run anywhere nets exactly one stack value, leaves the rest of the stack alone, empties the stack on a tail call, and ends as the structural slot semantics says |
| `CompilerCorrectness.FrameBehaviour` | src/compiled_eval.cpp:382-500 | with no side condition, a frame of an accepted body returns or hands over a call; locals suffice and no fault is reachable |
| `Runtime.NoInternalFault` | src/compiled_eval.cpp:422-494 | underflow, invalid slot and falling off the end are unreachable, and a tail call leaves an empty stack |
| `CompilerCorrectness.Locality` | src/compiled_eval.cpp:192-234 | code compiled with the next free slot n changes no slot below n and none at or above n plus its depth |
| `CompilerCorrectness.BindsMatch` | src/compiled_eval.cpp:217-234 | after clean initialisers, slots hold what the evaluator's let frame binds |
| `CompilerCorrectness.NeverFalseSound` | src/eval.cpp:440-459 | the static test for forms that cannot give #f is sound |
| `FormSemantics.ExprAgrees` | src/eval.cpp:642-668 | on compilable expressions the evaluator and the form semantics agree |
| `FormSemantics.SequenceAgrees` | src/eval.cpp:764-775 | on compilable bodies the evaluator and the form semantics agree |
| `CompilerCorrectness.SlotsAgree` | src/compiled_eval.cpp:305-342 | clean forms: slot semantics and evaluator give the same outcome, or both a falsy value where only truth matters |
| `CompilerCorrectness.CompiledFrameCorrect` | src/compiled_eval.cpp:354-500 | for every accepted clean body, every oracle, arguments and history, the frame ends exactly as the evaluator ends on the body |
| `Divergence.OrAgreesExactly` | src/compiled_eval.cpp:172-189 | outside tail position an `or` agrees with the evaluator if and only if its arguments do not end in #f after falsy ones; if they do, bytecode gives #f and the evaluator nil after the same history |
| `Divergence.TailOrAgrees` | src/compiled_eval.cpp:163-190 | an `or` in tail position agrees |
| `SlotStores.StoresMakeLocals` | src/compiled_eval.cpp:422-494 | replaying the stores of a form gives the locals it leaves |
| `StoreTrace.FormExecutes` | src/compiled_eval.cpp:422-494 | the stores of a form are exactly the store instructions a run of its code executes, in order and with their values |
| `StoreTrace.FrameStores` | src/compiled_eval.cpp:382-500 | so over a whole frame of every accepted body |
| `StoreTrace.SlotOperands` | src/compiled_eval.cpp:192-234 | every store operand of a form's code lies in the slots the form is given, every load operand in those or earlier ones |
| `StoreTrace.CompiledOperands` | src/compiled_eval.cpp:354-369 | in a compiled closure every slot operand is below the local count, and no store reaches a parameter |
| `SlotStores.BindingSurvivesExactly` | src/compiled_eval.cpp:217-230 | when a let's body starts, its k-th binding has its value if and only if the later initialisers stored nothing over it, or last of all the same value |
| `SlotStores.DepthZeroExactly` | src/compiled_eval.cpp:192-234 | a form needs no slots of its own if and only if no let in it binds a name |
| `SlotStores.PlainIsClean` | src/compiled_eval.cpp:172-234 | a body without an `or` outside tail position and without a binding let in a later initialiser is clean |
| `Divergence.BindingSurvives` | src/compiled_eval.cpp:225-230 | a let's k-th binding survives when no later initialiser needs more than k slots |
| `Divergence.ClashingBodyDiffers` | src/compiled_eval.cpp:217-226 | the closure body `(let ((a 'x) (b (let ((c 'y)) c))) a)` is accepted, and for all x, y its bytecode returns y and the evaluator x |
| `Divergence.FalseOrBodyDiffers` | src/eval.cpp:440-459 | the closure body `(let ((a (or #f))) a)` is accepted; its bytecode returns #f and the evaluator nil |
| `Causes.ClearAgrees` | src/compiled_eval.cpp:305-342 | every accepted form: a bytecode run that overwrites no let binding and needs no `or` that is #f agrees with the evaluator |
| `Causes.DifferencesHaveCauses` | src/compiled_eval.cpp:354-500 | every accepted body, with no condition on its shape: the frame ends as the evaluator does, unless the run showed one of those two causes |
| `Causes.RunsAgreeUnlessShown` | src/eval.cpp:670-698 | every run of every program: runtime and tree evaluator answer the same unless some compiled frame shows a cause |
| `Positions.EvalRefines` | src/eval.cpp:700-735 | evaluating with a refined oracle gives a refined outcome |
| `Positions.TailPosition` | src/eval.cpp:185-190 | every expression gives the same result in tail and in other positions, except that an `or` in its own tail positions may turn nil into #f |
| `Positions.TailPositionOr` | src/eval.cpp:440-459 | the plain value of an `or` is exactly its tail value with #f turned into nil |
| `Runtime.CompiledRunsAgree` | src/eval.cpp:670-698 | whole programs, any depth of calls: a run that meets only clean compiled closures answers the same with bytecode as with the tree evaluator |
| `Runtime.WatchedAgrees` | src/eval.cpp:682-684 | a run stopped at the first unclean closure agrees with the runtime up to there |
| `Runtime.FuelMonotone` | src/eval.cpp:795-801 | in the tree evaluator, a run that ends does not change when allowed more calls |
| `Runtime.VmFuelMonotone` | src/eval.cpp:670-698 | nor does a run of the runtime itself |
| `Runtime.RunRefines` | src/compiled_eval.cpp:422-494 | a frame run with refined answers from outside ends in a refined way |
| `Runtime.TailFormNests` | src/compiled_eval.cpp:236-255 | form by form, tail code followed by its handed-over call is the plain code |
| `Runtime.CompiledTailNests` | src/compiled_eval.cpp:387-499 | one frame: reuse then invoking the callee is what the frame compiled without tail calls returns |
| `Runtime.TailCallsNest` | src/compiled_eval.cpp:387-499 | chains of tail calls of every length: the frame-reusing machine answers as nested calls would |
| `Runtime.NestedFuelMonotone` | src/compiled_eval.cpp:387-499 | nor does a run with nested calls |
| `Runtime.ExecuteCompiledClosure` | src/compiled_eval.cpp:382-500 | the loop over reused frames computes the recursive runtime |
| `Interpreter.EvalIfForm` | src/eval.cpp:405-417 | the step, resumed, is the recursive evaluator's `if`; only tail positions bounce |
| `Interpreter.EvalAndForm` | src/eval.cpp:419-438 | the argument loop, resumed, is the recursive `and` |
| `Interpreter.EvalOrForm` | src/eval.cpp:440-459 | the argument loop, resumed, is the recursive `or`, nil included |
| `Interpreter.EvalBindings` | src/eval.cpp:472-486 | the binding loop computes the frame with later equal names winning, initialisers in the outer scope |
| `Interpreter.EvalLetForm` | src/eval.cpp:461-490 | the step, resumed, is the recursive `let` |
| `Interpreter.EvalCondForm` | src/eval.cpp:492-530 | the clause loop, resumed, is the recursive `cond`, with its malformed clauses |
| `Interpreter.EvalSequenceStep` | src/eval.cpp:764-775 | the loop over a body, resumed, is the recursive sequence |
| `Interpreter.EvalArguments` | src/eval.cpp:661-667 | arguments are evaluated left to right and stop at the first error |
| `Interpreter.CallFrame` | src/eval.cpp:686-690 | parameters defined one by one give the call frame |
| `Interpreter.ApplyCallable` | src/eval.cpp:670-698 | applying in either position, resumed, is the runtime's call; `Histories.PrimitiveAnswers` and `Histories.VmHistories` say what that asks of the host |
| `Interpreter.Lookup` | src/env.cpp:31-39 | the outward walk finds the innermost binding, then the captured environment |
| `Interpreter.EvalStep` | src/eval.cpp:700-735 | one step, resumed, is the whole evaluation, and a bounce is to something smaller or after a call |
| `Interpreter.EvalInPosition` | src/eval.cpp:737-762 | the bounce loop ends and answers as the recursive evaluator with nested calls |
| `Interpreter.InvokeCallable` | src/eval.cpp:795-801 | calling a value from outside is the runtime's call, with the answers `Histories.PrimitiveAnswers` and `Histories.RefusedCalls` state |
| `Histories.TreeHistories` | src/eval.cpp:670-698 | every run of the tree evaluator: the history only grows; an `Applied(id, args)` at position k is the call of that primitive with those arguments on the history before k, a `LookedUp` the same for a name; if the host throws or has no binding there, the event is the last and the run ends with that very error, and these errors arise in no other way |
| `Histories.VmHistories` | src/eval.cpp:670-698 | the same of every run of the runtime with its bytecode |
| `Histories.PrimitiveAnswers` | src/eval.cpp:670-675 | calling a primitive answers with the host's value for these arguments, or its error, and records the call |
| `Histories.GlobalAnswers` | src/env.cpp:31-39 | a name no frame binds answers with the captured environment's binding, or is unbound |
| `Histories.RefusedCalls` | src/eval.cpp:670-698 | a wrong number of arguments and a value that is not callable are errors, and nothing is asked |
| `Histories.ClosureVariables` | src/eval.cpp:670-698 | in a closure's body a name stands for the argument of the last parameter so named, and any other for what the closure's own environment binds it to, in bytecode as in the evaluator |
| `Histories.ApplyIsCall` | src/eval.cpp:670-698 | calling `(lambda (f x) (f x))` with g and v is calling g with v, in bytecode as in the evaluator |
| `EvaluatorLaws.CondIsIf` | src/eval.cpp:492-530 | `(cond (test body ...) clause ...)` is `(if test (begin body ...) (cond clause ...))`, in every position |
| `EvaluatorLaws.CondElse` | src/eval.cpp:492-530 | `(cond (else body ...))` is `(begin body ...)`, and an `else` that is not last is an error |
| `EvaluatorLaws.CondTestOnly` | src/eval.cpp:492-530 | in tail position `(cond (test) clause ...)` is `(or test (cond clause ...))`; no clause gives nil |
| `EvaluatorLaws.Malformed` | src/eval.cpp:405-530 | malformed `quote`, `if`, `let`, `cond` and unquotes are errors that name the form, before anything is evaluated |
| `EvaluatorLaws.Constants` | src/eval.cpp:405-490 | quoted values and constants stand for themselves; empty `begin` and `or` give nil, an empty `and` gives true |
| `EvaluatorLaws.GivesUp` | src/compiled_eval.cpp:293-299 | the compiler accepts no form headed by one of the nine excluded names |
| `Collector.ReachableClosed` | src/value.cpp:89-120 | the reachable set holds the roots and is closed under references |
| `Collector.ReachableUnique` | src/gc.cpp:130-137 | a closed set of reachable nodes that holds the roots is the reachable set |
| `Collector.KeepFacts` | src/gc.cpp:147-180 | keeping a set of nodes keeps exactly them, once each and in order |
| `Collector.MarkNode` | src/gc.cpp:130-137 | marking ends on cyclic graphs, marks what is reachable through unmarked nodes and nothing outside the given closed set |
| `Collector.MarkChildren` | src/value.cpp:89-120 | all references of a value or environment, as `RefersTo` lists them field by field, are marked |
| `Collector.VisitsReferences` | src/value.cpp:89-120 | the visiting order and the graph hold exactly the references: car and cdr of a cons, body, environment and literals of a closure, elements, mapped and queued values, parent and bindings of an environment |
| `Collector.Gc.Unlink` | src/gc.cpp:153-175 | a dead node is cut out of the list in place |
| `Collector.Gc.Retain` | src/gc.cpp:153-175 | a live node stays and loses its mark |
| `Collector.Gc.Sweep` | src/gc.cpp:147-180 | the relinked list is the marked nodes in order, with counts and bytes of what stayed and went |
| `Collector.Gc.MarkRoots` | src/gc.cpp:85-96 | every root slot, root environment or symbol is marked with all it reaches |
| `Collector.Gc.MarkPhase` | src/gc.cpp:84-97 | the marked nodes are precisely those reachable from slots, environments and interned symbols |
| `Collector.Gc.MarkAndSweep` | src/gc.cpp:84-100 | the list becomes precisely the reachable nodes in their old relative order, every mark cleared |
| `Collector.Gc.CollectImpl` | src/gc.cpp:67-128 | the same with the accounts, the next threshold and the begin and end events; every non-null reference field of a kept node is kept, so is every root slot, root environment and interned symbol, and every kept node is a root or referred to by a kept node |
| `Collector.Gc.NothingOutside` | src/value.cpp:89-120 | in a sound heap every reference field of a listed node is null or listed, and so is every root slot, root environment and interned symbol |
| `Collector.Gc.SurvivorsHaveReasons` | src/gc.cpp:130-137 | every survivor is a root or a survivor's field refers to it |
| `Collector.Gc.LinkNode` | src/gc.cpp:23-35 | a new node goes in front, the counters move, and outgrowing the threshold leaves a request |
| `Collector.Gc.RequestCollection` | src/gc.cpp:37-40 | list kept, request pending |
| `Collector.Gc.MaybeCollect` | src/gc.cpp:42-58 | collects, declines or throws as the policy machine says, and then exactly; it throws if and only if a request is pending inside a tick under fail-on-tick-gc, and a pending request is served under the default policy always and outside ticks under every policy but manual |
| `Collector.Gc.Collect` | src/gc.cpp:60-65 | forced collection, or refusal inside a tick |
| `Collector.Gc.EnterTick` | src/gc.cpp:231-233 | tick depth up, nothing else |
| `Collector.Gc.ExitTick` | src/gc.cpp:235-242 | tick depth down, and a pending between-ticks collection done at the outermost exit |
| `Collector.Gc.SetPolicy` | src/gc.cpp:223-225 | policy set, nothing else |
| `Collector.Gc.AccountsBalance` | src/gc.cpp:67-128 | in every state of a collector: nodes in the list and nodes freed make up the allocated ones, events pair up and every collection kept its policy |
| `CollectorPolicy.StepKeeps` | src/gc.cpp:42-128 | every operation keeps the accounts, the event pairing, the policies and the pacing |
| `CollectorPolicy.EveryRun` | src/gc.cpp:23-128 | so does every run from any sound history |
| `CollectorPolicy.RunsAreSound` | src/gc.cpp:67-128 | over every run: allocated = current + freed, begin and end events pair up with consecutive ids, no in-tick collection under fail-on-tick-gc, only forced ones under manual, in-tick ones only forced or under the default policy |
| `CollectorPolicy.ThresholdIsAmortised` | src/gc.cpp:23-35 | a threshold collection visits fewer than twice the nodes allocated since the last one, and all of them together at most twice all allocations |
| `CollectorPolicy.RefusalsChangeNothing` | src/gc.cpp:52-65 | over every run: operations that throw leave nothing behind, the run is that of its other operations |
| `CollectorPolicy.CollectsExactly` | src/gc.cpp:42-65 | which operations collect, and for which reason, if and only if the policy, the tick depth and the pending request say so |
| `CollectorPolicy.PendingExactly` | src/gc.cpp:23-58 | a request is pending after an operation if and only if it was made, the threshold was outgrown, or it was pending and nothing was collected |
| `CollectorPolicy.DepthExactly` | src/gc.cpp:223-242 | only ticks move the depth, never below zero, and only setting the policy sets it |
| `CollectorPolicy.PollServes` | src/gc.cpp:42-58 | after a poll that does not throw, a request is pending only under manual, or inside a tick under between-ticks |
| `CollectorPolicy.ExitServes` | src/gc.cpp:235-242 | under between-ticks nothing is pending once the outermost tick is left |
| `CollectorPolicy.HeapStaysBounded` | src/gc.cpp:23-58 | over every run under the default policy in which each link is polled at once, the list never outgrows the larger of 256 and twice the survivors of the last collection, and nothing is pending after a poll |
| `CollectorPolicy.PolledHeapsStaySmall` | src/gc.cpp:23-58 | so from the start of a collector |
| `TraceValidator.SeqStep` | tools/trace_validator.py:392-442 | the sequence check reports an error exactly when the number is missing or not above all earlier ones |
| `TraceValidator.TickStep` | tools/trace_validator.py:444-577 | the tick state knows the open tick and all ticks seen, and reports exactly the misplaced events |
| `TraceValidator.ExitStep` | tools/trace_validator.py:579-595 | reports exactly a second terminal exit of a node in a tick |
| `TraceValidator.AsyncStep` | tools/trace_validator.py:597-711 | the job table knows activity, requests and submits of every job, and reports exactly unordered acknowledgements and terminal events |
| `TraceValidator.RunKnows` | tools/trace_validator.py:392-711 | after every prefix, the state is what the log so far says |
| `TraceValidator.GoodIsSpec` | tools/trace_validator.py:392-711 | no per-event error if and only if the per-event half of the specification holds |
| `TraceValidator.OverrunsDecide` | tools/trace_validator.py:729-779 | the budget pass reports exactly the over-budget ticks without a deadline event |
| `TraceValidator.SnapshotDecides` | tools/trace_validator.py:781-829 | one deadline snapshot is accepted exactly when each job then active is cancelled later in the tick |
| `TraceValidator.CancelsDecide` | tools/trace_validator.py:781-829 | so for all of them |
| `TraceValidator.ClosedDecides` | tools/trace_validator.py:712-727 | a tick is open at the end exactly when some begin has no end |
| `TraceValidator.OpenIsPending` | tools/trace_validator.py:444-546 | on every log, well formed or not, the open tick is the last one begun, if it has had no end since |
| `TraceValidator.CheckOverruns` | tools/trace_validator.py:729-779 | one budget finding for every completed tick that has one, of its kind, and an error if and only if one of them is |
| `TraceValidator.CheckCancels` | tools/trace_validator.py:781-829 | one finding for every deadline snapshot that has one, in order |
| `TraceValidator.Verdict` | tools/trace_validator.py:374-845 | all findings together are free of errors if and only if the log is well formed |
| `TraceValidator.ValidateTrace` | tools/trace_validator.py:374-845 | `passed` holds if and only if the log is well formed; `truncated` if and only if an open tail is tolerated and the log ends inside a tick; the codes are those of the pass, the open tail, the budget checks and the cancellations, in this order |
| `TraceValidator.EndsAreTerminal` | tools/trace_validator.py:66-67 | the status sets the validator goes by are the specification's ends of nodes and jobs |
| `TraceDiagnosis.PassReports` | tools/trace_validator.py:392-711 | on every log, well formed or not, the pass reports for each event in order exactly: a missing, repeated or not increasing number; a tick begun while it or another is pending or after it completed; an end without its pending tick; an event outside its tick; a second terminal exit; an acknowledgement or end of a job without its request or submit |
| `TraceDiagnosis.BudgetReports` | tools/trace_validator.py:729-779 | when every event is good, a tick is reported over budget, or not measurable, if and only if its end says so and it has no deadline event |
| `TraceDiagnosis.Diagnosis` | tools/trace_validator.py:374-845 | the reported codes start with the findings of the events and the open tail; when every event is good, each kind of later finding is reported if and only if the log has one |
| `Normalise.DropEachIsDropAll` | tools/trace_validator.py:848-869 | dropping paths one by one is dropping their set at once |
| `Normalise.NormalisationIsCanonical` | tools/trace_validator.py:848-869 | for every JSON tree the result does not depend on order or repetition of paths, and dropping again changes nothing |
| `Normalise.LeafSurvives` | tools/trace_validator.py:848-859 | a non-object value is still at its path if and only if it was there and no dropped path leads to it or above it |
| `Normalise.DroppedIsGone` | tools/trace_validator.py:848-859 | nothing is left at a dropped path |
| `Normalise.NormaliseEvent` | tools/trace_validator.py:862-869 | ignored types vanish, the loop over paths drops their set |
| `Normalise.NormaliseTrace` | tools/trace_validator.py:872-878 | the loop computes the canonical form of the trace |
| `Normalise.CompareTraces` | tools/trace_validator.py:1032-1090 | a match if and only if the canonical forms are equal, otherwise the least index at which they differ or at which one ends |
| `RunLoop.Loop.ChooseAndAct` | src/env_builtins.cpp:1266-1303 | the on-time proposal is sent, otherwise the good or else the safe action after a fallback_used; it succeeds exactly when there was one and the backend took it; only an accepted proposal becomes the good action |
| `RunLoop.Loop.StepAndRecord` | src/env_builtins.cpp:1304-1348 | throws exactly when the step, the record emission or the predicate does; otherwise the tick_end with its status |
| `RunLoop.Loop.Attempt` | src/env_builtins.cpp:1249-1348 | throws exactly when the tick fails, with exactly the events of its guarded part |
| `RunLoop.Loop.Rescue` | src/env_builtins.cpp:1380-1405 | sends the good or else the safe action exactly when there is one |
| `RunLoop.Loop.Recover` | src/env_builtins.cpp:1379-1471 | rescue and report with exactly their events; it escapes exactly when its own record emission throws, and otherwise the counters match again |
| `RunLoop.Loop.OneTick` | src/env_builtins.cpp:1243-1472 | exactly the events, the fate, the good action and the step count of the tick |
| `RunLoop.Loop.OneEpisode` | src/env_builtins.cpp:1220-1487 | an episode leaves exactly its events, and ends the run exactly where the run ends |
| `RunLoop.Loop.Run` | src/env_builtins.cpp:1197-1489 | the nested loops leave exactly the specified trace and result of every script, with the counters kept along the way equal to the numbers of events, and so all the promises below |
| `RunLoopProperties.ExitExactly` | src/env_builtins.cpp:1215-1489 | a run ends at a tick if and only if that tick fails, is stopped or succeeds, no earlier one did and all resets so far worked; likewise for a throwing reset, a refusal and the end of all episodes |
| `RunLoopProperties.ActionsAreJustified` | src/env_builtins.cpp:1220-1303 | on every run, returning or throwing: each proposal is its tick's own candidate with its own lateness, once per tick; each action sent is this tick's on-time candidate, the latest such candidate the backend accepted in the same episode, or the safe action when there is none; each acceptance is the backend's; each event stands in the episode and the tick it names; each tick_end tells its tick's number, overrun and status, from the tick's fields; episodes are numbered and their steps counted |
| `RunLoopProperties.TickSound` | src/env_builtins.cpp:1243-1472 | one more tick keeps that |
| `RunLoopProperties.RunsAreOrderly` | src/env_builtins.cpp:1266-1352 | an on-time proposal is the very next thing sent, any other leads to a fallback or an error, and a tick without error ends on an accepted action |
| `RunLoopProperties.ReturnedRunsAreClosed` | src/env_builtins.cpp:1197-1489 | episode begins and ends alternate and balance, exactly one run_end, last, repeating the result; fallback and overrun counts equal their events |
| `RunLoopProperties.StepsAreTicks` | src/env_builtins.cpp:1197-1489 | tick_end ids are 1..steps if and only if the last tick did not make its step and then have the observer or predicate throw; one step per tick otherwise, at most episodes times steps per episode; only the last tick has another status than running |
| `RunLoopProperties.SlipCountsTwice` | src/env_builtins.cpp:1304-1472 | for every script whose first tick makes its step and then throws so: one tick, two steps counted, a single tick_end numbered 2 |
| `RunLoopProperties.ResultExactly` | src/env_builtins.cpp:1215-1489 | a run throws if and only if a reset or the recovery's record emission throws where it ends; its status is the fate of its last tick, whose place the step count gives; it runs to its end if and only if no tick fails, stops or succeeds |
| `RunLoopProperties.RecoverySends` | src/env_builtins.cpp:1379-1397 | a failing last tick sends the good or else the safe action whenever there is one |
| `RunLoopLaws.RunsEnd` | src/env_builtins.cpp:1215-1489 | on the fields of the ticks: a run succeeds if and only if some tick it makes fails nowhere, can continue, succeeds and stop_on_success is set; the backend stops it if and only if such a tick cannot continue; it ends in an error if and only if such a tick throws or has nothing to send and its record does not throw; it throws if and only if that record or a reset does; it runs through if and only if every tick goes on; it is refused if and only if several episodes are asked of a backend without reset |
| `RunLoopLaws.LastTickDecides` | src/env_builtins.cpp:1304-1489 | the last tick decides status, episodes and steps, a tick that threw after its step counting twice |
| `RunLoopLaws.FateOnFields` | src/env_builtins.cpp:1266-1378 | whether and how a tick ends the run, from its fields and those of the earlier ticks of its episode |
| `RunLoopLaws.GoodIsLatest` | src/env_builtins.cpp:1220-1303 | the last good action is the latest on-time candidate of the episode; there is none exactly when there was none |
| `RunLoopLaws.TickShape` | src/env_builtins.cpp:1243-1472 | the events of a tick are, literally and in order, those of the branches its fields make it take, in the loop's body and in its catch block |
| `Reader.Parser.SkipWsAndComments` | src/reader.cpp:63-78 | the cursor stops at the next expression character or at the end |
| `Reader.Parser.ReadExpr` | src/reader.cpp:80-117 | reads what the grammar function reads, with its errors, and stops where it stops; `ReaderLaws` says what that is |
| `Reader.Parser.ReadList` | src/reader.cpp:119-132 | the same for list items |
| `Reader.Parser.ReadString` | src/reader.cpp:134-173 | the same for strings and escapes |
| `Reader.Parser.ReadAtom` | src/reader.cpp:179-221 | the token up to the next delimiter, as the atom it denotes |
| `Reader.Parser.ReadAllExpressions` | src/reader.cpp:19-29 | the same for the whole text |
| `Reader.ReadOne` | src/reader.cpp:229-238 | one expression, none, several and failed are told apart exactly |
| `ReaderLaws.QuotesMean` | src/reader.cpp:93-112 | wherever it stands, a quote, backquote, comma or comma-at before an expression x reads as `(quote x)`, `(quasiquote x)`, `(unquote x)` or `(unquote-splicing x)`, and fails as x fails |
| `ReaderLaws.QuotedValuesRead` | src/reader.cpp:93-112 | each of the four prefixes before the text of any readable value reads as that two-element list |
| `ReaderLaws.BlankMeansNothing` | src/reader.cpp:63-78 | a space, tab, newline, vertical tab, form feed or carriage return before an expression, an item or the end changes nothing |
| `ReaderLaws.CommentMeansNothing` | src/reader.cpp:63-78 | nor does a semicolon with the rest of its line |
| `ReaderLaws.TokenReads` | src/reader.cpp:175-221 | a maximal run of other characters is one token: true, false, nil, a float exactly when it has a point or exponent letter and `strtod` takes it, otherwise an integer or a symbol |
| `ReaderLaws.IntegersRead` | src/reader.cpp:179-221 | decimal text is an integer within 64 bits and a symbol beyond |
| `ReaderLaws.EscapesMean` | src/reader.cpp:134-173 | the five escapes stand for their characters, every other is refused |
| `IncrementalReading.RejectionIsFinal` | src/reader.cpp:63-173 | a text rejected without the incomplete flag is rejected with the same error however it goes on |
| `IncrementalReading.IncompleteExactly` | src/main.cpp:301-328 | a text is flagged incomplete if and only if it is rejected and some continuation is accepted |
| `IncrementalReading.PrefixesAreKept` | src/main.cpp:301-328 | every prefix of an accepted text is accepted or flagged incomplete |
| `Printer.EscapeString` | src/printer.cpp:14-40 | the loop escapes every character |
| `Printer.AppendList` | src/printer.cpp:64-86 | the cursor loop writes proper and dotted lists as the recursive text function |
| `Printer.PrintImpl` | src/printer.cpp:92-173 | the readable text of a value, or the refusal to write it |
| `Printer.IntTextReads` | src/printer.cpp:64-116 | the decimal text of every integer is read as that integer |
| `Printer.EscapeReads` | src/reader.cpp:134-173 | an escaped string is read back unchanged, wherever it stands |
| `Printer.WriteReads` | src/reader.cpp:80-221 | the text of a readable value is read back as it wherever it stands before a delimiter |
| `Printer.PrintThenRead` | src/printer.cpp:14-116 | for every value of nil, booleans, integers, strings, readable symbols and proper lists, reading what was written gives exactly that value |
| `Printer.AllAreReadable` | src/reader.cpp:80-221 | every float-free value the reader produces from any text is readable again |
| `Printer.ReadWriteRead` | src/printer.cpp:64-116 | read, write, read is the identity on every float-free value of every accepted text |
| `ReaderLaws.RoundTripExactly` | src/printer.cpp:64-116 | a value without floats is written and read back unchanged if and only if it is readable |
| `ReaderLaws.WrittenExactly` | src/printer.cpp:92-173 | a value can be written if and only if no part of it is a function, a handle or an unwritable float |
| `ReaderLaws.DottedReads` | src/printer.cpp:64-86 | a dotted list is read back as the list with the symbol dot before its tail |
| `Rng.XorShiftUndone` | src/builtins.cpp:267-273 | xor-shift steps by a third of the word or more are undone by folding twice, both ways |
| `Rng.TimesUndone` | src/builtins.cpp:267-273 | multiplication by an odd constant modulo 2^64 is undone by its inverse |
| `Rng.MixIsBijective` | src/builtins.cpp:267-273 | the output function has a two-sided inverse on 64-bit words |
| `Rng.StatesDistinct` | src/builtins.cpp:267-273 | the states of any 2^64 consecutive draws are different |
| `Rng.DrawsDistinct` | src/builtins.cpp:267-273 | so are the words drawn |
| `Rng.RejectionsAreFew` | src/builtins.cpp:688-704 | no more than t draws in a row fall below t |
| `Rng.Generator.Next` | src/builtins.cpp:267-273 | the state advances by one and its word comes out |
| `Rng.Generator.Int` | src/builtins.cpp:688-704 | ends within (2^64 mod n) + 1 draws with the first word not below the threshold, modulo n; n <= 0 fails and draws nothing |
| `Rng.Threshold` | src/builtins.cpp:696-697 | the negated bound modulo the bound is 2^64 mod n |
| `Rng.AcceptedIsUniform` | src/builtins.cpp:688-704 | every residue below n comes from exactly (2^64 - 2^64 mod n)/n accepted words |
| `Rng.SeedsAreUniform` | src/builtins.cpp:688-704 | over all seeds, every value below n is given by the first draw exactly that often |
| `RngVectors.FirstWord` | src/builtins.cpp:267-273 | the first word from seed 0 is 0xe220a8397b1dcdaf, as in the published sequence |
| `Fixture.Definition.AppendNode` | bench/runtimes/muesli_adapter.cpp:415-427 | the recursive appends and child pushes leave the tree in pre-order behind what was there |
| `Fixture.Definition.CompileTree` | bench/runtimes/muesli_adapter.cpp:411-431 | the node array is the tree in pre-order and the root is node 0 |
| `Fixture.FlattenShape` | bench/runtimes/muesli_adapter.cpp:411-431 | ids are positions, each child's id exceeds its parent's, each node but the root is a child exactly once, the root never |
| `Fixture.Stream.AppendFixtureNode` | bench/fixtures/source_factory.cpp:9-33 | the recursive writer appends the text of the tree |
| `Fixture.Rebuilt` | src/builtins.cpp:1928-2051 | a flattened tree standing anywhere in a larger acyclic array is rebuilt as its source form |
| `Fixture.TextMatches` | src/printer.cpp:64-116 | writing the source form of a tree gives its text |
| `Fixture.FlattenedFixtureWrites` | src/builtins.cpp:1928-2061 | flatten, rebuild and write gives the directly written text, character for character |
| `Fixture.FixtureSources` | bench/fixtures/source_factory.cpp:64-68 | the three programs together give the same text for every fixture tree |
| `BtCompiler.CompilerState.CompileChildren` | src/bt/compiler.cpp:50-52 | the child loop appends the arrays of the children one after another and collects their roots |
| `BtCompiler.CompilerState.CompileLeaf` | src/bt/compiler.cpp:81-98 | the argument loop keeps every literal and refuses everything else |
| `BtCompiler.CompilerState.CompileNode` | src/bt/compiler.cpp:13-147 | appends the nodes of the form's tree, children before their parent, or fails exactly where the form spells no tree |
| `BtCompiler.CompileDefinition` | src/bt/compiler.cpp:217-221 | the node array of a form, with its root last |
| `BtRoundTrip.ParseSpells` | src/bt/compiler.cpp:13-147 | a form is accepted as a tree if and only if it spells that tree: tag, then count or name, then children or literal arguments, with the numbers of them the kind asks for |
| `BtRoundTrip.LayoutNumbered` | src/bt/compiler.cpp:205-209 | ids are positions and every child comes before its parent |
| `BtRoundTrip.CompiledFormsReturn` | src/builtins.cpp:1928-2061 | for every accepted form, `bt.to-dsl` of its array is its canonical form, which compiles to the same array |
| `BtRoundTrip.FormsIdentifyDefinitions` | src/builtins.cpp:2063-2068 | two accepted forms have the same canonical form if and only if they compile to the same array |
| `BtRoundTrip.CanonicalTextRecompiles` | src/builtins.cpp:2063-2068 | the written canonical form, read and compiled again, gives the same array |
| `BtRoundTrip.UnchangedExactly` | src/builtins.cpp:2001-2014 | an accepted form comes back unchanged if and only if no condition or action in it is named by a string |
| `FallbackCoverage.LongRunningHasFallback` | tools/validate_generated_bt_fragment.py:243-256 | true if and only if already covered or each long-running node has an ancestor `sel` or `reactive-sel` with a fallback branch strictly after the branch leading to it |
| `FallbackCoverage.CoveredStep` | tools/validate_generated_bt_fragment.py:243-256 | coverage over all paths, one level at a time |
| `FallbackCoverage.MissingFallback` | tools/validate_generated_bt_fragment.py:259-267 | rejects if and only if some path leads to a `plan-action`, `vla-request` or `vla-wait` with no `sel` or `reactive-sel` above it that has a safe leaf in a later branch |
| `FallbackCoverage.BranchHasLeaf` | tools/validate_generated_bt_fragment.py:229-240 | a fallback branch is one with a `succeed`, a `fail` or a `stop`, `safe-stop` or `always-success` action below composites only |
| `FallbackCoverage.NamesAgree` | tools/validate_generated_bt_fragment.py:222-256 | the sets of names the analysis goes by are those of long-running, selecting and composite nodes |

## Left out

- CompilerCorrectness.CompiledFrameCorrect: states agreement under the syntactic condition `CleanBody`, one way only, because whether a body outside it differs depends on which branches run and whether the clashing value is used; `DifferencesHaveCauses` covers every accepted body by what its run shows, and `OrAgreesExactly` and `BindingSurvivesExactly` are the exact local conditions.
- Divergence.BindingSurvives: the static test is one way only, because a later initialiser that reserves a slot may not reach the store; `BindingSurvivesExactly` is the exact condition on a run.
- Runtime.CompiledRunsAgree: calls are bounded by fuel that only decides whether a run ends (`FuelMonotone`, `VmFuelMonotone`, `NestedFuelMonotone`); running out of native stack is not modelled, and primitives do not call closures back.
- Machine.RunFrame: the deque behind the operand stack, its registration as roots and the garbage-collector polls inside the machine and the bounce loop are not modelled.
- Interpreter.EvalStep: `define`, `lambda`, `load`, `bt`, `defbt` and `quasiquote` end in an `OutsideModel` error; without them no call frame can be captured, so frames are values.
- Interpreter.EvalInPosition: leaves out the same forms.
- Global environments are an arbitrary function of the history; `define` and the binding maps of captured environments are not modelled.
- Collector.Gc.CollectImpl: pause times and the byte fields of the events, a listener that re-enters the collector or throws, and freeing memory are not modelled; unlinked nodes are simply no longer in the list.
- Collector.Gc.LinkNode: the new node's references must already be in the heap, as they are when it is allocated.
- Adding and removing root slots and root environments, and the scope guards around them: only easy members.
- TraceValidator.ValidateTrace: messages, line numbers, severities other than errors and the sorted order of the budget pass are not modelled; events carry the fields the validator looks at, with measured times as reals.
- Normalise.CompareTraces: JSON values are compared structurally, so that true and 1, or 1 and 1.0, are different; reading files, context windows and the summary of a divergence are not modelled.
- Normalise.NormaliseEvent: the source edits a private deep copy of the payload in place, here the tree is rebuilt as a value; splitting dotted paths is not modelled.
- RunLoop.Loop.Run: configuration parsing, observations, schemas, pacing, log files and the result map beyond its counters are not modelled; actions are identities, and an action map that is nil cannot occur.
- Reader.Parser.ReadAtom: whether a token is a float is an arbitrary function of its text; characters stand for bytes, and line and column numbers are not modelled.
- Printer.ReadWriteRead: takes it that `strtod` refuses the names `quote`, `quasiquote`, `unquote` and `unquote-splicing`.
- Printer.PrintThenRead: floats are left out because the printer keeps 15 digits, and improper lists because the reader takes the dot as a symbol (`ReaderLaws.DottedReads`).
- Rng.Generator.Int: states uniformity per accepted word and per first draw; the joint distribution of later draws is not claimed. `rng.uniform` and `rng.normal` are floating point and left out.
- Fixture.Definition.CompileTree: node ids are unbounded, so trees of more than 2^32 nodes are not truncated.
- Fixture.Rebuilt: the rebuilding function is defined on acyclic arrays; on a cyclic one the source does not end.
- BtCompiler.CompilerState.CompileNode: error messages are not told apart, and node ids are unbounded.
- BtRoundTrip.CanonicalTextRecompiles: takes the canonical form to be readable, so it holds no floats and no name the reader would split or take for something else.
- FallbackCoverage.MissingFallback: the tokeniser and the shape checks before the coverage check are not modelled.
- `bt::tick`, the scheduler, planner and VLA services, the event-log body, serialisation, `pq.*`, JSON builtins, request parsing, benchmarks and ROS2, PyBullet and WebSocket code are not part of this model.
