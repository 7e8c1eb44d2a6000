# F1R3FLY in Dafny

A Dafny model of the parts of F1R3FLY with the most intricate state, and proofs about it. `dafny verify dfyconfig.toml` checks the whole project.

**The Rosette compiler and its machine.** `Compile` is the code generator for constants, variables, free symbols, requests, `if` and `seq`: it plans the argument registers of a request, spills results to temporaries, picks short or long instruction forms, pools literals and emits forward jumps. `Codec`, `Bits` and `Fields` are the 16-bit instruction words, `Linking` and `Patching` are label resolution, `Vm` is the virtual machine, `Meaning` gives expressions a value without any machine. `Correct` proves that the linked code does what the expression means, and `Delivery` for which expressions there is code. `Assembler` and `Emission` are the same generator in its own imperative form, on growing buffers and label tables, proved to compute exactly what `Compile` computes. `Defects` holds the inputs on which the generator goes wrong.

**Contexts, queue, exporter, tuples.** `ForkJoin`, `Requests` and `Contexts` are the fork and join of contexts: replies arrive in any order, a counter decides when a context resumes. `ObQue` is the ring buffer of strands, `Export` the object-graph exporter, `TupleExprs` and `TupleSlice` are tuple expressions and their slicing, `Zip` is tuple-zip and tuple-unzip. `PubKey` and `Secp` are the secp256k1 script, with `Modular` and `Fermat` for its arithmetic.

**RSpace.** `Radix`, `History`, `NodeCodec`, `RadixStore` and `HistoryStore` are the history: a radix tree with path compression, changed by batches of actions, stored node by node under the hash of its serialization. `TupleSpace` and `Space` are produce and consume on the hot store. `Checkpoint` is the conversion of soft checkpoints to records and back, and `Ast` the equality and hash of Rholang terms, by which its maps are keyed.

The main results:

- *Compiler correctness* (`Correct.CompilerCorrect`): whatever the environment and the primitives, a compiled expression ends with the value, the message or the error that the expression means.
- *Delivery* (`Delivery.Delivered`): code is delivered exactly for the expressions in which nothing suspends and whose literals fit.
- *Back-patching* (`Patching.EmissionLinks`): whatever is emitted in whatever order, every jump leads to where its label was bound last.
- *Confluence* (`ForkJoin.Confluence`, `Completes`, `RunsEnd`): all orders of events lead to one final state, no run gets stuck before it, and none is longer than three steps for each context.
- *Export closure* (`Export.Exporter.Collect`): exactly the reachable objects are added to the list, each once, and no reference dangles.
- *History independence* (`History.HistoryIndependent`, `HistoryStore.HashIsContents`): two histories have the same root hash exactly if they leave the same contents, and a batch fails only if the hash has a collision (`HistoryStore.ProcessBatch`).
- *Quiescence* (`Space.RSpace.Produce`, `Consume`, `Perform`): after any operations no continuation waits for data that are there, if no join names a channel twice. This is exactly when joins find their data (`TupleSpace.JoinExact`, `ServeExact`).

## Where the code does not do what it is meant to do

The model follows the code. Each line names the result that shows the deviation and says exactly when the code is right.

- A global that is transferred to a variable has its extension word missing (rosette/src/Compile.cc:561-566); the value is never stored (`Defects.GlobalXferLost`).
- Storing into a global reports failure after it has stored (rosette/src/Location.cc:87-91): code that sends something to a global faults (`Defects.GlobalDestFaults`). Literals and lookups arrive exactly at all other destinations (`Leaves.LitRuns`, `LookupRuns`); `Defects.XferExact` says the same of transfers.
- `av_size` has 8 bits while 256 arguments are admitted (rosette/h/Compile.h:147, rosette/src/Compile.cc:1433-1468): with 256 arguments the delivered code faults (`Defects.FlatFaults`, against `FlatRuns`). The counter of outstanding replies has the same width: answers are right throughout all runs exactly if no context awaits more than 255 replies (`ForkJoin.TruthfulExact`, `NarrowExact`).
- Jump addresses have 10 bits and are not checked (`Defects.PatchReadsBack`).
- The macro `MaxArgs` lacks parentheses (rosette/h/Location.h:37), so oversized tuples are always sliced recursively, and a tail is then stored one place behind the vector (`TupleSlice.NodeExists`). With the parentheses every expression has a node that stands for it (`TupleSlice.MeantMeans`).
- `ObQue::deq` on an empty queue goes on as if there were an element (`ObQue.ObQue.Deq`, `ObQue.DeqCounts`).
- `tupleexpr-concat` drops the rest of its first argument, so that its result stands for the two exactly if there is none (`TupleExprs.Exprs.Concat`, `RestLost`).
- Matched data are removed by ascending index, although they are first sorted in descending order (rspace++/src/rspace/rspace.rs:903-907): a join that takes two data from one channel leaves the second one behind (`Space.SecondStays`, `Space.RemovalExact`).
- A match takes the first datum that suits a pattern and never another one (rspace++/src/rspace/space_matcher.rs:24-68). A join that names a channel twice may take for one pattern what only the other could have used: it is then left waiting although its data are there (`TupleSpace.GreedyMisses`, `Space.ConsumeMisses`). A join always finds its data exactly if it names no channel twice (`TupleSpace.JoinExact`).
- A failed match is rolled back from the first saved entry to the last, so of two entries for one channel the newer one wins (`TupleSpace.OlderLost`), and the continuation tried next misses a datum (`Space.ProduceMisses`). The cache is always restored exactly if the join names no channel twice (`TupleSpace.RollbackExact`).
- A soft checkpoint loses the flag of failed produces (`Checkpoint.RoundTripExact`).
- The hash of a term does not tell the alternatives of a `oneof` apart (`Ast.AlternativesCollide`); this is no error, since a hash may collide.

## Model

| member | source | states |
|---|---|---|
| Bits.Get | rosette/h/Ob.h:312-315 | the mask and shift of get_field are division by the position and remainder by the width |
| Bits.Set | rosette/h/Ob.h:317-322 | set_field with a value that fits replaces the field and keeps every other bit of the word |
| Codec.RoundTrip | rosette/src/Code.cc:90-194 | every legal instruction, with its extension words and the escape for large primitive numbers, is recovered by the decoder together with its length, wherever it stands |
| Codec.StreamRoundTrip | rosette/src/Code.cc:693-708 | walking any stream of deposited legal instructions recovers each instruction and the address at which it starts |
| Fields.HeadWritten | rosette/h/Opcode.h:251-285 | the sequence of field writes of each format adds the operands up without one disturbing another |
| Fields.ExtWritten | rosette/h/Opcode.h:287-290 | the same for extension words |
| Fields.EncodeWritten | rosette/src/Code.cc:90-194 | for operands in range the emit functions deposit exactly the words of the codec |
| Fields.Accessors | rosette/h/Opcode.h:204-247 | what the field readers return, as quotients and remainders of the word |
| Fields.NarrowAccessors | rosette/h/Opcode.h:212-238 | the same for the readers of fields inside the opcode byte |
| Schedule.SortedDescends | rosette/src/Compile.cc:955-983 | the sort permutes the inlined expressions and leaves their register needs in descending order |
| Schedule.FixedSafe | rosette/src/Compile.cc:986-1023 | from a sorted stack the spilling makes every order of results safe |
| Schedule.RearrangedSafe | rosette/src/Compile.cc:920-929 | for any sizes and destinations: running the expressions in the chosen order overwrites no earlier result, temporaries are different from each other and from all destinations and lie below the new av_size, and the expressions are a permutation of the given ones |
| Rearrange.DetermineFree | rosette/src/Compile.cc:932-952 | for destinations in descending order the loop finds exactly the registers below av_size that no result occupies |
| Rearrange.SortInlinedExprs | rosette/src/Compile.cc:955-983 | the sort in place computes the order about which SortedDescends speaks |
| Rearrange.FixInlinedConflicts | rosette/src/Compile.cc:986-1023 | the loop in place computes the spilled destinations, the new av_size and the transfers home about which FixedSafe speaks |
| Linking.OffsetStays | rosette/src/Compile.cc:2392-2412 | a literal offset that has been handed out names the same literal in every later state, and is at most 127 |
| Linking.ResolvedAt | rosette/src/Labels.cc:186-192 | resolving changes exactly the registered words |
| Linking.PatchedIs | rosette/src/Code.cc:196-199 | an address below 1024 replaces the low ten bits of a word and nothing else |
| Linking.ResolveLinks | rosette/src/Labels.cc:179-192 | after resolving, every registered word holds its label's address and every other word is as emitted |
| Linking.FetchPlain | rosette/src/Code.cc:56-71 | in every later linked program an instruction is fetched from where it was deposited |
| Linking.FetchJump | rosette/src/Compile.cc:450-454 | a jump is fetched with the address of its label |
| Patching.AllDoneValid | rosette/src/Labels.cc:138-152 | whatever is emitted, labelled, registered and bound, again or for the first time, fixups stay in order and within the code, and labels within the code |
| Patching.LastBinding | rosette/src/Labels.cc:150-152 | a label holds the address at which it was bound last |
| Patching.EmissionLinks | rosette/src/Labels.cc:186-192 | all these units link: each instruction is fetched from where it was deposited, and each jump leads to where its label was bound last |
| Leaves.ImmediateExact | rosette/src/Compile.cc:334-338 | immediate are exactly the values in the machine's table of literals |
| Leaves.LitRuns | rosette/src/Compile.cc:327-408 | for every value and destination the chosen sequence ends with the value in the destination, nothing else changed but the result register, if and only if the destination is not a global |
| Leaves.XferRuns | rosette/src/Compile.cc:541-636 | the same for every source and destination, except a global sent to a variable |
| Leaves.LookupRuns | rosette/src/Compile.cc:411-447 | the same for what the environment answers, deferred or not; the code faults if there is no answer |
| Leaves.PrimRuns | rosette/src/Compile.cc:252-317 | for every destination the application of a primitive delivers its result, or drops it in limbo; an error is a fault |
| Growth.DispatchGrows | rosette/src/Compile.cc:1035-1141 | emitting any expression only appends: earlier words, literals and bound labels stay, and its jumps go forward |
| Growth.ForwardLabels | rosette/src/Compile.cc:2415-2452 | in the code of any expression each label used by a jump is bound behind that jump, so the assertion in resolveLabel never fails |
| Plans.InlinedSchedulable | rosette/src/Compile.cc:1422-1477 | the inlined arguments of a request reach the scheduling as it expects them: different destinations, in descending order, below av_size |
| Plans.PlanPlanned | rosette/src/Compile.cc:1470-1474 | the plan of a request covers each inlined argument once and is safe |
| Meaning.InlineableResult | rosette/src/Compile.cc:1472-1475 | an inlineable expression never sends a message: its outcome is its value |
| Correct.SimplesRun | rosette/src/Compile.cc:1103-1120 | the simple arguments arrive in their registers and disturb no other |
| Correct.InlinedRun | rosette/src/Compile.cc:1123-1141 | the inlined arguments, run in the chosen order, all arrive where the schedule wants them |
| Correct.XfersRun | rosette/src/Compile.cc:868-876 | the transfers bring every spilled result home |
| Correct.KidsRun | rosette/src/Compile.cc:1035-1100 | after inlined, transferred and simple arguments each register holds the value of its argument; an argument without value faults |
| Correct.RequestRuns | rosette/src/Compile.cc:252-317 | a primitive request leaves the primitive's result in its destination |
| Correct.BranchesRun | rosette/src/Compile.cc:1735-1756 | after the condition exactly one branch is run, the second one if and only if the condition is false |
| Correct.SeqRuns | rosette/src/Compile.cc:2134-2136 | the second part is evaluated in the scope left by the first, and its value is the result |
| Correct.InlineRuns | rosette/src/Compile.cc:1035-1141 | the code of an inlineable expression puts its value into the destination, keeps every argument register at or above its av_size, and faults exactly if there is no value |
| Correct.RequestTail | rosette/src/Compile.cc:1486-1538 | a request in tail position returns the primitive's result or dispatches its message |
| Correct.IfTail | rosette/src/Compile.cc:1735-1756 | in tail position, too, exactly the branch that the condition selects is run |
| Correct.CompilerCorrect | rosette/src/Compile.cc:2415-2452 | from any state at its start, linked code below 1024 words reaches the outcome that the expression means: returned value, dispatched message or fault |
| Delivery.DispatchPools | rosette/src/Compile.cc:2392-2412 | emission adds exactly the literals of the expression to the literal vector, and gives up exactly if they do not fit or a message is not the last thing done |
| Delivery.Delivered | rosette/src/Compile.cc:2415-2452 | an expression with at most 255 arguments and 256 argument registers for each request is compiled if and only if nothing in it suspends and it has, with its source, at most 128 different literals |
| Delivery.DeliveredIfFew | rosette/src/Compile.cc:2405-2406 | it is compiled if nothing suspends and at most 127 literals occur in it: constants that are not immediate, free symbols, and distant variables, which count twice |
| Delivery.RefusedIfWide | rosette/src/Compile.cc:1465-1468 | no code is delivered if a request anywhere in the expression needs more than 256 argument registers |
| Defects.GlobalXferIs | rosette/src/Compile.cc:561-566 | the words emitted for a global and a variable are read as a single instruction |
| Defects.GlobalXferLost | rosette/src/Compile.cc:561-566 | the variable keeps what it held, so the transfer is right if and only if that was the value of the global |
| Defects.GlobalDestFaults | rosette/src/Location.cc:87-91 | sending 0 to a global ends in a fault |
| Defects.XferExact | rosette/src/Compile.cc:541-636 | for every source and destination: a transfer to itself is right; a global sent to another variable is right if and only if that held its value already; any other transfer is right if and only if the destination is not a global |
| Defects.FlatCompiles | rosette/src/Compile.cc:1465-1468 | a request with up to 256 literal arguments is compiled |
| Defects.FlatRuns | rosette/src/Compile.cc:1433 | with at most 255 arguments its code yields what the primitive does |
| Defects.FlatFaults | rosette/h/Compile.h:147 | with 256 arguments its code faults whatever the primitive does, as soon as the argument vector that is there is full |
| Defects.PatchReadsBack | rosette/h/Opcode.h:278 | a patched word holds its address if and only if the address is below 1024 |
| Assembler.CodeBuf.Deposit | rosette/src/Code.cc:56-71 | a word is appended; earlier words survive growth |
| Assembler.CodeBuf.GrowCodevec | rosette/src/Code.cc:74-87 | growing leaves room and keeps all words |
| Assembler.CodeBuf.Emit | rosette/src/Code.cc:90-166 | the macros' words are appended, which for operands in range are those of the codec |
| Assembler.CodeBuf.EmitExt | rosette/src/Code.cc:169-194 | the same for extension words |
| Assembler.CodeBuf.PatchAddress | rosette/src/Code.cc:196-199 | one word changes, in its address field |
| Assembler.LabelTable.NewLabel | rosette/src/Labels.cc:108-122 | labels are numbered in turn and start unbound, across growth of the table |
| Assembler.LabelTable.AddFixup | rosette/src/Labels.cc:139-149 | a fixup is appended to those registered, across growth |
| Assembler.LabelTable.BindLabel | rosette/src/Labels.cc:152-154 | one label gets an address, cut to 16 bits |
| Assembler.LabelTable.ResolveLabels | rosette/src/Labels.cc:186-192 | the patch loop computes the resolved code about which ResolvedAt speaks |
| Assembler.CompilationUnit.ExtendLitvec | rosette/src/Compile.cc:2392-2412 | an equal literal is shared, otherwise the pool grows by one, or the compilation is given up |
| Assembler.CompilationUnit.EmitOpAndLabel | rosette/src/Compile.cc:450-454 | the jump is deposited and its word registered for its label |
| Assembler.CompilationUnit.SetLabel | rosette/src/Compile.cc:2521-2523 | the label is bound to the current end of the code |
| Assembler.CompilationUnit.Finish | rosette/src/Compile.cc:2441-2448 | the finished program is the resolved code with the literals |
| Emission.Lit | rosette/src/Compile.cc:327-408 | the imperative emitter appends the very words about which LitRuns speaks |
| Emission.Lookup | rosette/src/Compile.cc:411-447 | the same for LookupRuns |
| Emission.Xfer | rosette/src/Compile.cc:541-636 | the same for XferRuns |
| Emission.XferNodes | rosette/src/Compile.cc:1103-1120 | the same for the transfers of XfersRun |
| Emission.InlinedNodes | rosette/src/Compile.cc:1123-1141 | the same for InlinedRun |
| Emission.RequestNode | rosette/src/Compile.cc:1486-1494 | the same for RequestRuns and RequestTail |
| Emission.IfNode | rosette/src/Compile.cc:1735-1756 | the same for BranchesRun and IfTail |
| Emission.SeqNode | rosette/src/Compile.cc:2134-2136 | the same for SeqRuns |
| Emission.Dispatch | rosette/src/Compile.cc:1035-1100 | the recursive emitters build, in place, the unit about which InlineRuns speaks |
| Emission.CompileExpression | rosette/src/Compile.cc:2415-2452 | the imperative compiler delivers exactly the program about which CompilerCorrect and Delivered speak, or none |
| ForkJoin.StepOk | rosette/src/Ctxt.cc:219-234 | every step of every context keeps the invariant: counters equal the missing replies, filled slots hold their values, each context is waiting, scheduled, replying or done |
| ForkJoin.EveryRunOk | rosette/src/Ctxt.cc:219-234 | the invariant holds throughout every run |
| ForkJoin.ScheduledWhenFilled | rosette/src/Ctxt.cc:223-225 | a context is scheduled once, and only when all its slots hold the values of their sub-expressions |
| ForkJoin.RunsEnd | rosette/src/Compile.cc:1144-1165 | every run has fewer than three events for each context |
| ForkJoin.Confluence | rosette/src/Ctxt.cc:219-234 | whatever the order of replies, runs that cannot go on have reached the same state, whose single answer is the value of sequential evaluation |
| ForkJoin.Completes | rosette/src/Ctxt.cc:219-234 | every run can be continued to that state |
| ForkJoin.AnswersEarly | rosette/src/Compile.cc:471-478 | a context that awaits more than 255 replies can answer before they have all arrived, with a wrong value |
| ForkJoin.TruthfulExact | rosette/h/Compile.h:154 | all answers are right throughout all runs if and only if no context awaits more than 255 replies |
| ForkJoin.NarrowExact | rosette/h/Compile.h:154 | the counters are right throughout all runs if and only if no context awaits more than 255 replies |
| Requests.CompoundNode.Analyze | rosette/src/Compile.cc:907-917 | a sub-expression joins exactly one of the three stacks, and counter and av_size follow |
| Requests.Initialize | rosette/src/Compile.cc:1422-1477 | the loops over target, rest and arguments leave the stacks, the counter and av_size of the request's sub-expressions in the order of the source |
| Requests.OutstandingNested | rosette/src/Compile.cc:907-917 | the counter is the number of sub-expressions that suspend |
| Requests.CounterAgrees | rosette/src/Compile.cc:471-478 | the counter a context starts with is the one the compiler has computed |
| Requests.DestsDiffer | rosette/src/Compile.cc:1455-1470 | different sub-expressions reply to different places |
| Requests.ContextsEvaluate | rosette/src/Compile.cc:1486-1494 | the contexts of a request stand for its sequential evaluation: arguments in the order in which they are written, the elements of the rest, then the primitive or the call to the target |
| Requests.RequestJoins | rosette/src/Compile.cc:1144-1165 | whatever the order of events, the contexts of a request end with one answer, the value of its sequential evaluation |
| Contexts.Ctxt.Rcv | rosette/src/Ctxt.cc:219-234 | a reply is stored and counted, and the context is put into the strand queue exactly when it was the last one; a failed store is reported and changes nothing else |
| ObQue.ObQue.constructor | rosette/h/ObQue.h:51-57 | a new queue is empty |
| ObQue.ObQue.Empty | rosette/h/ObQue.h:59 | head, tail and last_added tell whether the queue is empty |
| ObQue.ObQue.Enq | rosette/h/ObQue.h:61-73 | the element comes behind all others, across wrap-around; the array is replaced exactly if the queue was full |
| ObQue.ObQue.Deq | rosette/h/ObQue.h:75-88 | the element that has waited longest is taken; an empty queue is left with as many elements as fit, but for one |
| ObQue.ObQue.Push | rosette/src/ObQue.cc:38-51 | a pushed element comes before all others; the array is replaced exactly if the queue was full |
| ObQue.ObQue.Reset | rosette/src/ObQue.cc:53-57 | the queue is empty again |
| ObQue.ObQue.Resize | rosette/src/ObQue.cc:59-82 | the copied queue has the same contents and twice the room |
| ObQue.FirstInFirstOut | rosette/h/ObQue.h:61-88 | over any run of enq and deq, what was taken followed by what is left is what was there followed by what was enqueued |
| ObQue.Perform | rosette/h/ObQue.h:61-88 | the ring buffer performs these runs: elements leave it in the order in which they came |
| ObQue.DeqCounts | rosette/h/ObQue.h:75-88 | moving head takes the last element of the ring if there is one, and makes a full ring but for one of an empty one |
| Export.Exporter.Populate | rosette/src/Export.cc:64-134 | a value is written as a constant or as a reference to a listed object; only objects reachable from it are added, and the stack is restored |
| Export.Exporter.Store | rosette/src/Export.cc:98-118 | an object is listed before its fields are visited, so cycles end, and all its parts are listed afterwards |
| Export.Exporter.Handler | rosette/src/Export.cc:105-106 | the fields of an object are written in order, each denoting its value |
| Export.Exporter.MetaAndParent | rosette/src/Export.cc:111-117 | meta and parent are written, each denoting its object |
| Export.Exporter.Collect | rosette/src/Export.cc:799-839 | after an export the list holds exactly what it held before and what is reachable from the literals, and the new code block refers to listed objects only |
| Export.ReachableListed | rosette/src/Export.cc:64-134 | in any sound export everything reachable from a listed object is listed |
| Export.LitvecListed | rosette/src/Export.cc:830-838 | a finished block of literals has no dangling reference and all that is reachable from it is listed |
| Fermat.Inverse | scripts/pubkey.py:37-41 | modulo a prime p, the power p - 2 of a number that p does not divide is its inverse |
| Secp.AddIsSum | scripts/pubkey.py:42-51 | modulo the field prime, the formulas yield the mirror image of the third point on the chord through two points, or on the tangent |
| Secp.SumUnique | scripts/pubkey.py:42-51 | there is only one such point |
| Secp.SumOnCurve | scripts/pubkey.py:42-51 | the sum of two points on the curve is on the curve |
| PubKey.BaseOnCurve | scripts/pubkey.py:22-26 | the script's base point is on the curve modulo the script's field prime |
| PubKey.AddIs | scripts/pubkey.py:42-51 | on two multiples of the base point that are not inverse to each other the formulas yield the multiple that is their sum |
| PubKey.AddPoints | scripts/pubkey.py:42-51 | add meets only such points; its result is their sum and on the curve |
| PubKey.NextSum | scripts/pubkey.py:57-63 | each round extends the accumulated multiple by one bit of the key, and the accumulating addition is a regular one |
| PubKey.SecretToPublic | scripts/pubkey.py:5-65 | the result is sk times the generator for every valid key, a point on the curve, and other keys are refused |
| TupleExprs.Exprs.Blank | rosette/src/Expr.cc:460-479 | a new tuple expression is normalized and has room for n elements in front of the rest's elements |
| TupleExprs.Exprs.Create | rosette/src/Expr.cc:440-457 | the given elements come in front of the rest's, the result is normalized, and nothing else changes |
| TupleExprs.Exprs.Cons | rosette/src/Expr.cc:523-531 | one element comes in front of the others |
| TupleExprs.Exprs.MakeSlice | rosette/src/Expr.cc:534-543 | a stretch of the elements, without rest |
| TupleExprs.Exprs.New | rosette/src/Expr.cc:710-737 | the elements of a tuple in front of a rest that may be a tuple expression itself |
| TupleExprs.Exprs.Split | rosette/src/Expr.cc:754-790 | the split fails if and only if there are too few elements; otherwise the parts are the first n elements and a normalized expression with all others and the rest |
| TupleExprs.Exprs.Tail | rosette/src/Expr.cc:804-822 | all elements but the first, and the rest |
| TupleExprs.Exprs.Concat | rosette/src/Expr.cc:824-837 | both lists of elements and the second rest; the result stands for the two expressions if and only if the first has no rest; NILexpr is left as it was |
| TupleExprs.Exprs.PiecesJoin | rosette/src/Expr.cc:824-837 | both lists of elements and the second rest are what the two expressions stand for if and only if the first has no rest |
| TupleExprs.Exprs.RestLost | rosette/src/Expr.cc:824-837 | an expression with a rest only, joined with the empty one, is lost |
| TupleExprs.Exprs.SplitJoin | rosette/src/Expr.cc:754-790 | splitting at any n and creating a tuple expression from the parts gives back elements and rest |
| TupleSlice.MakeSlices | rosette/src/Compile.cc:2612-2636 | the slices, 255 or 254 in number, joined, are the elements: none lost, none repeated, in order |
| TupleSlice.UnquotedMeans | rosette/src/Compile.cc:2573-2575 | a literal with the unquoted parts stands for the expression if and only if no part is computed |
| TupleSlice.NodeMeans | rosette/src/Compile.cc:2573-2645 | slicing an expression of any length ends, no request or vector is wider than 255, and the nodes stand for the elements and the tail in order |
| TupleSlice.NodeExists | rosette/src/Compile.cc:2624-2638 | all stores are within bounds if and only if the expression is constant, has no tail or has fewer than 255 elements |
| TupleSlice.MakeOneLevel | rosette/src/Compile.cc:2597-2617 | the slices of the branch for one level, joined, are the elements |
| TupleSlice.CutsFit | rosette/src/Compile.cc:2597-2638 | with the bounds that are meant nothing is lost, the slices get shorter, and they and the tail have at most 255 places |
| TupleSlice.MeantMeans | rosette/src/Compile.cc:2573-2645 | with the bounds that are meant every expression, with or without a tail, has nodes that stand for its elements and its tail in order, none wider than 255 |
| Zip.Unzip | rosette/src/BaseSupp.cc:920-974 | part j gets every element at a place that is j modulo the stride, and no other |
| Zip.ZipParts | rosette/src/BaseSupp.cc:977-1009 | zipping the parts of a tuple gives the tuple back, every slot written |
| Radix.UpdateReads | rspace++/src/rspace/history/radix_tree.rs:1251-1369 | after an insertion the key has its value and every other key what it had |
| Radix.UpdateNone | rspace++/src/rspace/history/radix_tree.rs:1251-1369 | "no change" is reported if and only if the key already had that value |
| Radix.UpdateValid | rspace++/src/rspace/history/radix_tree.rs:1251-1369 | insertion keeps the tree compressed: no node below the root with fewer than two items, all keys of one length |
| Radix.CompactReads | rspace++/src/rspace/history/radix_tree.rs:1180-1241 | merging a node with its only item does not change what can be read |
| Radix.CompactValid | rspace++/src/rspace/history/radix_tree.rs:1180-1241 | merging restores compression |
| Radix.DeleteReads | rspace++/src/rspace/history/radix_tree.rs:1378-1430 | after a removal the key has no value and every other key what it had |
| Radix.DeleteNone | rspace++/src/rspace/history/radix_tree.rs:1378-1430 | "no change" is reported if and only if the key had no value |
| Radix.DeleteValid | rspace++/src/rspace/history/radix_tree.rs:1378-1430 | removal keeps the tree compressed |
| Radix.UniqueNode | rspace++/src/rspace/history/radix_tree.rs:1180-1241 | two compressed trees from which the same can be read are the same tree |
| History.MakeActionsReads | rspace++/src/rspace/history/radix_tree.rs:1440-1630 | the grouped, recursive processing of a batch gives every key its action's effect and leaves all others |
| History.BatchIsSequence | rspace++/src/rspace/history/radix_tree.rs:1440-1630 | it builds the same tree as the actions one at a time |
| History.RootReads | rspace++/src/rspace/history/instances/radix_history.rs:54-98 | after any batches a key reads as the last action on it |
| History.HistoryIndependent | rspace++/src/rspace/history/instances/radix_history.rs:59-98 | two sequences of batches build the same tree if and only if they leave the same contents |
| History.RemoveUndoes | rspace++/src/rspace/history/instances/radix_history.rs:59-98 | removing a key that was new restores the very tree |
| NodeCodec.RoundTrip | rspace++/src/rspace/history/radix_tree.rs:66-247 | decoding a serialized node gives the node |
| NodeCodec.EncodeInjective | rspace++/src/rspace/history/radix_tree.rs:74-200 | different nodes have different serializations |
| NodeCodec.EncodeNode | rspace++/src/rspace/history/radix_tree.rs:74-200 | the buffer, sized in advance and filled in place, holds exactly the serialization |
| NodeCodec.Size | rspace++/src/rspace/history/radix_tree.rs:76-100 | the size computed in advance is that of the serialization |
| NodeCodec.DecodeNode | rspace++/src/rspace/history/radix_tree.rs:205-247 | the cursor loop computes the decoding of RoundTrip, and rejects what does not fit |
| RadixStore.NodeFits | rspace++/src/rspace/history/radix_tree.rs:116-200 | every node of a valid tree over keys of at most 127 bytes can be serialized |
| RadixStore.SameAddress | rspace++/src/rspace/history/radix_tree.rs:274-278 | within a store, one hash stands for one whole tree |
| RadixStore.RadixTree.LoadNode | rspace++/src/rspace/history/radix_tree.rs:892-935 | loading by hash gives the node that was saved |
| RadixStore.RadixTree.SaveNode | rspace++/src/rspace/history/radix_tree.rs:949-974 | the node is stored under its hash; a hash taken by other bytes is reported and nothing changes; in a store where everything is under its hash this shows a collision of the hash |
| RadixStore.RadixTree.ReadAt | rspace++/src/rspace/history/radix_tree.rs:1061-1096 | reading through the store gives what the tree holds |
| RadixStore.RadixTree.SaveCompact | rspace++/src/rspace/history/radix_tree.rs:1180-1241 | the stored item stands for the compacted tree |
| RadixStore.RadixTree.Update | rspace++/src/rspace/history/radix_tree.rs:1251-1369 | the store gains the nodes of the updated tree and keeps all older trees; it fails only if the hash has a collision |
| RadixStore.RadixTree.UpdateChild | rspace++/src/rspace/history/radix_tree.rs:1257-1281 | the same below a pointer whose prefix the key shares |
| RadixStore.RadixTree.Remove | rspace++/src/rspace/history/radix_tree.rs:1378-1430 | the store gains the nodes of the tree without the key and keeps all older trees; it fails only if the hash has a collision |
| RadixStore.RadixTree.RemoveChild | rspace++/src/rspace/history/radix_tree.rs:1383-1403 | the same below a pointer whose prefix the key shares |
| HistoryStore.NoDuplicates | rspace++/src/rspace/history/instances/radix_history.rs:47-52 | comparing sizes finds a repeated key if and only if there is one |
| HistoryStore.OneStored | rspace++/src/rspace/history/radix_tree.rs:1440-1466 | a single action is an update or a removal of the stored item |
| HistoryStore.ActionsStored | rspace++/src/rspace/history/radix_tree.rs:1440-1630 | processing a batch on stored nodes gives the stored form of the batch on trees |
| HistoryStore.ProcessBatch | rspace++/src/rspace/history/instances/radix_history.rs:59-98 | a batch with a repeated key is refused; otherwise the new root hash is that of the processed tree, all of it is in the store, and older trees stay; it fails only if the hash has a collision |
| HistoryStore.HashIsContents | rspace++/src/rspace/history/instances/radix_history.rs:59-98 | two histories in one store have the same root hash if and only if they leave the same contents |
| TupleSpace.Shuffle | rspace++/src/rspace/rspace.rs:1124-1134 | a shuffled copy is some permutation; nothing below depends on which |
| TupleSpace.FindMatching | rspace++/src/rspace/space_matcher.rs:24-68 | the first datum that matches is found; what is delivered has the payload that the matcher returns and everything else from the datum, which leaves the cache unless it is persistent |
| TupleSpace.Extract | rspace++/src/rspace/space_matcher.rs:70-109 | pattern by pattern the first match is taken from what the patterns before have left, for any join, and what was there before is saved |
| TupleSpace.ExtractedSuits | rspace++/src/rspace/space_matcher.rs:70-109 | what a complete extraction delivers matches the patterns, is there, and is taken from different data |
| TupleSpace.GreedyMisses | rspace++/src/rspace/space_matcher.rs:24-68 | for any join that names a channel twice there are data that suit and that are not found |
| TupleSpace.JoinExact | rspace++/src/rspace/space_matcher.rs:70-109 | data that suit are found, whatever the matcher, the patterns, the data and the order, if and only if the join names no channel twice |
| TupleSpace.RollbackExact | rspace++/src/rspace/space_matcher.rs:167-170 | the cache is restored, whatever is matched with whatever, if and only if the join names no channel twice |
| TupleSpace.RollbackLoses | rspace++/src/rspace/space_matcher.rs:167-170 | a case in which it is not, for any join that names a channel twice |
| TupleSpace.OlderLost | rspace++/src/rspace/space_matcher.rs:167-170 | of two saved entries for one channel the older one is lost |
| TupleSpace.Rollback | rspace++/src/rspace/space_matcher.rs:167-170 | the loop puts the saved entries back, first to last |
| TupleSpace.FirstMatch | rspace++/src/rspace/space_matcher.rs:127-174 | the loop tries the continuations one after the other, for any join, each on the cache that the rollbacks have left |
| TupleSpace.ServeExact | rspace++/src/rspace/space_matcher.rs:127-174 | some continuation is served whenever one could be, whatever the matcher, the data and the order, if and only if the join names no channel twice |
| Space.RSpace.constructor | rspace++/src/rspace/hot_store.rs:1025-1035 | a space over a history in which nothing waits for data that are there is quiescent |
| Space.NothingWaits | rspace++/src/rspace/hot_store.rs:1025-1035 | a history without continuations is such a one |
| Space.RSpace.Consume | rspace++/src/rspace/rspace.rs:563-648 | for any join: data are taken if and only if the match finds them; then they are different stored data, delivered with the payloads that the matcher returns; otherwise the continuation is stored; a quiescent space stays so if and only if data were found or not there, and always if the channels are different |
| Space.ConsumeBreaks | rspace++/src/rspace/rspace.rs:563-648 | any join that names a channel twice can be left waiting although its data are there |
| Space.ConsumeMisses | rspace++/src/rspace/rspace.rs:563-648 | the smallest case, from a space in which nothing waits |
| Space.WaitingOnce | rspace++/src/rspace/hot_store.rs:230-296 | a continuation that is put waits afterwards, and none waits twice |
| Space.RSpace.StoreWaiting | rspace++/src/rspace/rspace.rs:870-880 | the continuation waits afterwards, once, with its joins; the space stays quiescent if and only if its data are not there |
| Space.RSpace.FindMatch | rspace++/src/rspace/rspace.rs:1076-1122 | a match is reported if and only if one of the channel's joins is served; if no join names a channel twice, none is reported only if the new datum completes no waiting continuation |
| Space.RSpace.Produce | rspace++/src/rspace/rspace.rs:660-716 | the datum is stored if and only if no join is served; otherwise a continuation that it completes is resumed, with the payloads that the matcher returns, and its data are taken; a quiescent space stays so if and only if one was resumed or the datum is of no use, and always if no join names a channel twice |
| Space.ProduceMisses | rspace++/src/rspace/space_matcher.rs:127-174 | after a rollback a continuation on a join of three channels, two of them equal, is missed |
| Space.RSpace.ProcessMatch | rspace++/src/rspace/rspace.rs:757-797 | the matched continuation disappears, and joins without continuations; its data are removed, exactly the non-persistent ones if the channels are different; the space stays quiescent |
| Space.RSpace.PutDatum | rspace++/src/rspace/hot_store.rs:380-412 | one channel gains the datum, and the space stays quiescent if and only if it is of no use to any continuation |
| Space.RSpace.Take | rspace++/src/rspace/rspace.rs:898-928 | data are only taken away, so the space stays quiescent; if the channels are different, each loses exactly its candidate, unless that is persistent |
| Space.RemovedAt | rspace++/src/rspace/rspace.rs:903-920 | candidates on different channels are removed independently of the order |
| Space.Perform | rspace++/src/rspace/rspace.rs:563-716 | after any sequence of produces and consumes, on joins that name no channel twice, no continuation waits for data that are there; none ever waits twice |
| Space.SecondStays | rspace++/src/rspace/rspace.rs:903-907 | of two data taken from one channel the second one stays |
| Space.RemovalExact | rspace++/src/rspace/rspace.rs:903-920 | different data are removed exactly as taken if and only if the join takes at most one from the channel |
| Checkpoint.CollectedLists | rholang/src/lib.rs:493-527 | inserting the listed entries of a map, in any order, rebuilds the map |
| Checkpoint.Save | rholang/src/lib.rs:240-270 | the loop encodes each entry of a map once, in some order |
| Checkpoint.Load | rholang/src/lib.rs:493-527 | the loop rebuilds a map from its records, and a missing part fails |
| Checkpoint.CreateSoftCheckpoint | rholang/src/lib.rs:225-481 | the record holds all five maps, the log in order and the counter |
| Checkpoint.RevertToSoftCheckpoint | rholang/src/lib.rs:484-740 | the checkpoint of a record is the one of RoundTrip |
| Checkpoint.RoundTrip | rholang/src/lib.rs:484-740 | whatever the orders of iteration, reverting restores all maps, the ordered log and the counter, with failed flags cleared |
| Checkpoint.RoundTripExact | rholang/src/lib.rs:225-740 | the checkpoint comes back unchanged if and only if it holds no failed produce |
| Ast.ComparesAll | models/src/lib.rs:59-1046 | every comparison looks at all fields of its message but locallyFree |
| Ast.HashesCompared | models/src/lib.rs:73-1046 | every hash feeds the fields its comparison looks at, in the same order |
| Ast.EqErased | models/src/lib.rs:59-1046 | terms of any depth are equal if and only if they agree after erasing every locallyFree |
| Ast.EqIsEquivalence | models/src/lib.rs:59-1046 | equality is reflexive, symmetric and transitive |
| Ast.EqFeeds | models/src/lib.rs:73-1046 | equal terms feed the same tokens to the hasher |
| Ast.DifferFeeds | models/src/lib.rs:73-1046 | terms that differ in one place that is compared, at any depth, feed different tokens: a scalar, the presence of an optional, the length of a vector |
| Ast.AlternativesCollide | models/src/lib.rs:413-456 | two alternatives with the same payload feed the same tokens and are not equal |

## Left out

Rosette:

- Garbage collection, PROTECT, write barriers and pointer tagging: objects are values or class instances.
- Code for sub-expressions that suspend (push and pop of contexts, tagged returns, resume code): the code generator here gives up on them as if it had aborted; their contexts are modelled in `ForkJoin`.
- Nodes for let, letrec, method, proc, free, set!, goto, label, block and tuple; symbol resolution, which turns a symbol into a location, is taken as done.
- Bit-field locations, upcalls and the details of errors: an error of a primitive or a lookup is a fault.
- Correct.CompilerCorrect: requires code below 1024 words and at most 255 argument registers, because outside these bounds it is false (`Defects.PatchReadsBack`, `Defects.FlatFaults`).
- Delivery.Delivered: requires at most 255 arguments and 256 argument registers for each request; with more than 256 there is no code (`Delivery.RefusedIfWide`), with 256 arguments the code is wrong (`Defects.FlatFaults`).
- Codec.RoundTrip: speaks of operands that fit their fields, as all operands of admitted expressions do; the number of arguments is cut to 8 bits.
- Assembler.CompilationUnit.SetLabel: requires code below 65536 words, so that the 16-bit label does not wrap.
- Emission.CompileExpression: requires at most 255 argument registers and code below 65536 words, as above.
- Linking.ResolvedAt: requires the fixups in ascending order, as every emission leaves them (`Patching.AllDoneValid`).
- Leaves.LitRuns: leaves out the destination limbo and the register ARGVEC, which no node stores into, and globals beyond the slots of the top environment, whose store is dropped.
- Contexts.Ctxt.Rcv: covers replies to argument and context registers, the destinations of the sub-expressions of a request; the register that holds the argument vector is none of them.
- ForkJoin.Confluence: requires at most 255 outstanding replies for each context, because otherwise answers can be wrong (`ForkJoin.TruthfulExact`).
- Export: the table of handlers is a parameter; a handler is the list of the fields it populates.
- TupleSlice.NodeMeans: says nothing of oversized expressions with a tail, which the code stores behind the vector (`TupleSlice.NodeExists`); `TupleSlice.MeantMeans` covers them as they are meant.
- TupleExprs.Exprs.Split: requires a natural number unless the expression is empty; for a negative one the primitive copies from outside the elements.
- Zip.Unzip: requires a positive stride. Stride 1, for which the tuple itself is copied, and stride 0, which stands for the number of elements and divides by zero for the empty tuple, are not modelled.
- PubKey.SecretToPublic: takes as given that the multiples of the base point form a cyclic group of order N under the sum of chords and tangents, and that the field prime is a prime.

RSpace and Rholang:

- Locks and parallelism: an operation is atomic, and the groups of a batch are processed one after the other.
- Cache and database are one store, in which a collision is noticed at once; bounds of the read cache, sequential export, commit.
- RadixStore.RadixTree.Update: after a collision of the hash only the growth of the store is stated.
- Installed continuations, peeks, replay, the event log and the changes of the hot store.
- Space.Perform: states the law for joins that name no channel twice, because for all others it is false (`Space.ConsumeBreaks`).
- Checkpoint.RoundTrip: the byte encoding of the records and the foreign-function interface are not modelled.
- Ast: the alternatives of a `oneof` are numbered; that each has its arm in the comparison is not modelled.
- Casper, block storage, networking, the Rholang interpreter and the node's plumbing.
