# fiber, modelled in Dafny

`fiber` turns a recursive Python function into a *fiber*: a step function
that a trampoline scheduler drives, so that deep recursion runs on an
explicit stack of frames instead of the Python call stack. The lowering is a
chain of passes over the function's AST:

- suspending calls (calls to other fibers) are hoisted into fresh
  temporaries, innermost first;
- `for` loops become `while` loops, and loop tests become plain names;
- locals are lifted into a `frame` dictionary;
- the body is cut at every suspending call and each piece is guarded by a
  program-counter test (`insert_jumps`).

At run time, `run` keeps a stack of `StackFrame`s. It binds arguments with
`bind_frame` and acts on the `CallOp`, `TailCallOp` and `RetOp` values that
step functions return. `src/manual.py` shows the target shape written by
hand, for edit distance.

The project models these pieces:

| module | models |
|---|---|
| `Wrappers` | `Option` and `Result` |
| `PyAst` | the subset of Python's `ast` the passes touch |
| `Utils` | `utils.py`: the fresh-name generator, `is_scope`, `fmap_statements` |
| `Expressions` | `expressions.py`, and the expression walk of `transform.py` |
| `Transform` | `transform.py`: `promote_to_temporary` |
| `Substitution` | the name substitutions behind `replace_variable` and `promote_variable_access` |
| `Mappers` | `src/mappers.py` |
| `LegacyMappers` | the older `mappers.py`, where it differs |
| `Jumps`, `JumpsExamples` | `src/jumps.py` and its tests |
| `Fiber` | `fiber.py` |
| `Trampoline`, `TrampolineBind`, `TrampolineRun`, `TrampolineExamples` | `src/trampoline.py` and its tests |
| `TrampolineDefaults` | defaults of positional parameters in `bind_frame`, bound as written and as evidently intended |
| `LegacyTrampoline` | the older `trampoline.py` |
| `Manual` | `editDistance` and `editDistanceImpl` of `src/manual.py` |

How the model works:

- **Pure code.** The AST passes are pure code and are modelled as functions
  over datatypes.
- **Fresh names.** The fresh-name generator is a value, `NameIter(prefix,
  count)`, that the passes thread from call to call.
- **`fmap_statements`.** This is a loop that patches `body[-1]`. It is a
  method (`Utils.FmapStatements`) proved equal to a recursive function
  (`Utils.Fmap`), and the lemmas are stated about the function.
- **The scheduler.** `StackFrame` is a class holding a frame dictionary,
  the step function it runs and the variable awaiting a callee's result;
  the scheduler updates the frame and that variable in place. `run` is a
  method over a sequence of these frames.
  `bind_frame` is a method whose loops are proved against a specification
  function.

## Model

| member | source | states |
|---|---|---|
| Utils.NatToStringInjective | utils.py:10-12 | two counters print as the same decimal string only when they are equal |
| Utils.DunderNamesDistinct | utils.py:10-12 | the names one `dunder_names` generator yields are pairwise distinct |
| Utils.NextFresh | utils.py:10-12 | `next` yields a name never issued before, and afterwards that name counts as issued |
| Utils.IsScope | utils.py:7-16 | the statements `is_scope` picks (`for`, `while`, `if`) all own a `body` |
| Utils.Fmap | utils.py:26-38 | a successful `fmap_statements` returns the scope with every non-body field kept, and no deeper than before |
| Utils.FmapStatements | utils.py:26-38 | the loop that extends `body` and patches `body[-1]` computes exactly `Fmap` |
| Utils.FmapAppend | utils.py:33-36 | one turn of the loop computes exactly `FmapStep` |
| Utils.FmapStepPlain | utils.py:33-34 | a statement that is not a scope contributes exactly the mapper's output |
| Utils.FmapStepScope | utils.py:33-36 | for a scope, the mapper's output is appended and its last element is replaced by that element mapped in turn |
| Utils.FmapBodyErrorStops | utils.py:33-36 | once `body[-1]` fails on a prefix, the whole mapping fails with the same error |
| Utils.FmapSucceeds | utils.py:26-38 | for a mapper that never deepens a statement and ends a scope's output with a statement owning a body, `fmap_statements` never hits `IndexError` or `AttributeError` |
| Utils.FmapKeep | utils.py:26-38 | mapping with `lambda s: [s]` gives back an equal tree and uses no names |
| Utils.FmapEverywhere | utils.py:26-38 | a property the mapper establishes on its output holds of every statement of the result, recursively through every scope |
| Expressions.WithKwValuesSame | expressions.py:15 | rebuilding keywords from their own values gives them back |
| Expressions.FillKeysSame | expressions.py:15 | rebuilding dictionary keys from their own non-`None` keys gives them back; `**` entries stay `None` |
| Expressions.Rebuild | expressions.py:15 | a node rebuilt from new sub-expressions has exactly those sub-expressions; a call stays a call with the first of them as callee, and a name stays as it is |
| Expressions.RebuildChildren | expressions.py:15 | `map_expression` with the identity gives back the same node |
| Expressions.Hoist | expressions.py:6-24 | hoisting consumes exactly one name per appended assignment |
| Expressions.HoistUnfold | expressions.py:11-24 | sub-expressions are hoisted first, and a call to a name in `fns` is then assigned to the next name and replaced by a load of it |
| Expressions.HoistListUnfold | expressions.py:11-15 | sub-expressions are hoisted left to right, sharing one generator and one assignment list |
| Expressions.HoistRoot | expressions.py:20-24 | a suspending call becomes a load of the last name issued; any other node keeps its kind; a name is untouched |
| Expressions.HoistRemovesCalls | expressions.py:6-24 | no suspending call is left in the rewritten expression |
| Expressions.HoistedCallee | expressions.py:20-23 | a callee is a suspending name after hoisting exactly when it was one before |
| Expressions.HoistAssignments | expressions.py:20-23 | the k-th appended assignment is `name_k = <suspending call>`, with the generator's names in order |
| Expressions.HoistOperandsFree | expressions.py:15-23 | every appended assignment holds its one suspending call at its root, with call-free operands |
| Expressions.HoistCount | expressions.py:6-24 | exactly one assignment is appended per suspending call in the expression |
| Expressions.CallCountPositive | expressions.py:20 | an expression has a suspending call exactly when its count of them is positive |
| Expressions.AnyCallSome | expressions.py:20 | a list has a suspending call exactly when one of its elements does |
| Expressions.HoistNoCallUnchanged | expressions.py:6-24 | an expression without suspending calls comes back unchanged, with nothing appended and no name used |
| Expressions.HoistInnermost | expressions.py:20-23 | a suspending call with call-free operands becomes a load of the next name, with one assignment of the call itself |
| Expressions.HoistGolden1 | expressions.py:6-24 | `bar(n)` is hoisted to one temporary |
| Expressions.HoistGolden2 | expressions.py:6-24 | `bar(bar(1), 3)` is hoisted innermost first, to two temporaries |
| Expressions.HoistGolden3 | expressions.py:6-24 | `bar(bar(bar(1), 3), 5)` is hoisted innermost first, to three temporaries |
| Expressions.HoistGoldenBaz | expressions.py:20 | a call to `baz`, which is not in `fns`, stays an operand |
| Expressions.HoistGolden | transform_test.py:5-37 | the return value of the first `if` of the golden test hoists to four temporaries, in order, with `baz(t)` left in place |
| Transform.HoistStmt | transform.py:11-26 | walking a statement keeps its kind and depth and never touches a scope's `body` |
| Transform.HoistHeader | transform.py:11-24 | a header expression is hoisted; under `map_expression` the `orelse` is kept as it is, and under `map_ast` it keeps its depth |
| Transform.HoistStmts | transform.py:16-21 | a statement list is hoisted element by element, keeping its length |
| Transform.HoistStmtAssignments | transform.py:27-31 | every assignment appended while walking a statement is `name_k = <suspending call>`, names in order |
| Transform.PromoteMapperSound | transform.py:46-50 | the mapper never deepens a statement, and for a scope it ends with the rewritten scope |
| Transform.PromoteScope | transform.py:52 | `fmap_statements` with the promoting mapper never fails |
| Transform.PromoteToTemporary | transform.py:35-53 | the pass succeeds exactly on a `def`, keeps every field but the body, and does not deepen it |
| Transform.HoistStmtAstCallFree | transform.py:11-26 | under `map_ast`, no suspending call is left in a statement's own expressions or, recursively, in its `orelse` |
| Transform.HoistHeaderAstCallFree | transform.py:11-24 | under `map_ast`, a header expression and its `orelse` are left free of suspending calls |
| Transform.HoistStmtsAstCallFree | transform.py:16-21 | under `map_ast`, every statement of a list is left free of suspending calls in the fields the walk visits |
| Transform.HoistStmtAstOperandsFree | transform.py:27-31 | under `map_ast`, every assignment appended, from the header, the `orelse` or a `def`'s body, holds one suspending call, at its root |
| Transform.HoistHeaderAstOperandsFree | transform.py:11-31 | the same for a header expression and its `orelse` |
| Transform.HoistStmtsAstOperandsFree | transform.py:16-31 | the same for a list of statements |
| Transform.PromoteAstStatement | transform.py:46-50 | every statement the mapper returns is free of suspending calls where `map_ast` looks, or binds one suspending call to a name; only the last can be a scope, and only for a scope |
| Transform.PromoteToTemporaryEstablishes | transform.py:46-52 | the mapper establishes that shape on its whole output, and the shape ignores a scope's body |
| Transform.PromoteToTemporaryPromotes | transform.py:35-53 | after the pass, every statement of the function, recursively through its inner scopes, has that shape |
| Transform.PromoteReturn | transform.py:46-50 | `return v` becomes the assignments hoisted from `v`, then `return` of the rewritten value |
| Transform.PromoteAssignName | transform.py:46-50 | `x = v` becomes the assignments hoisted from `v`, then the rewritten assignment |
| Transform.PromoteIf | transform.py:11-15 | an `if` yields the assignments hoisted from its test, then the `if` with its body untouched |
| Transform.ElseReturnHoisted | transform.py:16-21 | under `map_ast`, `return bar(1)` in an `else` branch gives up `bar(1)` to a fresh temporary |
| Transform.OrelseHoistedAhead | transform.py:11-24 | under `map_ast`, the call in the `else` branch of `if n: return n else: return bar(1)` is hoisted in front of the `if`, so it runs whatever the test says |
| Transform.BranchesKept | expressions.py:11-15 | under `map_expression`, an `if` or `while` gives up only the calls of its test, which run before either branch, and keeps both branches as they are |
| Transform.OrelseKept | expressions.py:11-15 | under `map_expression` the same `if` is left as it is and uses no name |
| Transform.FmapOne | utils.py:33-37 | a scope whose only statement is not a scope gets exactly the mapper's output as its body |
| Transform.GoldenAssign | transform_test.py:5-37 | `t = bar(2)` becomes `__$tmp0__ = bar(2); t = __$tmp0__` |
| Transform.GoldenFirstIf | transform_test.py:5-37 | the first `if` keeps its test and gets a body of four hoisted assignments, then the rewritten `return` |
| Transform.GoldenSecondTest | transform_test.py:5-37 | `bar(10)` is hoisted out of the second `if`'s test, before the `if` |
| Transform.GoldenSecondIf | transform_test.py:5-37 | the return inside the second `if` hoists `bar(baz(t), 2)` and leaves `+ 1` |
| Transform.GoldenFoo | transform_test.py:5-37 | `promote_to_temporary` on the golden `foo` gives the expected function, names in evaluation order |
| Transform.GoldenNames | utils.py:10-12 | the default generator's first and seventh names are `__$tmp0__` and `__$tmp6__` |
| Substitution.SubstKeeps | src/mappers.py:105-110 | after the substitution, every `Name` left in the expression passes the substitution's test |
| Substitution.SubstIdentity | src/mappers.py:58-59 | a substitution that picks none of the expression's names leaves it unchanged |
| Substitution.SubstListAppend | src/mappers.py:58-59 | substitution distributes over concatenation of operand lists |
| Substitution.SubstStmt | src/mappers.py:105-110 | rewriting a statement's own expressions keeps its kind, its body and its depth |
| Substitution.SubstStmtHeader | src/mappers.py:105-110 | the rewritten statement's own expressions are exactly the substituted originals |
| Substitution.SubstStmtKeeps | src/mappers.py:105-110 | every `Name` left in the rewritten statement's own expressions passes the test |
| Substitution.SubstStmtIdentity | src/mappers.py:58-59 | a statement none of whose names is picked is left unchanged |
| Mappers.ForToWhile | src/mappers.py:63-76 | a `for` becomes `it = iter(seq)`, `flag = True`, then a `while flag` whose body is the advance step followed by the old body, keeping `orelse`; two names are used; other statements are kept |
| Mappers.ForToWhileFresh | src/mappers.py:68 | the iterator and flag names are distinct, never issued before, and exactly the names the rewrite issues |
| Mappers.ForToWhileDepth | src/mappers.py:69-74 | the new loop is exactly as deep as the `for` |
| Mappers.ForToWhileSound | src/mappers.py:22-35 | `map_scope` may use the mapper: it never deepens a statement and ends a scope's output with a loop |
| Mappers.ForToWhileEstablishes | src/mappers.py:65-75 | no statement the mapper returns is a `for` |
| Mappers.MapForToWhile | src/mappers.py:22-35 | `map_scope` with the mapper never fails, keeps every field but the body, and leaves no `for` anywhere in the body, recursively |
| Mappers.GoldenForToWhile | src/mappers_test.py:107-143 | `for i in range(10)` becomes the expected three statements, with the generator's next two names |
| Mappers.PromoteWhileCond | src/mappers.py:79-91 | a `while` whose test is not a plain name becomes `c = test` and a `while c` whose body ends by re-evaluating `c = test`; other statements are kept and use no name |
| Mappers.PromoteWhileCondDepth | src/mappers.py:87-90 | the promoted loop is as deep as the original |
| Mappers.PromoteWhileCondSound | src/mappers.py:22-35 | `map_scope` may use the mapper |
| Mappers.PromoteWhileCondIdempotent | src/mappers.py:84-85 | every statement the mapper returns is kept as it is by a second application |
| Mappers.PromoteWhileCondEstablishes | src/mappers.py:82-90 | every loop the mapper returns tests a plain name |
| Mappers.MapPromoteWhileCond | src/mappers.py:22-35 | `map_scope` with the mapper never fails, and every `while` in the result, recursively, tests a plain name |
| Mappers.GoldenPromoteWhileCond | src/mappers_test.py:145-172 | `while len(p) > 0` becomes the expected pair of statements |
| Mappers.PromoteToTemporaryM | src/mappers.py:38-46 | the mapper never deepens a statement and ends a scope's output with the rewritten scope |
| Mappers.PromoteToTemporaryMShape | src/mappers.py:41-45 | the output is the hoisted assignments, named in order and each with call-free operands, then the rewritten statement, which keeps its body and has no suspending call in its own fields |
| Mappers.HoistStmtCallFree | src/mappers.py:43-44 | hoisting a statement's own fields leaves no suspending call in them |
| Mappers.HoistStmtOperandsFree | src/mappers.py:43-44 | every assignment appended while hoisting a statement holds one suspending call, at its root |
| Mappers.PromoteMStatement | src/mappers.py:41-45 | every statement the mapper returns is either free of suspending calls in its own fields or binds one suspending call to a name |
| Mappers.PromoteToTemporaryMEstablishes | src/mappers.py:38-46 | the mapper establishes that shape on its whole output |
| Mappers.MapPromoteToTemporary | src/mappers.py:22-46 | `map_scope` with the mapper never fails and keeps every field but the body |
| Mappers.MapPromoteToTemporaryPromotes | src/mappers.py:22-46 | after the pass, every statement of the body, recursively, has that shape |
| Mappers.LiftToFrame | src/mappers.py:105-110 | the mapper returns one statement and never deepens it |
| Mappers.FrameSlotRefs | src/mappers.py:105-110 | a frame access `frame['k']` loads only the name `frame` |
| Mappers.FrameSubstKeeps | src/mappers.py:105-110 | after lifting, every name left is one `name_fn` rejects, or `frame` itself |
| Mappers.LiftToFrameEstablishes | src/mappers.py:105-110 | no statement the mapper returns accesses an accepted name other than through `frame` |
| Mappers.MapLiftToFrame | src/mappers.py:22-35 | `map_scope` with the mapper never fails, and no statement of the result, recursively, accesses an accepted name directly |
| Mappers.LiftToFrameKeeps | src/mappers.py:108-109 | a statement none of whose names is accepted is kept as it is |
| Mappers.BarLocalsPicks | src/mappers_test.py:207-228 | the test's `name_fn` accepts `bar`'s locals and arguments and rejects the callees |
| Mappers.GoldenLiftAssign | src/mappers_test.py:207-228 | `a = arg1 + arg2` becomes `frame['a'] = frame['arg1'] + frame['arg2']` |
| Mappers.GoldenLiftCalls | src/mappers_test.py:207-228 | `b = a + (foo() or baz())` lifts `a` and `b` and leaves the callees as plain names |
| Mappers.PlanTrivial | src/mappers.py:49-55 | the precomputation fails with the `KeyError` exactly when a candidate has no recorded first or last assignment |
| Mappers.PlanTrivialSpec | src/mappers.py:53-55 | exactly the candidates whose first and last assignments coincide are replaced, each by that assignment, and exactly those assignments are dropped |
| Mappers.RemoveTrivial | src/mappers.py:58-59 | the mapper never deepens a statement |
| Mappers.RemoveTrivialEstablishes | src/mappers.py:58-59 | for a scope the mapper returns the rewritten scope, and no statement it returns loads a trivial temporary |
| Mappers.MapRemoveTrivialRemovesLoads | src/mappers.py:22-60 | for a plan whose dropped statements are assignments, `map_scope` never fails, keeps every field but the body, and leaves no load of a trivial temporary anywhere in the body |
| Mappers.GoldenRemoveTrivial | src/mappers_test.py:46-84 | with `__tmp0__ = sum(...)` the only assignment of the only candidate, it is dropped and `return __tmp0__` becomes `return sum(...)` |
| Mappers.GoldenRemoveTrivialReassigned | src/mappers.py:53 | a candidate assigned twice is not trivial: both assignments are kept |
| LegacyMappers.PromoteWhileCondAgrees | mappers.py:47-57 | on every statement except a loop that already tests a name, the legacy mapper agrees with `src/mappers.py` |
| LegacyMappers.PromoteWhileCondNameTest | mappers.py:50-56 | a loop already testing a name is still wrapped, with a fresh name, where `src/mappers.py` keeps it |
| LegacyMappers.PromoteWhileCondAlwaysNotIdempotent | mappers.py:47-57 | the legacy mapper wraps its own output loop again |
| LegacyMappers.PromoteWhileCondAlwaysSound | mappers.py:47-57 | `map_scope` may use the legacy mapper |
| LegacyMappers.PromoteWhileCondAlwaysEstablishes | mappers.py:50-56 | every loop the legacy mapper returns tests a plain name |
| LegacyMappers.MapPromoteWhileCondAlways | mappers.py:47-57 | mapping a scope with the legacy mapper never fails and leaves every loop, recursively, testing a plain name |
| LegacyMappers.LegacyPlan | mappers.py:19-27 | every recorded assignment is dropped and replaces the loads of its temporary |
| LegacyMappers.LegacyPlanAgrees | mappers.py:19-27 | when every candidate has one assignment, the two generations plan the same removal |
| LegacyMappers.LegacyPlanDropsReassigned | mappers.py:22-26 | if `trivial_temporaries` reports a name assigned twice, the legacy pass still drops its last assignment, where `src/mappers.py` keeps it |
| Jumps.HasJumpToByPath | src/jumps.py:22-31 | `has_jump_to` holds exactly when some statement reached through `if`/`while` bodies (never an `orelse`) is a jump target |
| Jumps.PathToJump | src/jumps.py:26-31 | a target found by `has_jump_to` lies on a body path |
| Jumps.JumpOnPath | src/jumps.py:26-31 | a target on a body path is found by `has_jump_to` |
| Jumps.Partition | src/jumps.py:34-43 | the generator always yields at least one run (the final `current`) |
| Jumps.PartitionIsPartition | src/jumps.py:34-43 | the runs concatenate back to the input; only the first statement of a run after the first may hold a jump target, and each such run starts with one |
| Jumps.PartitionSnocTarget | src/jumps.py:39-42 | a statement holding a target closes the current run and opens a new one |
| Jumps.PartitionSnocPlain | src/jumps.py:42 | any other statement extends the current run |
| Jumps.PartitionStmts | src/jumps.py:34-43 | the accumulating loop yields a partition of its input, the runs of `Partition` |
| Jumps.MakeRangeTest | src/jumps.py:60-74 | the test is a comparison, and an equality exactly when the range holds one pc |
| Jumps.RangeTestRoundTrip | src/jumps.py:60-74 | every range test reads back as the range `[start, end)` it was made for |
| Jumps.ContiguousBounds | src/jumps.py:77-94 | guards covering `[start, end)` contiguously have `start <= end`, strictly when there is a guard |
| Jumps.InsertJumpsF | src/jumps.py:97-114 | the guards cover `[start_pc, next_pc)` contiguously, each range non-empty; no guard is emitted exactly when there are no statements |
| Jumps.PartitionFacts | src/jumps.py:109 | the runs are no deeper than the list, keep non-empty bodies, and are all empty exactly when the list is |
| Jumps.InsertParts | src/jumps.py:109-113 | empty runs are skipped; the guards of the rest cover the pcs used contiguously |
| Jumps.TransformPartitionF | src/jumps.py:77-94 | the run becomes one guard on `[next_pc, end_pc)` with `next_pc < end_pc`, built by `make_range_test`, whose body ends with `__pc = end_pc` |
| Jumps.TransformRun | src/jumps.py:83-90 | the loop keeps one statement per statement and never lowers the pc |
| Jumps.TransformStmt | src/jumps.py:84-90 | renumbering one statement never lowers the pc |
| Jumps.TransformStmtRenumbers | src/jumps.py:84-89 | an `if` keeps its test and `orelse` and its body's guards cover `[next_pc - 1, r)`; a `while` does the same and its body ends with `__pc` set to its first pc; any other statement is kept unchanged and takes no pc |
| Jumps.RunPcs | src/jumps.py:83-90 | the pcs of the loop: one more than the statements, the first being the pc the loop starts from |
| Jumps.TransformRunCons | src/jumps.py:83-90 | the loop on a run is its first statement followed by the loop on the rest, started from the pc the first one reached |
| Jumps.RunPcsEnd | src/jumps.py:83-91 | the last pc the loop reaches is the `next_pc` it leaves, which becomes `end_pc` |
| Jumps.TransformRunAt | src/jumps.py:83-90 | depth-first numbering: the `k`-th statement is renumbered as `TransformStmtRenumbers` says, from one below the pc the statements before it reached, and every pc it reaches lies between the start pc and the pc the loop returns |
| Jumps.TransformRunFirst | src/jumps.py:83-90 | the same for the first statement, numbered from one below the start pc |
| Jumps.TransformPartitionEnds | src/jumps.py:80-94 | the guard's body is the run, one statement per statement, then `__pc = end_pc`; the run's pcs start at `start_pc + 1` and end at `end_pc` |
| Jumps.TransformPartitionAt | src/jumps.py:80-94 | the `k`-th statement of the guard's body is the `k`-th of the run renumbered depth-first, its pcs inside `[start_pc, end_pc)`; a statement that is no `if`/`while` stays in place |
| Jumps.FirstBlockAtStart | src/jumps.py:82-87 | an `if` that opens a run keeps its test and `orelse`, and its body's guards start at the guard's own `start_pc` and end inside `(start_pc, end_pc]` |
| Jumps.TransformIfF | src/jumps.py:46-49 | test and `orelse` are kept; the new body's guards cover the pcs from `next_pc` contiguously |
| Jumps.TransformWhileF | src/jumps.py:52-57 | test and `orelse` are kept; the body's guards cover the pcs from `next_pc` and the body ends by assigning the loop's first pc |
| Jumps.InsertJumps | src/jumps.py:97-114 | the loop over the runs computes `InsertJumpsF`, so its guards cover `[start_pc, next_pc)` |
| Jumps.InsertPartsLoop | src/jumps.py:109-113 | the loop computes `InsertParts` |
| Jumps.InsertPartsStep | src/jumps.py:110-113 | one iteration: an empty run is skipped, any other becomes one guard followed by the rest |
| Jumps.TransformPartition | src/jumps.py:77-94 | the method computes `TransformPartitionF` |
| Jumps.TransformOne | src/jumps.py:84-90 | the loop body computes `TransformStmt`: `if` and `while` renumbered from one below the current pc, anything else kept |
| Jumps.TransformIf | src/jumps.py:46-49 | the method computes `TransformIfF` |
| Jumps.TransformWhile | src/jumps.py:52-57 | the method computes `TransformWhileF` |
| JumpsExamples.WhileBody | src/jumps_test.py:52-60 | the loop body of `bar` (a call, two assignments) becomes three one-pc guards |
| JumpsExamples.IfBody | src/jumps_test.py:65-70 | the `if` body of `bar` becomes two one-pc guards; the empty run before the first target is skipped |
| JumpsExamples.WhilePart | src/jumps.py:52-57 | a run holding only a loop: the loop takes the run's first pc and its body ends by jumping back to it |
| JumpsExamples.IfPart | src/jumps.py:46-49 | a run holding only an `if`: the same, without the jump back |
| JumpsExamples.PartOne | src/jumps.py:77-94 | a run of one plain statement takes one pc and ends with the pc assignment |
| JumpsExamples.RunOne | src/jumps.py:83-90 | a run of one statement is that statement renumbered |
| JumpsExamples.BarLoopGuard | src/jumps_test.py:50-62 | the run holding `bar`'s loop is the guard on `[2, 5)` of the expected output |
| JumpsExamples.BarIfGuard | src/jumps_test.py:63-71 | the run holding `bar`'s `if` is the guard on `[5, 7)` of the expected output |
| JumpsExamples.GoldenBar | src/jumps_test.py:22-88 | `insert_jumps(bar.body, isinstance(_, Assign))` yields the six guards of the expected output and next pc 9 |
| Fiber.CallNames | fiber.py:21-25 | only names in `fns` are reported, and a call of a name in `fns` is |
| Fiber.StmtCallNames | fiber.py:21-25 | only names in `fns` are reported |
| Fiber.PrevOfIsPredecessor | fiber.py:28-41 | every statement that is not first in its body has the statement before it recorded; first statements have no entry |
| Fiber.PrevOfOnlyPredecessors | fiber.py:28-41 | every recorded entry is such a predecessor |
| Fiber.MakePrevDict | fiber.py:28-41 | the dictionary holds exactly the statements with a predecessor, each mapped to that predecessor |
| Fiber.PrevHelper | fiber.py:31-39 | `helper` keeps the entries made before it and records exactly the predecessors below its block |
| Fiber.RecordSiblings | fiber.py:33-36 | the first loop records each statement's predecessor; the assertion at line 35 never fails |
| Fiber.DescendBlocks | fiber.py:37-39 | the second loop records the predecessors inside every nested block |
| Fiber.NeedsJumpIff | fiber.py:194-206 | a statement needs a jump exactly when its predecessor calls a function of `fns` and is not `return <call>`; the registry test never decides |
| Fiber.NeedsJumpAfterCall | fiber.py:194-206 | with the dictionary of `make_prev_dict`, the statement after a non-tail call to `fns` needs a jump, and one after anything else does not |
| Fiber.TailCallopIsTailCall | fiber.py:86-87 | `matches_tailcallop` is `is_tail_call` plus the test that the callee is a name in `fns`; `return g()` is a tail call that does not match |
| Fiber.PcAssignIsNoOp | fiber.py:94-103 | a pc assignment matches none of the operation patterns and is not a block |
| Fiber.KwargsDict | fiber.py:121-122 | the `kwargs` dict has one key and one value per keyword |
| Fiber.ReadKwargsDict | fiber.py:121-122 | the dict reads back as the keywords it was built from |
| Fiber.CallopRoundTrip | fiber.py:111-126 | the call operation carries the callee's name, the arguments in order, the keywords and the result's frame key |
| Fiber.TailCallopRoundTrip | fiber.py:129-143 | the tail-call operation carries the callee's name, the arguments and the keywords |
| Fiber.RetopRoundTrip | fiber.py:146-155 | the return operation carries the returned value |
| Fiber.ReadOpEmits | fiber.py:111-155 | whatever reads as an operation is emitted exactly so |
| Fiber.ReturnOfOtherCall | fiber.py:247-250 | `return` of anything but a call to `fns` becomes a plain return operation |
| Fiber.ReplacementCases | fiber.py:245-252 | only frame-slot assignments of calls to `fns` and returns are replaced, each by the matching operation |
| Fiber.Returns | fiber.py:231-255 | on success the block keeps its kind and header, only its body changes |
| Fiber.AddTrampolineReturns | fiber.py:231-255 | the loop over a copy of the body, swapping in place, computes `Returns` |
| Fiber.Visit | fiber.py:241-255 | one iteration keeps the loop invariant, or reports the failed assertion that `Returns` reports |
| Fiber.ReplaceOp | fiber.py:245-252 | the `if`/`elif` chain computes `Replacement` |
| Fiber.ReturnsFromLength | fiber.py:241-255 | the body keeps its length |
| Fiber.ReturnsPositions | fiber.py:241-255 | nested blocks are processed in place; each operation trades places with the pc assignment after it; every other statement stays |
| Fiber.ReturnsFromSucceeds | fiber.py:253-254 | when every operation is followed by a pc assignment, the assertions hold |
| Fiber.ReturnsSucceedsIff | fiber.py:238-255 | the assertions fail exactly when some operation, here or in a nested block, is not followed by a pc assignment |
| Fiber.FiberFns | fiber.py:280-286 | every registered name joins `fns`, which then holds exactly the given names and the registered ones; it fails exactly on a callable |
| Fiber.CallableCheckUnreached | fiber.py:280-286 | a callable `fns` gets the ValueError with an empty registry but a TypeError from `set(fns)` once a name is registered |
| Fiber.FiberFnsChecked | fiber.py:280-286 | the intended check: on success every registered name is in `fns` |
| Fiber.FiberFnsCheckedAgrees | fiber.py:280-286 | the intended check reports a forgotten call for every registry, and agrees with the source on every other argument |
| Fiber.FiberHandleInjective | fiber.py:170-171 | distinct function names give distinct compiled names |
| Fiber.Registries.constructor | fiber.py:227-228 | both registries start empty |
| Fiber.Registries.Fiber | fiber.py:280-286 | the loop over `FIBER_FN_NAME_MAP` followed by the callable check computes `FiberFns` on the registered names |
| Fiber.Registries.MakeFiber | fiber.py:288-320 | with `recursive` a list `fns` fails on `add` and nothing is registered; otherwise the name joins `fns` and the metadata is registered under the name and under the compiled function |
| Fiber.RegisterKeepsConsistent | fiber.py:317-319 | registering keeps the two registries consistent with each other |
| Trampoline.KwDel | src/trampoline.py:57 | `del` removes exactly that key |
| Trampoline.KwGetAt | src/trampoline.py:56 | in a dict each entry is found under its key |
| Trampoline.KwKeysAt | src/trampoline.py:52 | every key of a dict is at some position |
| Trampoline.PosWithDefaultsGen | src/trampoline.py:31-38 | the positional-only then regular parameters in order, the first `n - len(defaults)` without a default and the rest paired with the defaults in order |
| Trampoline.Bind | src/trampoline.py:41-87 | a bound frame has `__pc = 0` |
| Trampoline.Reverse | src/trampoline.py:45 | the reversed list has the list's length |
| Trampoline.ReverseAt | src/trampoline.py:45 | position `i` of the reversed list holds position `len - 1 - i` of the list |
| Trampoline.ReverseReverse | src/trampoline.py:45-66 | reversing twice restores the list, so the rest parameter sees the leftover values in call order |
| Trampoline.BindFrame | src/trampoline.py:41-87 | the loops compute `Bind` |
| Trampoline.BindPositionalLoop | src/trampoline.py:46-62 | the positional loop computes the positional phase |
| Trampoline.BindKeywordsLoop | src/trampoline.py:70-77 | the keyword loop computes the keyword phase |
| Trampoline.BindKwOnlyLoop | src/trampoline.py:79-84 | the keyword-only loop computes the keyword-only phase |
| Trampoline.LiteralEval | src/trampoline.py:84 | `ast.literal_eval` of a default never yields an AST node, and always succeeds on a constant |
| Trampoline.DictPut | src/trampoline.py:84 | storing a pair in a dict keeps it there and adds no other entry |
| Trampoline.DictOf | src/trampoline.py:84 | a dict built from pairs holds only those pairs |
| Trampoline.DictPutNew | src/trampoline.py:84 | a key not yet in the dict is stored last |
| Trampoline.DictOfDistinct | src/trampoline.py:84 | pairs with distinct keys build the dict of exactly those pairs, in order |
| Trampoline.LiteralEvalList | src/trampoline.py:84 | a list display of literals evaluates to the list of their values, nested to any depth |
| Trampoline.LiteralEvalDict | src/trampoline.py:84 | a dict display with hashable, distinct literal keys evaluates to the dict of those entries |
| Trampoline.LiteralEvalRoundTrip | src/trampoline.py:84 | `literal_eval` of the display of any literal value (constants, lists, dicts) gives back that value |
| TrampolineBind.PositionalValues | src/trampoline.py:46-62 | each parameter gets the next positional value, else its keyword, else its default |
| TrampolineBind.PositionalOthers | src/trampoline.py:46-62 | the positional phase binds only positional parameters and keeps other entries |
| TrampolineBind.PositionalRest | src/trampoline.py:48-49 | the values left over are the suffix beyond the parameters, in order |
| TrampolineBind.PositionalKeywords | src/trampoline.py:52-57 | exactly the keywords of parameters filled from keywords are deleted; the others keep their values |
| TrampolineBind.PositionalOutcome | src/trampoline.py:52-61 | the phase succeeds exactly when no parameter is unbindable, and otherwise fails with the first one's error |
| TrampolineBind.PositionalSucceeds | src/trampoline.py:52-61 | the phase succeeds exactly when no parameter is unbindable |
| TrampolineBind.PositionalFirstError | src/trampoline.py:53-61 | the first unbindable parameter names the error |
| TrampolineBind.PositionalPrefix | src/trampoline.py:46-62 | values beyond the parameters change nothing but the leftover list |
| TrampolineBind.KeywordsFrame | src/trampoline.py:70-77 | a successful keyword phase keeps the frame and binds each keyword to its value |
| TrampolineBind.KeywordsReject | src/trampoline.py:71-76 | a keyword that names no parameter or one already bound is rejected |
| TrampolineBind.KwOnlyFrame | src/trampoline.py:79-84 | each missing keyword-only parameter takes its evaluated default |
| TrampolineBind.KwOnlyMissing | src/trampoline.py:80-82 | a missing keyword-only parameter without a default is rejected |
| TrampolineBind.ParamFacts | src/trampoline.py:31-38 | `pos_with_defaults` lists the positional names; distinct parameter names stay distinct across the phases |
| TrampolineBind.KwPhaseFacts | src/trampoline.py:64-84 | the frame after the keyword phase holds parameters only, and it survives to the final frame |
| TrampolineBind.BindKeepsPositional | src/trampoline.py:46-66 | what the positional and rest phases bind survives to the final frame |
| TrampolineBind.BindPositionalInOrder | src/trampoline.py:45-50 | positional values are bound left to right to the parameters in declaration order |
| TrampolineBind.BindKeywordOrDefault | src/trampoline.py:52-62 | a positional parameter without a value takes its keyword (never a positional-only one) or its default AST node |
| TrampolineBind.BindConsumesKeywords | src/trampoline.py:52-57 | keywords that fill positional parameters are deleted from the caller's dict, the rest stay |
| TrampolineBind.BindPositionalErrors | src/trampoline.py:53-61 | binding fails with the first unbindable positional parameter's error, and succeeds only when none is |
| TrampolineBind.BindRestParameter | src/trampoline.py:64-66 | the rest parameter collects the leftover positional values in order |
| TrampolineBind.BindDropsExtra | src/trampoline.py:46-66 | without a rest parameter, extra positional values are dropped silently |
| TrampolineBind.BindKeywordsBound | src/trampoline.py:52-77 | every keyword argument ends up bound to its value |
| TrampolineBind.BindRejectsUnknownKeyword | src/trampoline.py:71-73 | a keyword naming neither a regular nor a keyword-only parameter is rejected |
| TrampolineBind.BindRejectsRepeatedKeyword | src/trampoline.py:74-76 | a keyword naming a parameter filled positionally is rejected |
| TrampolineBind.BindKeywordOnlyDefaults | src/trampoline.py:79-84 | a keyword-only parameter not passed takes its default, evaluated as a literal |
| TrampolineDefaults.KwOnlyDictDefault | src/trampoline.py:79-84 | `def f(*, memo={})` called as `f()` binds `memo` to an empty dict |
| TrampolineDefaults.NestedListDefault | src/trampoline.py:84 | the display `[[1], []]` evaluates to the nested list |
| TrampolineDefaults.BindEvaluated | src/trampoline.py:41-87 | the binder with positional defaults evaluated as keyword-only ones are; a bound frame has `__pc = 0` |
| TrampolineDefaults.EvaluatedBinder | src/trampoline.py:41-87 | the corrected binder on any signature, for the scheduler; its frames have `__pc = 0` |
| TrampolineDefaults.EvalFrameUpdate | src/trampoline.py:48-62 | evaluating defaults commutes with binding one variable |
| TrampolineDefaults.KwGetNoNode | src/trampoline.py:56 | a keyword value taken from a dict without AST nodes is no node |
| TrampolineDefaults.KwDelNoNodes | src/trampoline.py:57 | deleting a key keeps a dict free of AST nodes |
| TrampolineDefaults.PosStepEvaluatedRelates | src/trampoline.py:46-62 | one corrected positional step is the step as written with the default evaluated, failing only on a default that is no literal |
| TrampolineDefaults.PositionalEvaluated | src/trampoline.py:46-62 | the corrected positional phase succeeds only where the phase as written does, with the same state up to evaluation; with literal defaults both succeed and fail together |
| TrampolineDefaults.PositionalKwNoNodes | src/trampoline.py:46-62 | the positional phase leaves the leftover values and the keyword dict free of AST nodes |
| TrampolineDefaults.KeywordsEvaluated | src/trampoline.py:68-77 | the keyword phase gives the same outcome on the evaluated frame, and its frame evaluated |
| TrampolineDefaults.KwOnlyEvaluated | src/trampoline.py:79-84 | the keyword-only phase gives the same outcome on the evaluated frame, and its frame evaluated |
| TrampolineDefaults.BindEvaluatedRelates | src/trampoline.py:41-87 | the corrected binder succeeds only where `bind_frame` does, with its frame evaluated and no AST node left; with literal defaults the two agree on every call |
| TrampolineDefaults.BindEvaluatedDefaults | src/trampoline.py:52-62 | in the corrected binder a positional parameter left to its default holds the value `literal_eval` gives that default |
| TrampolineDefaults.PositionalDefaultIsNode | src/trampoline.py:59-62 | `def f(x, y=1)` called as `f(1)` binds `y` to the AST node `Constant(1)`, not to 1 |
| TrampolineDefaults.PositionalDefaultEvaluated | src/trampoline.py:59-62 | with the corrected binder, the same call binds `y` to 1 |
| TrampolineBind.BindMissingKeywordOnly | src/trampoline.py:80-82 | a required keyword-only parameter not passed is rejected |
| TrampolineRun.CurrentBinder | src/trampoline.py:41-87 | a frame the current binder builds has `__pc = 0` |
| TrampolineRun.LegacyBinder | trampoline.py:24-54 | a frame the older binder builds has `__pc = 0` |
| TrampolineRun.Invoke | src/trampoline.py:103-106 | a call looks the callee up by name (KeyError when unknown) and starts it in a fresh frame with no return slot |
| TrampolineRun.Deliver | src/trampoline.py:113-118 | the last frame's return ends the run with its value; otherwise the value lands in the caller and the frames below it are untouched |
| TrampolineRun.Apply | src/trampoline.py:102-118 | an operation changes the stack by at most two frames and never empties a running stack |
| TrampolineRun.Turn | src/trampoline.py:98-118 | a turn changes the depth by at most one, and only runs when the stack is within the bound |
| TrampolineRun.ExecSteps | src/trampoline.py:98 | `n + m` turns of the loop are `n` turns followed by `m` more |
| TrampolineRun.ExecOneTurn | src/trampoline.py:98-118 | the loop halts with the outcome of a halting turn, and otherwise goes on from the new stack |
| TrampolineRun.StepsSplit | src/trampoline.py:98 | the state after `n + m` turns is `m` turns after the state after `n` |
| TrampolineRun.ExecFuelMonotone | src/trampoline.py:98-118 | more turns never change an outcome already reached |
| TrampolineRun.TurnKeepsLowerFrames | src/trampoline.py:100-118 | a turn changes only the top two frames |
| TrampolineRun.TurnOnCall | src/trampoline.py:102-106 | on `CallOp` the caller records its return variable and the callee's fresh frame is pushed |
| TrampolineRun.TurnOnTailCall | src/trampoline.py:107-111 | on `TailCallOp` the caller's frame is replaced by the callee's, keeping the depth |
| TrampolineRun.TurnOnReturn | src/trampoline.py:112-118 | on `RetOp` the top frame is popped and its value returned or stored in the caller's return variable |
| TrampolineRun.TurnOnOther | src/trampoline.py:101-118 | any other value resumes the same frame with its updates |
| TrampolineRun.TurnKeepsReturnSlots | src/trampoline.py:104-117 | every frame below the top keeps a return variable |
| TrampolineRun.ExecHasReturnSlots | src/trampoline.py:117 | the assertion `top.ret_variable is not None` never fails |
| TrampolineRun.RunHasReturnSlots | src/trampoline.py:90-118 | no run fails that assertion |
| TrampolineRun.ExecUnbounded | src/trampoline.py:99 | without a bound no turn fails on the stack depth |
| TrampolineRun.LegacyRunUnbounded | trampoline.py:57-84 | the older `run` never fails on the size of its stack |
| TrampolineRun.StackFrame.constructor | src/trampoline.py:24-28 | a stack frame holds the given frame, step function and return variable |
| TrampolineRun.Snapshot | src/trampoline.py:97 | the values of the stack's frames, bottom first |
| TrampolineRun.InvokeFrame | src/trampoline.py:103-106 | a fresh `StackFrame` holding what `Invoke` computes, or its error |
| TrampolineRun.DeliverStep | src/trampoline.py:113-118 | storing the return value in the new top frame in place is `Deliver` |
| TrampolineRun.ApplyCall | src/trampoline.py:102-106 | a successful call operation leaves the caller with its return variable and the callee on top |
| TrampolineRun.CallStep | src/trampoline.py:102-106 | updating the caller in place and pushing the callee is `Apply` on `CallOp` |
| TrampolineRun.PushCallee | src/trampoline.py:104-106 | the caller records the return variable and the callee is appended |
| TrampolineRun.TailCallStep | src/trampoline.py:107-111 | popping the caller and pushing the callee is `Apply` on `TailCallOp` |
| TrampolineRun.PushFrame | src/trampoline.py:100 | putting the top frame back on the ones below it gives the stack's snapshot |
| TrampolineRun.ApplyStep | src/trampoline.py:102-118 | the scheduler's reaction on `StackFrame` objects is `Apply` on their values |
| TrampolineRun.TurnStep | src/trampoline.py:99-118 | one turn on `StackFrame` objects, the step function updating the top frame in place, is `Turn` |
| TrampolineRun.Run | src/trampoline.py:90-118 | `run` stopped after `fuel` turns computes `RunSpec` |
| TrampolineRun.Loop | src/trampoline.py:98-118 | the `while True` loop stopped after `fuel` turns computes `Exec` |
| TrampolineExamples.IntList | src/trampoline_test.py:48 | the Python list of the given integers |
| TrampolineExamples.BindTwo | src/trampoline.py:41-87 | two values bound to two parameters give those variables and `__pc = 0` |
| TrampolineExamples.PcParameterOverwritten | src/trampoline.py:86 | `def f(__pc)` called as `f(x)` binds `__pc` to 0 whatever `x` is, and is excluded by `DistinctParams` |
| TrampolineExamples.SumProgram | examples/sum.py:129-136 | the program registering `sum` has well-formed signatures |
| TrampolineExamples.SumBodyAt | examples/sum.py:129-136 | the compiled `sum` returns `acc` on an empty list and tail-calls itself on the tail otherwise |
| TrampolineExamples.SumProgramRunsSum | examples/sum.py:129-136 | the program registers `sum` under its name with its compiled step function |
| TrampolineExamples.SumInvoke | src/trampoline.py:107-111 | the tail call binds a fresh `sum` frame |
| TrampolineExamples.SumTurn | src/trampoline.py:99-111 | one turn of `sum` keeps the stack one frame deep |
| TrampolineExamples.SumProgramTurns | src/trampoline.py:98-118 | the loop acts on every `sum` stack as `sum` does |
| TrampolineExamples.SumRuns | src/trampoline.py:98-118 | a loop taking `sum`'s turns returns `acc + sum(xs)` in `len(xs) + 1` turns |
| TrampolineExamples.SumWithDepthOne | src/trampoline_test.py:40-49 | `run(sum, [xs, acc], __max_stack_size=1)` returns `acc + sum(xs)` in `len(xs) + 1` turns, never exceeding depth one |
| LegacyTrampoline.LegacyBind | trampoline.py:24-54 | a bound frame has `__pc = 0` |
| LegacyTrampoline.LegacyBindFrame | trampoline.py:24-54 | the loops compute `LegacyBind` |
| LegacyTrampoline.LegacyPositionalLoop | trampoline.py:28-34 | the positional loop computes the older positional phase |
| LegacyTrampoline.LegacyKeywordLoop | trampoline.py:40-45 | the keyword loop computes the older keyword phase |
| LegacyTrampoline.LegacyPositionalBinds | trampoline.py:28-34 | a successful positional phase binds every positional parameter and keeps earlier entries |
| LegacyTrampoline.PositionalAgree | trampoline.py:28-34 | when no keyword names a positional parameter, both generations' positional phases agree |
| LegacyTrampoline.KeywordsAgree | trampoline.py:40-45 | the keyword phases agree while no keyword is already bound |
| LegacyTrampoline.LegacyBindAgrees | trampoline.py:24-54 | when no keyword names a positional parameter, both binders build the same frame and raise the same errors |
| LegacyTrampoline.StepKeepsKeywords | src/trampoline.py:52-57 | a positional phase that takes no keyword leaves the keyword dict unchanged |
| LegacyTrampoline.LegacyKeywordsRepeated | trampoline.py:43-44 | a valid keyword already bound raises `AttributeError` while formatting the message |
| LegacyTrampoline.LegacyKeywordForPositionalFails | trampoline.py:25-44 | a keyword naming a regular positional parameter always fails (`fib(n=n-2)` cannot be bound) |
| LegacyTrampoline.LegacyKeywordsRejectUnknown | trampoline.py:41-42 | a keyword naming no parameter is rejected |
| LegacyTrampoline.RepeatedKeywordMessageFails | trampoline.py:43-44 | `def f(x)` called as `f(1, x=2)` raises `AttributeError` in the older binder and the "multiple values" error in the current one |
| Manual.Min3 | src/manual.py:27 | the minimum is one of the three and no larger than any |
| Manual.EditDistanceImpl | src/manual.py:15-27 | the distance of the suffixes lies between the difference and the larger of their lengths |
| Manual.EditDistance | src/manual.py:5-12 | the distance lies between the difference and the larger of the lengths |
| Manual.EditDistanceIsLevenshtein | src/manual.py:15-27 | the index-based recursion computes the textbook Levenshtein distance of the suffixes |
| Manual.EditDistanceSymmetric | src/manual.py:15-27 | swapping the strings does not change the distance |
| Manual.EditDistanceSelf | src/manual.py:15-27 | a string is at distance 0 from itself |
| Manual.EditDistanceMatch | src/manual.py:21-22 | equal characters cost nothing |
| Manual.EditDistanceMismatch | src/manual.py:24-27 | different characters cost one more than the cheapest of the three edits |
| Manual.EditDistanceExhausted | src/manual.py:16-19 | an exhausted string leaves the length of the rest of the other |
| Manual.KittenSittingRow0 | src/manual.py:15-27 | the suffix distances of row 0 for "kitten" and "sitting" |
| Manual.KittenSittingRow1 | src/manual.py:15-27 | the suffix distances of row 1 |
| Manual.KittenSittingRow2 | src/manual.py:15-27 | the suffix distances of row 2 |
| Manual.KittenSittingRow3 | src/manual.py:15-27 | the suffix distances of row 3 |
| Manual.KittenSittingRow4 | src/manual.py:15-27 | the suffix distances of row 4 |
| Manual.KittenSittingRow5 | src/manual.py:15-27 | the suffix distances of row 5 |
| Manual.KittenSittingRow6 | src/manual.py:15-27 | the suffix distances of row 6 |
| Manual.KittenSitting | src/manual.py:8-9 | `editDistance("kitten", "sitting") == 3`, the docstring example |

## Left out

- `bool_exps_to_if_m` (in `src/mappers.py` and `mappers.py`): its helper `promote_boolean_expression_operands` is not part of this model, so the pass is not modelled.
- `src/utils.py` is not part of this model. The fresh-name format is the `__$tmp0__` one of `utils.py`, not the `__tmp0__` one the newer passes would use. `is_supported_scope` is taken to be `is_scope`.
- `make_for_try`, `replace_variable`, `promote_variable_access`, `map_expression`, `find_assignments`, `potentially_trivial_temporaries`, `trivial_temporaries`, `find_last_assignments`, `is_block` and `local_vars` are not part of this model. Each gets a minimal definition or becomes a parameter: the substitutions of `Substitution`, the maps passed to `Mappers.PlanTrivial`, and the name function passed to `Mappers.LiftToFrame`.
- The `try`/`except StopIteration` that `make_for_try` builds is one opaque statement. Its inner expression is not rewritten by the passes.
- The statements of `make_prev_dict` and `add_trampoline_returns` are identified by Python object identity. `make_prev_dict` keys by position (a path of body indices) instead. `remove_trivial_m` uses value equality.
- `fiber.insert_jumps` (`fiber.py:181-185`) is not modelled as one function, because its `jump_to` looks statements up by identity. `Fiber.NeedsJump` is stated on positions, and `Jumps` takes any `jump_to` test.
- `Jumps.InsertJumpsF`: the contract states the numbering of the guards, not that the transformed body behaves like the original. The equivalence `src/jumps_test.py` checks by running both bodies is not modelled, because that needs an interpreter for Python statements. Where one run holds several `if`/`while` blocks, each is numbered from one below the pc reached so far (`src/jumps.py:87-89`), as the source does. So a block whose body ran to its end leaves the pc one above its start, and the inner guard of the next block in the run, which tests that start, skips its body: in `if n < 0: n = 0`, then `if n == 0: return 0`, then `return f(n - 1) + 1`, the call with `n = -3` does not return at the second `if`. Modelling the corrected numbering would need the interpreter above to state what it fixes.
- These parts of `fiber` are not modelled: `get_tree`, `compile_tree`, `fix_fn_def` (only the compiled name it gives, as `Fiber.FiberHandle`), `make_arguments`, `fiber_locals`, `lift_locals_to_frame`, and the order of passes in `make_fiber` (`fiber.py:292-315`). They parse source text, compile and `exec` code, or chain passes from both generations, one of them unmodelled. `OP_MAP` is the `Op` datatype.
- The two global registries are a `Registries` object passed to whoever uses them, not module globals. `locals` only feeds `compile_tree` and is dropped.
- `TrampolineRun.Run`: `while True` need not terminate, so the loop is given a number of turns (`fuel`). A run that has not finished ends as `OutOfTurns`. `float('inf')` as the stack bound is `None`.
- Step functions are parameters of the scheduler (a `Program`'s `code`). The compiled code is not derived from the passes. A step function that returns `None` (no guard matched) makes `run` loop on the same frame for ever (`TrampolineRun.TurnOnOther`).
- Error-message text is not modelled; each error is a constructor of an error datatype.
- `Trampoline.LiteralEval`: `ast.literal_eval` is modelled on the forms of the model's AST: constants, and list and dict displays of them nested to any depth. Its `ValueError` and the `TypeError` of an unhashable key are one error (`MalformedDefault`). Dict keys are compared as model values, so Python's `1 == True` does not merge keys `1` and `True`. Tuples, sets and signed numbers are outside the AST subset.
- Integers are unbounded, as in Python; floating point is not modelled.
- `Expressions.Hoist` returns the list of hoisted assignments and the advanced name generator as values, where the source appends to a list and advances an iterator.
- Signatures are taken as Python's parser makes them: no more defaults than positional parameters, and distinct parameter names (`Trampoline.WellFormedArgs`, `TrampolineBind.DistinctParams`). `TrampolineBind.DistinctParams` also rules out a parameter named `__pc`, which Python accepts: `src/trampoline.py:86` then overwrites the value bound to it with 0 (`TrampolineExamples.PcParameterOverwritten`), so the `TrampolineBind.Bind*` lemmas, `TrampolineDefaults.BindEvaluatedRelates` and `LegacyTrampoline.LegacyBindAgrees` do not cover such a signature.
- `Jumps.InsertJumpsF`, `Jumps.InsertParts`, `Jumps.TransformPartitionF`, `Jumps.TransformRun`, `Jumps.TransformStmt`, `Jumps.TransformIfF`, `Jumps.TransformWhileF` and the `Jumps` methods require every `if`/`while` body to be non-empty (`PyAst.AllNonEmptyBodies`, `PyAst.NonEmptyBodies`), as Python's parser guarantees and no modelled pass undoes. An empty body would get the empty pc range `[s, s)` at `src/jumps.py:87`, and the guards would no longer be contiguous.
- The older `trampoline.py` looks functions up in `fiber.FIBER_FUNCTIONS` (`trampoline.py:63`, `69`, `75`), a name that `fiber.py` does not define, so its `run` raises `AttributeError` at the first lookup. The model reads that lookup as the one registry the older scheduler was written against: `TrampolineRun.LegacyProgram` takes one map for both the entry lookup and the lookup by name, and the older binder. The `AttributeError` itself is not modelled.
- The AST (`PyAst`) is the subset the passes produce and inspect. It leaves out attribute access (`ast.Attribute`), tuples (`ast.Tuple`), starred arguments (`ast.Starred`), conditional expressions (`ast.IfExp`), `lambda`, `**mapping` keyword arguments in a call (`ast.keyword` with `arg` `None`) and the `**kwargs` parameter (`arguments.kwarg`). A program using them is outside the model. So is a bare `return`: its `value` is `None`, not `Constant(None)`, and `fiber.py:249-250` passes that `None` to `make_retop_expr`, whose `ast.keyword(arg="value", value=None)` (`fiber.py:146-155`) `compile_tree` rejects (`fiber.py:313`); decorating a function with a bare `return` therefore fails, which `Fiber.ReplaceOp` and `Fiber.Returns` do not show because `Return` always carries an expression.
- `Fiber.Registries.MakeFiber`: a compiled function is identified by its compiled name (`Fiber.FiberHandle`), and so are the keys of `TrampolineRun.Program`'s `code`. In the source each decoration yields a new function object, so decorating a second function of the same name adds a second entry to `FIBER_FN_COMPILED_MAP` (`fiber.py:319`); here it replaces the first.
- `Transform.PromoteToTemporaryPromotes`: says nothing about the body of a nested `def`, which `map_ast` also rewrites, placing the hoisted assignments before the `def`. Fiber does not lower nested functions.
- `LegacyMappers.LegacyPlanDropsReassigned`: stated for a name `trivial_temporaries` reports (`mappers.py:21`). That helper is not part of this model, so whether it can report a name assigned twice is left open.
- `src/manual.py` beyond `editDistance`/`editDistanceImpl` (the hand-written engine and the iterative version) is not modelled. The trampolined edit distance of `src/trampoline_test.py:85-104` is not modelled either.
- The example programs under `examples/` are used only as expected output, for `sum`.

## Findings

| source | as written | input that shows it | evidently intended | confidence | as-written member | corrected member |
|---|---|---|---|---|---|---|
| src/trampoline.py:59-62 | a positional parameter left to its default is bound to the default's AST node, while keyword-only defaults go through `ast.literal_eval` (line 84); the older `trampoline.py:31` does the same | `def f(x, y=1)` called as `f(1)`: `y` holds `Constant(1)` | `y` holds the value 1, as a keyword-only default would | not executed | TrampolineDefaults.PositionalDefaultIsNode | TrampolineDefaults.BindEvaluatedDefaults |
| trampoline.py:43-44 | the "multiple values" message reads `kwarg.arg` on a `str` key, raising `AttributeError` instead of the intended `TypeError` | `def f(x)` called as `f(1, x=2)` | a `TypeError` reporting multiple values for `x`, as `src/trampoline.py:74-76` raises | not executed | LegacyTrampoline.RepeatedKeywordMessageFails | TrampolineBind.BindRejectsRepeatedKeyword |
| fiber.py:280-286 | once any function is registered, `set(fns)` runs before the `callable(fns)` check, so a function passed as `fns` raises `TypeError` | `fiber(g, locals=locals())` with `g` a function, after `fib` was registered | the `ValueError` "Did you forget to call the fiber decorator?" for every registry | not executed | Fiber.CallableCheckUnreached | Fiber.FiberFnsCheckedAgrees |
| transform.py:16-21 | `map_ast` visits every field of an `if`, `while` or `for` but its `body`, so the suspending calls of the `orelse` branch are hoisted in front of the statement and run whatever its test says | `if n <= 1: return n` `else: return fib(n - 1) + fib(n - 2)` called with `n = 0` calls `fib(-1)` | only the calls of the test are hoisted and the `else` branch is kept, as `expressions.py:11-15` does through `map_expression` | not executed | Transform.OrelseHoistedAhead | Transform.BranchesKept |
