# Verification of swordfish

Dafny models of the parts of swordfish where a mistake would be silent: the two
executions of Bloblang, the copy-on-write values both share, the delivery of
acknowledgements and of standard output, the structured algorithms and the hand-written
codecs. Everything is proved for all inputs, all runs and all interleavings the statements
quantify over. `dafny verify dfyconfig.toml` checks the project.

| module | what it models |
|---|---|
| `Values`, `Numbers` | the value variants, sorted entry vectors, boxed arithmetic over uninterpreted doubles |
| `Bloblang`, `Interp` | the AST, the execution context and the interpreter |
| `LanguageLaws`, `PathAssignment` | what the operations and assignments that both executions share compute, each described on its own |
| `Emit`, `GeneratedCode` | the translation, and a semantics for the code it produces: lexical `this`, scoped variables, any order of arguments |
| `EmitScope` | which programs are accepted |
| `FastPath` | unboxed arithmetic and when it agrees with the boxed form |
| `Simulation` | generated code means what the program means by the emitted rules, expression by expression and for whole mappings |
| `RuleAgreement`, `CheckedPrograms` | when those rules and the interpreter's agree: run by run, and by a check of the text |
| `SurplusArguments`, `ArgumentOrder` | where the two executions part, and exactly when |
| `ValueStore`, `StoreRun` | reference-counted payloads, their pool, and runs of operations on variables |
| `AckGroups`, `AckTree`, `AckReports` | one fan-in of acknowledgements, trees of them, and whose error gets through |
| `StdoutWriter` | the queue and thread behind standard output, as interleaved steps |
| `DiffPatch`, `ChangelogTruth`, `PatchLaws` | changelogs: the walk, what its entries say of the two values, and applying them |
| `MergeSort`, `OperatorFold` | stable sorting, and grouping operators |
| `MsgPack`, `WireFormat` | the writer and the bounded reader, and the format they keep to |
| `Alphabet`, `Base85`, `Base64Codec` | text codecs, with `Arithmetic` for the division facts they share |
| `Calendar`, `Layouts`, `Rfc3339`, `TimeFormat` | civil time, Go layouts, timestamps as text, printing and reading by any layout |
| `Csv`, `Crc32`, `Snowflake` | incremental records, checksums, ids |
| `KnownAnswers` | the codecs and the checksum against published tables and test vectors |

Where the program updates state the model does too: the value store, the acknowledgement
group, the changelog walk, the MessagePack reader and writer, the timestamp parser, the CSV
scanner, the table cache and the id generator are classes, and the loops are methods proved
against the functions that the lemmas are about. Interleavings are state machines over
atomic steps.

## Where the code does not do what one might expect

- Generated code drops arguments beyond the arity of the runtime function while the
  interpreter evaluates them. `timestamp(default)` declares one parameter and takes none
  (`src/blobl/method_registry.cc:131`, `include/swordfish/methods.hh:161`), so
  `x.timestamp(throw("no"))` fails interpreted and succeeds compiled.
  `SurplusArguments.SurplusMappingAgreesIff` says exactly when the two agree.
- Build-time validation does not look below `!` (`src/blobl/names.cc:100-166` has no case
  for it), so nothing there is checked: neither the number of arguments nor that `catch`
  has a handler. `!this.ok.catch()` fails interpreted and is the negated field compiled
  (`SurplusArguments.BareCatchMappingAgreesIff`, `SurplusArguments.BareCatchDiverges`).
- A map with a `meta` statement, applied inside an argument list, makes the order in which
  a C++ compiler evaluates arguments observable (`ArgumentOrder.OrderObservable`); without
  one no order shows (`ArgumentOrder.CallInOrder`).
- A float-typed negation is `-(x)` unboxed and `0 - x` boxed; they differ at +0.0 and at
  NaNs, and nowhere else (`FastPath.NegationAgreesIff`, `FastPath.FloatNegationDiverges`).
- Surplus arguments, a `catch` without a handler and that negation are all there is:
  `Simulation.EmittedMeaning` holds of every program the emitter accepts, and its rules
  differ from the interpreter's in these three places alone. `RuleAgreement.MappingEquivalence`
  is agreement with the interpreter on every run in which none of the three matters.
- Copy assignment releases the destination before it copies the source, so assigning an
  array one of its own elements reads a destroyed slot unless another handle shares the
  array, and the same goes for objects (`StoreRun.AssignOwnItem`,
  `StoreRun.AssignOwnField`, `StoreRun.OwnItemDestroyed`).
- A `ref` between the last `unref` and the exit of the writer thread starts a second
  thread on the same queue; from every state in which that can happen requests can then
  finish out of order, and their bytes can mix (`StdoutWriter.OrderlyExactly`,
  `StdoutWriter.LateRefInterleaves`).
- `patch` turns any array it has to change into an object, so `diff` and `patch` are not
  inverse across differing arrays (`PatchLaws.PatchUndoesDiff`, `PatchLaws.ArraysDoNotPatch`).
- Instants in the last fraction of a second that an int64 can hold below second
  -9223372036 print but do not parse, and so do offsets that are not whole minutes or
  reach a hundred hours (`Rfc3339.RoundTrip`).
- A layout's `__2` prints the day of the year without padding, `-070000` and `-07:00:00` print
  no seconds, and `MST` prints an offset other than zero in digits, which it then does not
  read (`TimeFormat.SpelledByReference`, `TimeFormat.NumericZoneUnread`).
- A CSV prefix that ends in a carriage return reads as a finished record; the scanner is
  safe because it holds back a record that ends with its buffer
  (`Csv.PrefixConsistent`, `Csv.Scanner.Finish`).
- A CSV parse error thrown without `continue_on_error` discards the rows read from the same
  chunk, although the comment at `src/components/scanners.cc:384-387` says they are handed
  over first: rows are lost if and only if the buffer begins with a complete good record
  (`Csv.Scanner.Feed`, `Csv.ChunkingDecidesLoss`).
- With `continue_on_error` the scanner drops everything after the first malformed record,
  although the comment at `src/components/scanners.cc:428-429` says that it goes on to the
  next row: rows are dropped if and only if text follows that record's line
  (`Csv.StoppingDrops`, `Csv.ContinuingDrops`).
- Snowflake ids of one node are unique per generator only, and a generator is per thread:
  two that share a node number collide (`Snowflake.SharedNodeCollides`), and equal stamps
  under one node number are the one way to collide (`Snowflake.IdsAgree`).
- The MessagePack reader counts a level before it refuses one too many, so that error alone
  leaves its depth one higher (`MsgPack.Reader.Read`).

## Model

| member | source | states |
|---|---|---|
| `Interp.Eval` | src/blobl/interp.cc:21-388 | the interpreter over the AST; whatever it evaluates, whether it returns or throws and at any depth, it leaves `this_v`, every variable (unbound names included), the message, the batch position and `apply_depth` as it found them, and without metadata-writing maps the written metadata too |
| `Interp.EvalCases` | src/blobl/interp.cc:84-107 | the arms of `match` keep the context, `this` included |
| `Interp.EvalHandler` | src/blobl/interp.cc:245-283 | a `catch` handler gets `this` or its parameter back as they were |
| `Interp.EachMessage` | include/swordfish/runtime.hh:236-255 | `from_all` moves only the message fields and the caller gets them back |
| `Interp.EvalLambdaMethod` | src/blobl/interp.cc:304-353 | a lambda method restores its parameter, to unbound if it was unbound, and `this` |
| `Interp.DriveVar` | src/blobl/interp.cc:311-341 | the loop of a lambda method changes no variable but its parameter |
| `Interp.DriveThis` | src/blobl/interp.cc:342-353 | the loop of a query method changes no variable |
| `Interp.ApplyMap` | include/swordfish/runtime.hh:449-470 | an applied map leaves the caller's `this`, variables and depth as they were, even when it writes variables of its own |
| `Interp.RunFrom` | src/blobl/interp.cc:395-444 | statements change variables and metadata only; what was written before a failure stays |
| `Interp.RunCtx` | src/blobl/interp.cc:395-444 | the loop over statements with its `root`, `root_set` and context yields the outcome `MappingEquivalence` is about |
| `PathAssignment.AssignedAt` | src/runtime.cc:17-24 | `root.a.b = v` is found at its path, with all that `v` holds below it; an assigned `deleted` leaves nothing there |
| `PathAssignment.AssignedElsewhere` | src/runtime.cc:17-24 | what is found along a path that diverges is what was found before |
| `PathAssignment.WayIsObjects` | src/runtime.cc:17-24 | what the path leads through is an object afterwards, whatever it was |
| `PathAssignment.TwoFields` | src/blobl/interp.cc:395-444 | of two assignments along diverging paths both values are there in the end, in a mapping run by either rules |
| `PathAssignment.FieldHolds` | src/blobl/interp.cc:395-444 | what was assigned to a field is there in the end if the later statements only assign along diverging paths, to variables or to metadata |
| `LanguageLaws.Comparisons` | src/value.cc:699-716 | the four comparisons are one strict order of numbers or of strings, each the negation of its opposite with the operands exchanged |
| `LanguageLaws.Incomparable` | src/value.cc:699-709 | comparing anything but two numbers or two strings is an error |
| `LanguageLaws.Lexicographic` | src/value.cc:704-707 | strings are ordered by the first byte that differs, a prefix before what it begins |
| `LanguageLaws.EqualityIs` | src/value.cc:262-316 | without doubles, two values are equal if and only if they are the same once byte strings count as strings and the zone of a timestamp does not count |
| `LanguageLaws.EqualityOperators` | src/value.cc:711-712 | `==` is that and `!=` its negation; with a double both compare doubles, and neither ever fails |
| `LanguageLaws.IntegerOperators` | src/value.cc:616-640 | on integers `+`, `-` and `*` are exact up to a multiple of 2^64 |
| `LanguageLaws.MixedOperators` | src/value.cc:626-658 | on other numbers they are the operations on doubles, `+` joins strings, and everything else is an error |
| `LanguageLaws.Division` | src/value.cc:660-690 | division is of doubles and refuses zero, the remainder refuses zero and what is no number |
| `LanguageLaws.Remainder` | src/value.cc:675-682 | the remainder of integers completes a multiple of the divisor, is smaller than it and has the sign of the dividend |
| `LanguageLaws.Elements` | src/runtime.cc:9-15 | an index picks the element modulo the length, once around from the end, and is an error beyond |
| `LanguageLaws.NoElements` | src/runtime.cc:9-15 | only arrays are indexed and only by numbers, cut to integers |
| `LanguageLaws.ArrayFields` | include/swordfish/runtime.hh:360-380 | a field of an array is the element its decimal digits name, leading zeros or not, or null |
| `LanguageLaws.ObjectFields` | include/swordfish/runtime.hh:360-380 | a field that was set reads back, a deleted or missing one as null |
| `LanguageLaws.FirstMap` | include/swordfish/blobl/ast.hh:133-138 | a map is found by its name, the first one that has it |
| `LanguageLaws.MetadataWritten` | include/swordfish/runtime.hh:85-88 | writing metadata changes one key, and `deleted` removes it |
| `LanguageLaws.MetadataRead` | include/swordfish/runtime.hh:89-103 | metadata read as a whole is an object in which every key reads as it does alone |
| `LanguageLaws.ArrayLiteral` | src/blobl/interp.cc:108-117 | an array literal leaves out `deleted` and `nothing` and keeps the rest in order |
| `LanguageLaws.ObjectLiteral` | src/blobl/interp.cc:118-130 | an object literal leaves them out too, and of several fields with one key the last counts |
| `LanguageLaws.DeMorgan` | src/blobl/interp.cc:41-55 | the laws of De Morgan hold of `&&`, `||` and `!` with what they leave unevaluated and what they refuse |
| `LanguageLaws.Coalescing` | src/blobl/interp.cc:57-63 | `|` keeps its left side unless that fails or is null or nothing |
| `LanguageLaws.CoalescingAssociates` | src/blobl/interp.cc:57-63 | grouping does not matter to `|` |
| `LanguageLaws.MatchArms` | src/blobl/interp.cc:96-103 | the first arm whose condition is `true` counts, conditions that are no booleans being passed over |
| `LanguageLaws.FromSees` | include/swordfish/runtime.hh:258-279 | `from(i)` sees the content, the metadata and the index of message `i`, and everything else of the current one |
| `LanguageLaws.DepthLimit` | include/swordfish/runtime.hh:449-470 | applying a map is an error of its own at sixty-four deep and not before, and a root nothing was assigned to is what the context brings or nothing |
| `LanguageLaws.Coercions` | src/blobl/interp.cc:203-212 | `number` and `bool` coerce their target, or else their argument |
| `LanguageLaws.TableMethod` | src/blobl/interp.cc:354-372 | a method gets exactly as many arguments as it takes, nulls for the missing and none of the surplus |
| `LanguageLaws.QueryMethods` | src/blobl/interp.cc:304-353 | a method with a query runs it on every element it asks for, in order, and `fold` has its starting value in front |
| `LanguageLaws.NoQuery` | src/blobl/interp.cc:304-310 | without a query `sort` and `unique` are methods of the table and the others are errors |
| `Bloblang.RestoreUndoes` | include/swordfish/runtime.hh:185-210 | restoring a scoped variable undoes the binding, to unbound when it was unbound |
| `Bloblang.BindSame` | src/blobl/interp.cc:318-341 | a parameter left bound between elements cannot be told from one restored after each |
| `GeneratedCode.Exec` | include/swordfish/runtime.hh:185-210 | generated code never rebinds `this`, and leaves variables, message and depth as found: only metadata can change |
| `GeneratedCode.ScopedVar` | include/swordfish/runtime.hh:185-210 | the destructor of `scoped_var` restores the variable on every exit |
| `GeneratedCode.ExecMap` | include/swordfish/runtime.hh:449-470 | an emitted map restores the caller's context on return and on failure |
| `GeneratedCode.ExecStmts` | src/blobl/emit.cc:334-363 | emitted statements change variables and metadata only |
| `Simulation.SimExpr` | src/blobl/emit.cc:520-786 | for every expression the emitter accepts and every context, running its translation gives the value the expression has by the emitted rules, or fails with it, and writes the same metadata |
| `Simulation.SimMatch` | src/blobl/emit.cc:520-786 | `match` rebinds `this` dynamically in one execution and lexically, as an `mc_n` local, in the other, with the same outcome |
| `Simulation.SimCatch` | src/blobl/emit.cc:407-519 | `catch` with a lambda and with a query both agree, whatever the handler rebinds (`catch()` without a handler is `SurplusArguments.BareCatchAgreesIff`) |
| `Simulation.SimLambda` | src/blobl/emit.cc:368-406 | lambda-taking methods agree, leading argument, parameter or element binding and all |
| `Simulation.SimDriveVar` | src/blobl/emit.cc:368-406 | element by element, a parameter that stays bound simulates one restored by `scoped_var` |
| `Simulation.SimDriveThis` | src/blobl/emit.cc:368-406 | element by element, a rebound `this` simulates an `el_n` local |
| `Simulation.SimArgs` | src/blobl/emit.cc:407-519 | arguments evaluated one after the other yield the same values or fail at the same one |
| `Simulation.SimFrom` | include/swordfish/runtime.hh:258-279 | `from(i)` agrees, its index evaluated in the current message and its target in the other |
| `Simulation.SimFromAll` | include/swordfish/runtime.hh:236-255 | `from_all` agrees, `this` staying the current message's |
| `Simulation.SimMap` | include/swordfish/runtime.hh:449-470 | an applied map agrees at every nesting depth, up to and beyond the bound of 64 |
| `Simulation.SimTable` | src/blobl/emit.cc:407-519 | table-driven methods agree, whatever number of arguments they are given and whichever order those run in |
| `Simulation.SimStmts` | src/blobl/emit.cc:274-363 | any run of statements ends with the same root, variables and metadata, although only the interpreter keeps a `root_set` flag |
| `Simulation.SameStore` | src/blobl/emit.cc:334-363 | one assignment has the same effect in both, for each kind of target and for `nothing` and `deleted` |
| `Simulation.FastStmt` | src/blobl/emit.cc:284-315 | a statement emitted unboxed has the value it has by the emitted rules, guard or no guard |
| `Simulation.EmittedMeaning` | src/blobl/emit.cc:181-273 | for every mapping the emitter accepts, validated or not, and every context, the emitted function ends with the outcome and the context of the program evaluated by the emitted rules, which differ from the interpreter's in three named places; argument order may be picked call by call if no map writes metadata |
| `EmitScope.EmitsIff` | src/blobl/emit.cc:520-786 | an expression is emitted, wherever it stands, if and only if every part of it that the code needs can be: literals that can be written, known functions, methods and maps, queries where they are asked for |
| `EmitScope.ProgramIff` | src/blobl/emit.cc:181-273 | a program is emitted if and only if every statement of it and of its maps can be |
| `RuleAgreement.EvalAgrees` | src/blobl/interp.cc:21-388 | the two rules give an expression the same outcome and context if its run meets only what they share: every `catch()` reached has a target that fails, every surplus argument reached a value, each leaving nothing behind, and every unboxed statement reached negates only doubles where minus is subtraction from zero |
| `RuleAgreement.MappingEquivalence` | src/blobl/interp.cc:395-444 | the emitted function and `run_ctx` end with the same outcome and the same context on every mapping and context whose run meets only what the rules share, maps being looked at where they are applied; nothing is asked of program parts that do not run |
| `CheckedPrograms.CheckedIsClear` | src/blobl/names.cc:100-166 | an expression in which every `catch` has a handler and no argument is surplus meets only what the rules share, in every context |
| `CheckedPrograms.CheckedProgramsAgree` | src/blobl/names.cc:100-166 | so the two executions agree on every program that passes this check of its text, with float negation checked too |
| `SurplusArguments.SameCode` | src/blobl/emit.cc:418-437 | the emitter does not look at arguments beyond the runtime arity, of methods and functions alike |
| `SurplusArguments.SurplusAgreesIff` | src/blobl/emit.cc:418-437 | for a table-driven method or function with surplus arguments the two executions agree if and only if the call fails anyway or every surplus argument evaluates |
| `SurplusArguments.SurplusMappingAgreesIff` | src/blobl/emit.cc:418-437 | on the same condition, exactly, the emitted function of a mapping that assigns such a call to its root agrees with the interpreter |
| `SurplusArguments.SurplusDiverges` | src/blobl/method_registry.cc:131 | `root = this.timestamp(-true)`, with a method that declares an argument its function does not take: emitted, an error in the interpreter and a value in generated code |
| `SurplusArguments.SurplusFunctionDiverges` | src/blobl/emit.cc:714-723 | the same for a mapping that calls a function, whose surplus only validation would refuse, and validation does not look below `!` |
| `SurplusArguments.BareCatchAgreesIff` | src/blobl/emit.cc:472-474 | `x.catch()` without a handler is an error interpreted and `x` emitted: the two agree if and only if `x` fails |
| `SurplusArguments.BareCatchMappingAgreesIff` | src/blobl/emit.cc:472-474 | and so do the two executions of the mapping `root = x.catch()` |
| `SurplusArguments.BareCatchDiverges` | src/blobl/names.cc:100-166 | the mapping `root = !this.ok.catch()` on `{"ok": true}`: emitted, an error in the interpreter and false in generated code |
| `ArgumentOrder.OrderObservable` | src/blobl/emit.cc:418-437 | with a map that writes metadata, evaluating arguments from the right leaves metadata the interpreter never writes |
| `ArgumentOrder.OrderUnobservable` | src/blobl/emit.cc:418-437 | arguments that write no metadata where they are evaluated have the same values, or fail, in every order, whatever maps elsewhere write |
| `ArgumentOrder.CallInOrder` | src/blobl/emit.cc:418-437 | in a program whose maps write no metadata, a target and its arguments have the outcome they have from the left, whatever order is picked at that call |
| `ArgumentOrder.PairInOrder` | src/blobl/emit.cc:520-786 | and so do the two operands of an index |
| `FastPath.Build` | src/blobl/emit.cc:115-175 | building collects leaves in first-seen order and only ever adds to them |
| `FastPath.BuildIff` | src/blobl/emit.cc:90-175 | exactly arithmetic over fields of `this` and numeric literals is built, with the fields it reads as leaves and the static type its parts give it |
| `FastPath.FastIsBySign` | src/blobl/emit.cc:90-175 | with int64 leaves, and without further condition, the unboxed code boxes to the arithmetic of the expression in which minus on a double is an operation of its own: wrap-around, float division, modulo by 0 and by -1, promotion |
| `FastPath.FastRefinesBoxed` | src/blobl/emit.cc:90-175 | with int64 leaves the unboxed expression gives the interpreter's value or failure, if at each double it negates, and only there, minus is subtraction from zero |
| `FastPath.CombinedIsBoxed` | src/value.cc:626-688 | one unboxed operation on mixed operands is the boxed one, promotion included |
| `FastPath.NegationAgreesAt` | src/blobl/emit.cc:135-145 | a float-typed negation agrees if and only if its operand fails or is a double at which minus is subtraction from zero |
| `FastPath.NegationAgreesIff` | src/blobl/emit.cc:135-145 | with IEEE 754 arithmetic a float-typed negation agrees, bit for bit, if and only if its operand fails or is neither +0.0 nor a NaN |
| `FastPath.NaNFields` | src/blobl/emit.cc:135-145 | the doubles this is about, by the fields of the format |
| `FastPath.NegsAgreeIff` | src/blobl/emit.cc:135-145 | with IEEE 754 arithmetic the condition of `FastRefinesBoxed` says that no double negated is +0.0 or a NaN |
| `FastPath.FloatNegationDiverges` | src/blobl/emit.cc:135-145 | `-(0.0 * this.a)` at `a = 1` is -0.0 unboxed and +0.0 boxed |
| `Numbers.FastIntWraps` | include/swordfish/value.hh:253-263 | add, sub and mul differ from the exact result by a multiple of 2^64 and stay in the signed range |
| `Values.SetRefinesUpdate` | src/value.cc:244-260 | `set` on the sorted vector keeps it sorted and changes the lookup at that key alone; setting `deleted` erases it |
| `Values.RemoveRefines` | src/value.cc:255-260 | `remove` keeps the vector sorted and takes out that key alone |
| `Values.SortedCanonical` | src/value.cc:305-314 | sorted vectors with the same lookups are the same vector, so positional comparison compares maps |
| `ValueStore.Store.constructor` | src/value.cc:30-50 | the empty store: nothing allocated, nothing pooled |
| `ValueStore.Store.Alloc` | src/value.cc:53-67 | a payload, recycled or new, is empty, referenced once and disturbs no other value |
| `ValueStore.Store.Copy` | src/value.cc:107-119 | a copied handle raises the count of its payload and no value changes |
| `ValueStore.Store.Release` | src/value.cc:69-105 | dropping a handle lowers the count; the last one empties the payload, drops its children in turn and pools it; every other handle keeps its value |
| `ValueStore.Store.Unshare` | src/value.cc:136-146 | after unsharing, the handle owns its payload alone and every value is as before |
| `ValueStore.Store.Clone` | src/value.cc:136-146 | the clone holds an equal value in a payload of its own |
| `ValueStore.Store.Set` | src/value.cc:244-253 | `set` on one handle changes that handle's tree by the map update and no other handle's |
| `ValueStore.Store.Remove` | src/value.cc:255-260 | `remove` on one handle changes that handle's tree alone |
| `ValueStore.Store.PutItem` | src/value.cc:207-220 | writing an array element through one handle changes that handle's tree alone |
| `ValueStore.TreesUnique` | src/value.cc:93-146 | the trees the payloads stand for are determined by the heap: no cycle is reachable |
| `ValueStore.Unshared` | src/value.cc:136-146 | a payload with count one has no second handle anywhere |
| `ValueStore.NoneBeyond` | src/value.cc:53-67 | no handle points at a payload that was never made |
| `ValueStore.ReuseStep` | src/value.cc:30-67 | taking a payload from the pool keeps every count equal to the number of handles, and the pool distinct, empty and unreferenced |
| `ValueStore.RecycleStep` | src/value.cc:69-85 | so does giving one back |
| `ValueStore.FreshStep` | src/value.cc:53-67 | so does making a new one |
| `ValueStore.InstallStep` | src/value.cc:207-253 | so does replacing the contents of a payload that one handle owns |
| `ValueStore.Splices` | src/value.cc:221-260 | the positions `lower` finds are where the map update inserts, replaces and erases |
| `StoreRun.Step` | include/swordfish/value.hh:154-190 | every operation on variables has its meaning on immutable trees, and keeps the heap invariant |
| `StoreRun.Run` | src/value.cc:30-260 | any run of operations from the empty store ends with the trees that run means: sharing is never visible |
| `StoreRun.Assign` | include/swordfish/value.hh:160 | copy assignment between variables, self-assignment included, is assignment of trees |
| `StoreRun.MoveTo` | include/swordfish/value.hh:161 | move assignment moves the tree and leaves null |
| `StoreRun.AssignOwnItem` | include/swordfish/value.hh:160 | assigning an array one of its own elements is defined, and then has its meaning on trees, if and only if another handle shares the array: otherwise the array, and the element's slot with it, is destroyed before the element is copied |
| `StoreRun.AssignOwnField` | include/swordfish/value.hh:160 | and so is assigning an object one of its own fields |
| `StoreRun.OwnItemDestroyed` | include/swordfish/value.hh:160 | a store made by allocating and writing, in which it is not defined |
| `AckGroups.AckGroup.AddChild` | src/runtime/transaction.cc:5-9 | one more child pending |
| `AckGroups.AckGroup.Done` | src/runtime/transaction.cc:11-18 | a settled child is counted down, the first nack kept, and the parent called if it was the last |
| `AckGroups.AckGroup.SealGroup` | src/runtime/transaction.cc:20-29 | sealing calls the parent when nothing is pending |
| `AckGroups.ExecFaithful` | src/runtime/transaction.cc:5-29 | after every interleaving the counters say exactly what happened: children unsettled, sealed, first nack, calls |
| `AckGroups.ParentOnce` | src/runtime/transaction.cc:5-29 | the parent is called exactly once after sealing and settling every child, never before, never twice, and with the earliest nack |
| `AckGroups.NothingAfterTheCall` | src/runtime/transaction.cc:5-29 | once the parent was called no child is left to settle |
| `AckTree.DeliverKeeps` | src/runtime/transaction.cc:11-18 | settling a child of a group that is a child itself keeps the invariant of the whole tree |
| `AckTree.StepKeeps` | src/runtime/transaction.cc:5-29 | so does every event anywhere in the tree |
| `AckReports.SourceHearsEarliest` | src/runtime/transaction.cc:11-29 | and which: each group's error is the earliest in its log, a child group standing for the error it passes on; the log holds its messages' reports in the order of the events and every resolved child group once; the source hears the outermost group's |
| `AckReports.SourceErrorReported` | src/runtime/transaction.cc:11-29 | an error that reaches the source is one that a message reported |
| `AckReports.StepLogs` | src/runtime/transaction.cc:11-29 | every event anywhere in the tree keeps each group's error equal to the earliest of its reports |
| `AckTree.SourceResolvedOnce` | src/runtime/transaction.cc:5-29 | over any tree of groups, however it grew: the source is resolved at most once, exactly when every group is sealed and every message settled, and with a nack if and only if some message was nacked |
| `StdoutWriter.StepKeeps` | src/components/basic.cc:207-298 | every step of a shard, of the writer thread and of `ref`/`unref` keeps order, bytes and pending resolutions consistent |
| `StdoutWriter.ResolveKeeps` | src/components/basic.cc:272-281 | a posted completion is not resolved yet, and is then resolved once with its own result |
| `StdoutWriter.Delivered` | src/components/basic.cc:207-298 | in every interleaving buffers come out in acceptance order and whole unless their write failed; success is reported only if every byte went out; when the thread is gone and its posts have been handled, each accepted request is resolved exactly once |
| `StdoutWriter.WritesAccepted` | src/components/basic.cc:215-246 | what is accepted is what was written while the writer was held, empty buffers left out, in that order |
| `StdoutWriter.OrderlyExactly` | src/components/basic.cc:229-246 | from any state of an orderly run, a step keeps requests finishing in acceptance order whatever orderly steps follow, if and only if it does not start a thread beside a live one |
| `StdoutWriter.LateRefReorders` | src/components/basic.cc:229-246 | from every such state, starting a second thread beside a live one leads to requests that finish out of order |
| `StdoutWriter.LateRefInterleaves` | src/components/basic.cc:229-246 | a `ref` after the last `unref` while the old thread lives lets two threads write at once, and their bytes mix |
| `StdoutWriter.WriteAll` | src/components/basic.cc:285-298 | for any sequence of partial writes and interruptions, 0 is returned if and only if all bytes went out |
| `DiffPatch.Differ.DiffInto` | src/methods_structured.cc:119-163 | the walk with its shared path and output appends exactly the changelog and leaves the path as it was |
| `DiffPatch.Diff` | src/methods_structured.cc:340-345 | `diff` is the changelog the laws below are about |
| `ChangelogTruth.DiffIsTrue` | src/methods_structured.cc:119-163 | every entry is true: its path leads to where the two values differ, through containers alike in both, and it says what is there, its kind, the old value or null and the new one or null |
| `ChangelogTruth.DiffIsWhole` | src/methods_structured.cc:119-163 | every such difference has an entry that says so |
| `ChangelogTruth.DiffIsOrdered` | src/methods_structured.cc:134-162 | of two entries the one for an earlier key of the left value, a key of the left before a new one, or a smaller index comes first |
| `ChangelogTruth.RecordedIff` | src/methods_structured.cc:134-163 | a change is recorded if and only if the values differ at its path, not inside containers alike in both, and it is the change from the one to the other |
| `DiffPatch.Patch` | src/methods_structured.cc:347-368 | `patch` applies entry after entry and fails at the first malformed one |
| `PatchLaws.EmptyDiff` | src/methods_structured.cc:134-162 | a diff is empty if and only if the two values are equal |
| `PatchLaws.PathsApart` | src/methods_structured.cc:119-163 | no recorded path is a prefix of another, so no entry disturbs what another left |
| `PatchLaws.ObjectPatched` | src/methods_structured.cc:49-56 | patching an object gives exactly the keys of the other, each patched in turn, for every pair of objects |
| `PatchLaws.PatchedEqual` | src/methods_structured.cc:347-368 | the patched value equals the target if and only if no path holds two different arrays |
| `PatchLaws.PatchUndoesDiff` | src/methods_structured.cc:340-368 | `patch(v, diff(v, w)) == w` if and only if `v == w` already, or both are objects and no path holds two different arrays; for every `w` that equals itself (no NaN) |
| `PatchLaws.ArraysDoNotPatch` | src/methods_structured.cc:340-368 | from `{"a": [1]}` to `{"a": [2]}` the changelog does not lead |
| `PatchLaws.EntryPatches` | src/methods_structured.cc:121-132 | what `patch` reads out of a recorded entry is what `diff` put in; an empty path is an error |
| `MergeSort.MergeSortInPlace` | src/methods_structured.cc:438-458 | sorting the vector in place, with its swapped buffer, yields `Sort` |
| `MergeSort.SortIsPermutation` | src/methods_structured.cc:438-458 | for any comparator whatsoever the result is a permutation of the input |
| `MergeSort.SortIsStable` | src/methods_structured.cc:438-458 | if the comparator is a strict weak order of the elements sorted, whatever it does elsewhere, the result is ordered and elements that compare alike keep their order |
| `MergeSort.ComparisonOrders` | src/methods_structured.cc:438-458 | the language's own `left < right` is such a comparator on strings, and on numbers without a NaN |
| `OperatorFold.ShapeUnique` | src/blobl/parser.cc:23-32 | at most one tree has a given yield and the shape of the grouping rule |
| `OperatorFold.FoldPass` | src/blobl/parser.cc:293-311 | one pass combines exactly the operators of its level, to the left |
| `OperatorFold.ShapeGroups` | src/blobl/parser.cc:23-32 | the shape by levels is the grouping rule: an operand that is an operation binds tighter, or as tight on the left, with `* / % |`, `+ -`, the comparisons and `&& ||` written out |
| `OperatorFold.TwoOperators` | src/blobl/parser.cc:23-32 | of two operators the second goes first if and only if it binds tighter |
| `OperatorFold.Fold` | src/blobl/parser.cc:292-311 | every run of operands and operators folds into one tree with that yield, grouped by that rule, and it is the only one |
| `MsgPack.Writer.Value` | src/methods_msgpack.cc:66-125 | encoding, by its own headers, integers and strings, appends exactly the bytes of the value |
| `MsgPack.Writer.PutNumber` | src/methods_msgpack.cc:25-28 | `put_be` appends the low bytes of the number, most significant first |
| `MsgPack.Reader.Read` | src/methods_msgpack.cc:152-201 | the reader with its cursor and depth reads what `Decode` reads; a value gives the depth back and so does an error, except that one for nesting too deeply leaves it one higher |
| `MsgPack.Reader.ReadMap` | src/methods_msgpack.cc:213-226 | a map is read entry by entry through `set`; a key that is no string is an error |
| `MsgPack.DecodeEncode` | src/methods_msgpack.cc:32-226 | reading an encoding, whatever follows it, gives the value and the exact end if the value nests no deeper than 1024, and an error if it does |
| `MsgPack.FormatThenParse` | src/methods_msgpack.cc:228-239 | `parse_msgpack(format_msgpack(v))` is the canonical form of `v`, or an error exactly when it nests too deep |
| `MsgPack.CanonSame` | src/methods_msgpack.cc:66-125 | the canonical form of null, booleans, numbers, strings, bytes and their arrays and objects is the value itself |
| `MsgPack.IntegersShortest` | src/methods_msgpack.cc:32-48 | no shorter byte string decodes to the same integer |
| `WireFormat.Written` | src/methods_msgpack.cc:25-125 | every value is written as the type byte of the narrowest format the MessagePack specification has for it, the number that goes with it and the content |
| `WireFormat.BigEndian` | src/methods_msgpack.cc:25-28 | numbers have their most significant byte first |
| `WireFormat.IntegersRead` | src/methods_msgpack.cc:152-201 | an integer is read from every width, signed in two's complement or unsigned, and above the signed range as a double |
| `WireFormat.CountsRead` | src/methods_msgpack.cc:152-201 | strings and byte strings are read behind a count of every width |
| `WireFormat.Refused` | src/methods_msgpack.cc:152-201 | the reserved type byte and the extension types are refused, and no others |
| `WireFormat.DepthLimit` | src/methods_msgpack.cc:152-156 | a document is read up to a thousand and twenty-four deep |
| `Base85.A85Encode` | src/methods.cc:309-324 | the encoder's loops produce the text the round trip is about |
| `Base85.A85Decode` | src/methods.cc:326-349 | the decoder with its accumulator and count, and every error it raises |
| `Base85.OnlyDigitsDecode` | src/methods.cc:326-351 | text decodes only if it consists of white space, `z` and the characters from `!` to `u`, and no single one is left over |
| `Base85.FiveDigits` | src/methods.cc:318-320 | the buffer filled from its end holds the base-85 digits |
| `Base85.A85RoundTrip` | src/methods.cc:309-349 | decoding the ascii85 of any byte string gives it back: zero groups, short tails and all |
| `Base85.PaddedTail` | src/methods.cc:330-336 | padding with 84 undoes padding with zero bytes, without exceeding 32 bits |
| `Base85.SpaceIgnored` | src/methods.cc:337-338 | white space anywhere changes nothing |
| `Base85.Z85Encode` | src/methods.cc:353-365 | z85 by its alphabet; other lengths than multiples of four are refused |
| `Base85.Z85Decode` | src/methods.cc:367-381 | z85 back; a character outside the alphabet or a wrong length is an error |
| `Base85.Z85RoundTrip` | src/methods.cc:353-381 | exactly the multiples of four encode, and they decode to themselves |
| `KnownAnswers.Z85Table` | src/methods.cc:264-265 | the alphabet is that of ZeroMQ's RFC 32 |
| `KnownAnswers.HelloWorld` | src/methods.cc:353-381 | its example encodes as it says |
| `KnownAnswers.Man` | src/methods.cc:309-324 | four bytes are the five ascii85 characters they should be |
| `Base64Codec.B64Encode` | src/encoding_util.hh:46-68 | the encoder's loop and its tail, padded or not |
| `Base64Codec.B64Decode` | src/encoding_util.hh:75-92 | the decoder with its 32-bit buffer, lax or strict |
| `Base64Codec.DecodeOrThrow` | src/methods.cc:267-291 | text is refused if and only if a character that counts is outside the alphabet or a single one is left over |
| `Base64Codec.Octets` | src/encoding_util.hh:85-89 | four digits yield the three bytes whatever the buffer held before |
| `Base64Codec.DecodeEncode` | src/encoding_util.hh:46-92 | decoding undoes encoding for every byte string, padded or not, lax or strict |
| `Base64Codec.OnlyBodyCounts` | src/encoding_util.hh:80-85 | line breaks, and what follows the padding, change nothing |
| `Base64Codec.DecodedLength` | src/encoding_util.hh:85-89 | the number of bytes is what the characters' bits fill |
| `Base64Codec.Base64RoundTrip` | src/methods.cc:267-291 | all three spellings survive, wherever lines are broken |
| `KnownAnswers.Base64Tables` | src/encoding_util.hh:39-44 | the alphabets are tables 1 and 2 of RFC 4648 |
| `KnownAnswers.Base64Vectors` | src/encoding_util.hh:46-68 | the test vectors of section 10 of RFC 4648 up to three bytes |
| `KnownAnswers.Base64LongVectors` | src/encoding_util.hh:46-68 | and the longer ones |
| `Calendar.FloorDivIs` | src/methods_time.cc:42-46 | floor division built from division that truncates rounds down, before the epoch as after it |
| `Calendar.NextDay` | src/methods_time.cc:59-81 | the calendar starts at 1970-01-01 and every next day is the next date |
| `Calendar.DateOfHolds` | src/methods_time.cc:59-81 | every day count is a valid date with that day count |
| `Calendar.DateUnique` | src/methods_time.cc:59-81 | and of one date only |
| `Calendar.FromToCivil` | src/methods_time.cc:59-136 | splitting an instant into civil time and putting it together changes nothing, at any offset |
| `Calendar.ToFromCivil` | src/methods_time.cc:59-136 | putting a civil time together and splitting it gives it back |
| `Calendar.ClosedForm` | src/methods_time.cc:123-137 | the day count of every date is the closed form over years that begin in March, with no table of months |
| `Calendar.MonthsRoll` | src/methods_time.cc:122-136 | months out of range roll into other years |
| `Layouts.ParseLayout` | src/methods_time.cc:288-349 | the loop over a layout yields its tokens, first spelling first |
| `Layouts.RfcLayout` | src/methods_time.cc:798 | the RFC 3339 layout has exactly its thirteen tokens |
| `Layouts.LongestMatch` | src/methods_time.cc:288-345 | of all spellings the layout continues with, the longest is taken |
| `Layouts.SpellingIsField` | src/methods_time.cc:288-349 | each spelling alone is its own field |
| `Layouts.FractionSpelling` | src/methods_time.cc:326-337 | a point or comma and a run of zeros or nines is a fraction of that width |
| `TimeFormat.FormatLayout` | src/methods_time.cc:351-410 | printing with any layout, token by token |
| `TimeFormat.ReferenceValid` | src/methods_time.cc:44-77 | January 2, 2006 is a Monday and the second day of its year |
| `TimeFormat.SpelledByReference` | src/methods_time.cc:288-410 | each spelling prints the piece of Mon Jan 2 15:04:05 2006 that it is, except that days are not padded with underscores and a zone has neither seconds nor a name |
| `TimeFormat.UtcShown` | src/methods_time.cc:160-168 | UTC is `Z` or `UTC` where the layout asks for that, and a positive zero elsewhere |
| `TimeFormat.TokenReadsBack` | src/methods_time.cc:351-568 | what is printed for a token is read as that token and says what it was printed from, for every kind of field and any text behind it that does not run into it |
| `TimeFormat.ReadsWhatItPrinted` | src/methods_time.cc:351-596 | what any layout printed is read as the instant of the fields it has: the day they name, by month and day or by the day of the year, the hour on the 24-hour clock, unsaid fields as they start |
| `TimeFormat.InstantReadsBack` | src/methods_time.cc:351-596 | with a layout that has every field, an instant is read back, instant and offset |
| `TimeFormat.HalfDayRoundTrip` | src/methods_time.cc:584-587 | a date and time printed with `2006-01-02 3:04PM` is read back |
| `TimeFormat.HalfDay` | src/methods_time.cc:584-587 | an hour with a half of the day is the hour modulo twelve in that half |
| `TimeFormat.AssembleIs` | src/methods_time.cc:588-596 | day `n` of the year is `n` - 1 days after January 1, by the calendar's day count |
| `TimeFormat.ScanRecased` | src/methods_time.cc:244-272 | names are read in any case |
| `TimeFormat.HalfInAnyCase` | src/methods_time.cc:505-516 | so is the half of the day |
| `TimeFormat.UnmentionedFraction` | src/methods_time.cc:432-459 | behind the seconds a fraction is read that the layout does not mention, after a point or a comma, cut to nanoseconds |
| `TimeFormat.NumericZoneUnread` | src/methods_time.cc:402-408 | in place of a zone name an offset other than zero prints digits, which are not read as a name |
| `TimeFormat.ReadsAbbreviation` | src/methods_time.cc:568-582 | a zone abbreviation is read whole, and four of them say UTC |
| `Rfc3339.TsRfc3339Nano` | src/methods_time.cc:194-207 | printing an instant, field by field |
| `Rfc3339.WriteFraction` | src/methods_time.cc:172-191 | the fraction, cut and trimmed |
| `Rfc3339.ParseWithLayout` | src/methods_time.cc:426-596 | parsing with any layout, token by token |
| `Layouts.PadTo` | src/methods_time.cc:153-157 | zero padding to a width |
| `Layouts.PadHolds` | src/methods_time.cc:149-157 | a number that fits its width is printed in exactly that width and reads back |
| `Rfc3339.ReadInt` | src/methods_time.cc:231-242 | scanning a bounded number of digits, or refusing too few |
| `Rfc3339.Parser.Read` | src/methods_time.cc:462-568 | one token at the cursor, by the scanners for numbers, names, fractions and zones: the cursor and the fields end where the token says, or the input is refused |
| `Rfc3339.Parser.Field` | src/methods_time.cc:468-568 | each kind of field |
| `Rfc3339.ReadBackFraction` | src/methods_time.cc:525-540 | a printed fraction, kept or trimmed, reads back cut to its digits |
| `Rfc3339.OffsetsWhole` | src/methods_time.cc:541-568 | whatever the layout, a parsed offset is whole minutes |
| `Rfc3339.LongZone` | src/methods_time.cc:160-168 | an offset of a hundred hours or more is printed longer than the parser reads |
| `Rfc3339.RoundTrip` | src/methods_time.cc:194-207 | an instant printed as RFC 3339 parses back, instant and offset, if and only if the offset is whole minutes below a hundred hours and the instant is not before second -9223372036 |
| `Rfc3339.MadeTimestampsSurvive` | src/methods_time.cc:110-117 | every timestamp `make_ts` makes survives at every whole-minute offset below a day whose local time does not overflow |
| `Csv.ReadRecord` | src/methods_parse.cc:82-161 | the record reader with its cursor, field and flags, and its rewind on unfinished input |
| `Csv.WrittenRow` | src/methods_parse.cc:82-161 | a row written field by field, quoted with its quotes doubled, or bare, is read back, field by field and character by character, whatever follows the line |
| `Csv.WrittenRows` | src/methods_parse.cc:82-161 | so is a document of such rows |
| `Csv.PrefixConsistent` | src/methods_parse.cc:82-161 | a prefix asks for more or gives the outcome of the whole text, in every dialect, unless the record was closed by a carriage return at its very end; then, and only then, the whole text reads differently |
| `Csv.Scanner.Feed` | src/components/scanners.cc:366-421 | the settled rows are sent, unless a malformed record follows them and errors are not continued over: then they are lost, every text that starts this way has exactly the rows sent before, the lost ones and the malformed one, and something is lost if and only if the buffer with the chunk begins with a complete good record |
| `Csv.Scanner.Finish` | src/components/scanners.cc:370-432 | whatever the chunks were, the rows sent are those of the whole text up to its first malformed record, and an error in that one's place; what a reader that goes on with the next line would still find is dropped; an error is thrown if and only if the text is malformed and errors are not continued over, and then the rows lost are those between the ones sent and the malformed record |
| `Csv.StoppingDrops` | src/components/scanners.cc:398-432 | the rows of a text read on after malformed records are those the scanner sends and those it drops, and it drops some if and only if text follows the line of the first malformed record |
| `Csv.OffendingIs` | src/methods_parse.cc:118-131 | a malformed record is so from one quote on: the text up to it is not malformed, every text that reaches beyond it is |
| `Csv.ContinuingDrops` | src/components/scanners.cc:398-432 | `b"`, a newline and `c`: the row `c` is dropped |
| `Csv.ChunkingDecidesLoss` | src/components/scanners.cc:366-421 | one text, two ways to cut it: fed at once the error loses the first row, with the last byte fed by itself the row is sent first |
| `Crc32.TableCache.Table` | src/methods_crypto.cc:58-69 | the cache returns the polynomial's own table, keeps what it held and never holds two for one polynomial |
| `Crc32.TableCache.Digest` | src/methods_crypto.cc:71-76 | the table-driven digest is the CRC of the message shifted in bit by bit, for every polynomial and input |
| `Crc32.BuildTable` | src/methods_crypto.cc:61-66 | entry `i` is `i` divided for eight bits |
| `Crc32.ByteStep` | src/methods_crypto.cc:74 | one table step is eight message bits |
| `Crc32.HighMoves` | src/methods_crypto.cc:74 | bits above the low byte move down untouched for eight steps |
| `KnownAnswers.CheckValue` | src/methods_crypto.cc:61-76 | the check value of CRC-32 for `123456789` |
| `Snowflake.Generator.NextId` | src/functions.cc:193-218 | one id from a clock reading; a node outside 0..1023 is an error and changes nothing |
| `Snowflake.StampsIncrease` | src/functions.cc:202-215 | for any clock readings, backwards steps included, later stamps come after earlier ones |
| `Snowflake.IdsIncrease` | src/functions.cc:193-218 | ids of one node strictly increase while milliseconds fit 41 bits |
| `Snowflake.IdsAgree` | src/functions.cc:216 | two ids are equal if and only if millisecond, node and sequence number are |
| `Snowflake.SharedNodeCollides` | src/functions.cc:193-218 | two generators with one node number, whatever each issued before, give equal ids in the first millisecond that neither has reached |
| `Snowflake.Unpacks` | src/functions.cc:216 | an id gives back milliseconds since 1288834974657 above bit 22, the node in ten bits and the sequence number in twelve |
| `Snowflake.BorrowBounded` | src/functions.cc:205-212 | the generator runs ahead of its clock by no more than a millisecond for every 4096 calls |
| `Snowflake.StaysInRange` | src/functions.cc:205-216 | so the 41 bits suffice while the clock leaves that much room |
| `Snowflake.OverflowReverses` | src/functions.cc:216 | one millisecond past the 41 bits the order of ids is reversed |

## Left out

- RuleAgreement.MappingEquivalence: that a run meets only what the rules share is sufficient; where it does not, whether the difference shows in the end is stated for mappings of one statement (`SurplusArguments`).
- CheckedPrograms.CheckedProgramsAgree: float negation in maps is checked for every `this` they might be given.
- Simulation.EmittedMeaning: orders of arguments other than from the left, in programs whose maps write metadata, are not covered; `ArgumentOrder.OrderObservable` shows why.
- Simulation.SimDriveVar: the algorithms of lambda-taking methods are one arbitrary function of the callback's results so far, so any loop that asks for elements one at a time is covered; what each method computes is not.
- Errors are one opaque outcome: the two executions may differ in error text, and `attach_source` decoration is not modelled. A `catch` handler sees one fixed text.
- Impure functions (`counter`, `count`, `random_int`, `now`, ids, `file`, `env`) and regular-expression methods are not part of the translation theorem.
- The method catalogue is arbitrary: a table-driven method is any total function with an arity, a context function any function of the message view.
- Floating point is by bit pattern with uninterpreted operations; shortest-decimal printing is not modelled.
- The reference count is unbounded (the program's is 32 bits), pool teardown with its `draining` flag is not modelled, and the thread-local pools are one thread's.
- ValueStore.Store.Release: releases children recursively as destructors do; stack depth is not modelled.
- StoreRun.AssignOwnItem: covers what the value holds directly; for deeper slots the payload with the slot must survive, which counts alone do not decide, since all its handles may be inside what is destroyed.
- Whole-object conveniences over values (`assign`, `collapse`, `squash`, `with`, `without`) would only add easy members.
- MergeSort.ComparisonOrders: that the order of doubles without NaN is a strict weak order is a hypothesis on the uninterpreted comparison.
- MergeSort.SortIsPermutation: the comparator is a pure function; comparators that throw part-way through are not modelled.
- OperatorFold.Fold: starts from the flat run of operands and operators; tokenising, spans and the depth guard are not modelled.
- PatchLaws.PatchUndoesDiff: for a target that does not equal itself (it holds a NaN) equality cannot say that it was reached; `PatchLaws.ObjectPatched` covers that case structurally.
- MsgPack.FormatThenParse: timestamps and numbers kept as text come back as strings, as the program writes them, and the printing of timestamps and of integers above the int64 range is a parameter.
- AckTree.SourceResolvedOnce: each acknowledgement runs to its end before the next starts, as on one reactor.
- StdoutWriter.Delivered: the mutex makes each queue operation one step; condition-variable wake-ups are left to the scheduler, so it is a safety statement and does not say that the thread gets to run.
- Csv.Scanner.Feed: rows are the raw fields; headers, the field-count check and blank lines, which follow after a row is read, are not modelled.
- Rfc3339.RoundTrip: `std::chrono` is a proleptic Gregorian calendar defined here, time zone names and `strftime` are not modelled, and text is ASCII.
- Rfc3339.TsRfc3339Nano: local times that overflow an int64 are undefined in the program and outside the theorem.
- TimeFormat.InstantReadsBack: that no text runs into the field before it (`TimeFormat.Clear`) is sufficient, not necessary; zone names come from the time zone database and are not modelled beyond UTC.
- LanguageLaws.Comparisons: that no two doubles are each less than the other is a hypothesis on the uninterpreted comparison.
- LanguageLaws.EqualityIs: values that hold doubles are compared by the uninterpreted equality of doubles, about which nothing more is said.
- Snowflake.IdsIncrease: requires the later stamp to fit 41 bits, which `Snowflake.StaysInRange` reduces to the clock and `Snowflake.OverflowReverses` shows to be needed.
- Crc32.TableCache.Table: the table is returned by value; the reference into the cache that the program returns is used before the next call only.
- hex, ULID, KSUID and base-58 or base-62 encoding, FNV, the UTF-8 helpers, Unicode case tables, XML, YAML, JSONPath, URL and HTML readers, ISO 8601 durations: many easy members, or tables.
- Seastar futures, sharding, HTTP, signals, the REST interface, OpenSSL, compression libraries, RE2, simdjson and the Kafka generator: plumbing and foreign code.
