# HaJS compiler core, modelled in Dafny

HaJS compiles a dialogue scene into a JavaScript script. The scene is a tree of `switch`/`case`/`default`, `message`, `options`/`option`, `ifdef`/`ifndef`, `assert` and feature tags. The script is a state machine keyed on an integer `status`. This project models the core of the compiler and proves properties about that model.

- **Features** (`Features`): named code templates. `$.` stands for the manager reference and `$x`, `$y`, `$z` for the arguments. Switch features also have a left side and compile to `left == right`. Compiling a feature that declares a dependency records that dependency.
- **Building the element tree** (`SceneBuilder`, `HaJSCompiler.Compiler.BuildElementRecursive`):
  - Each tag becomes its element. Message statuses are handed out in construction order.
  - `ifdef`/`ifndef` splice their children in, or drop them.
  - `assert` becomes a switch whose condition case receives every later sibling. The source gets this by retargeting the list it appends to. `Target`/`Run` model that retargeting step by step, and `BuildSeq` is the nested tree it produces.
- **Status contexts** (`StatusContext`): a fork/join dataflow over the tree.
  - Every element collects the statuses from which it can be reached.
  - A message resets the context to its own status.
  - Parallel elements (switch, options) join their children's exit contexts by union.
  - Serial elements (case, option) thread one context through their children.
- **Code emission** (`HaJSCompiler.Compiler`): every element writes into the buffer of its status context.
  - Buffers are found by set equality and kept in discovery order.
  - Switches write `if`/`else if`/`else` blocks. Messages write `status = N;`, the dialogue call and `return;`.
  - Back/next and yes/no messages leave a continuation in the buffer of `{N}`. Options messages write one `selection` arm per option there.
- **Script assembly** (`Dispatch`, `HaJSCompiler.Compiler.CompileInternal`): a header, one `importPackage` per dependency, and one dispatch block per context guarded by `status == …` tests.
- **The indented buffer** (`Indented`): the `IndentedStringBuilder` class. It is proved against `Writer` value functions.
- **The arbitrary-JS translator** (`ArbitraryJSTranslator`): it rewrites `$name(a,b)` spans in raw script text into compiled features, in place, in one left-to-right pass.
- **String operations** (`Text`): the .NET string operations the source relies on (`IndexOf`, `Contains`, `Replace`, `Split`, `Aggregate`, `AppendLine`).

Methods model the code that changes state: the compiler's fields, the buffer class, the loops. Each is proved against a function that gives its meaning. Lemmas relate those functions to what the source promises.

## Model

| member | source | states |
|---|---|---|
| Text.IndexOfChar | HaJS/ArbitraryJSTranslator.cs:13-19 | `IndexOf(c, from)` is -1 or a position at or after `from` that holds `c` |
| Text.IndexOfFirst | HaJS/HaJSCompiler.cs:120 | the position `IndexOf` finds is the first `c` from the start; -1 means no `c` occurs there |
| Text.IndexOfShift | HaJS/ArbitraryJSTranslator.cs:37 | the search depends only on the text from its start on: texts that agree from there find the same offset |
| Text.RemoveEmpty | HaJS/IndentedStringBuilder.cs:61 | `RemoveEmptyEntries` leaves no empty piece and never adds pieces |
| Text.RemoveEmptyKeeps | HaJS/IndentedStringBuilder.cs:61 | the pieces kept are exactly the non-empty pieces, and a list with no empty piece is kept whole |
| Text.RemoveEmptyAppend | HaJS/IndentedStringBuilder.cs:61 | removing the empty pieces of two lists in turn keeps the order: the result for `a + b` is that of `a` followed by that of `b` |
| Text.JoinSplit | HaJS/HaJSElements.cs:86-87 | joining the pieces of a `Split` with the separator gives back the text |
| Text.ReplaceIsJoinSplit | HaJS/HaJSFeatures.cs:35 | `Replace(p, r)` is the text's pieces between occurrences of `p`, joined by `r` |
| Text.ReplaceAbsent | HaJS/HaJSFeatures.cs:33-36 | `Replace` leaves a text without the pattern unchanged |
| Text.SplitCount | HaJS/HaJSElements.cs:86 | splitting on a character gives one piece more than the character's occurrences (empty pieces kept) |
| Text.SplitJoinLines | HaJS/IndentedStringBuilder.cs:61 | non-empty lines without CRLF, each written with CRLF, split on CRLF with empty entries removed, are the same lines |
| Indented.IndentStringShape | HaJS/IndentedStringBuilder.cs:45-52 | the indentation cache is four spaces per level, only spaces, and empty at levels of zero or less |
| Indented.LinesAppendedText | HaJS/IndentedStringBuilder.cs:54-57 | successive `AppendLine` calls keep the level and add exactly the indented lines, in order, after the old text |
| Indented.EnterLeaveBalanced | HaJS/IndentedStringBuilder.cs:31-43 | `Enter`, lines, `Leave` restore the level; `{` and `}` sit at the outer indentation and the lines one level deeper |
| Indented.AppendJoinedLines | HaJS/IndentedStringBuilder.cs:59-62 | `Append` of CRLF-terminated non-empty lines writes exactly those lines at the current level |
| Indented.IndentedStringBuilder.constructor | HaJS/IndentedStringBuilder.cs:24-29 | a new builder is empty, at level 3, with its cache matching the level |
| Indented.IndentedStringBuilder.Enter | HaJS/IndentedStringBuilder.cs:31-36 | appends `{` at the current level, then the level goes up by one; the cache follows |
| Indented.IndentedStringBuilder.Leave | HaJS/IndentedStringBuilder.cs:38-43 | the level goes down by one, then `}` is appended at the new level |
| Indented.IndentedStringBuilder.RecacheIndent | HaJS/IndentedStringBuilder.cs:45-52 | after the loop the cache is `Indent` repeated `indent` times |
| Indented.IndentedStringBuilder.AppendLine | HaJS/IndentedStringBuilder.cs:54-57 | appends cache + data + CRLF; the level is unchanged |
| Indented.IndentedStringBuilder.Append | HaJS/IndentedStringBuilder.cs:59-62 | appends, in order, each non-empty CRLF-separated piece of the data as a line |
| Indented.IndentedStringBuilder.ToString | HaJS/IndentedStringBuilder.cs:64-67 | returns all text appended so far |
| Features.NoPlaceholderUnchanged | HaJS/HaJSFeatures.cs:32-49 | a template holding none of `$.`, `$x`, `$y`, `$z` compiles to itself |
| Features.ManagerReferenceSubstituted | HaJS/HaJSFeatures.cs:33-36 | in a template without `$x`, `$y`, `$z`, every `$.` becomes `manager + "."` and nothing else of the template changes |
| Features.LaterPlaceholderInArgument | HaJS/HaJSFeatures.cs:37-48 | the placeholders are replaced in turn on the text produced so far: an `$x` argument holding `$y` has that `$y` replaced too, whatever the `$y` argument and the manager reference |
| Features.RecordedDependency | HaJS/HaJSFeatures.cs:28-31 | the dependency set gains the feature's dependency exactly when it has one, loses nothing, and recording twice adds nothing |
| Features.Substitute | HaJS/HaJSFeatures.cs:32-49 | defines the compiled template: `$.` replaced by the manager reference, then `$x`, `$y`, `$z` by the arguments, each only when the template itself holds it |
| Elements.FlagTable | HaJS/HaJSElements.cs:45-365 | HasChildren / Parallel / ControlFlowBreaker of each kind: switch yes/yes/no, case and option yes/no/no, message no/–/yes, options yes/yes/yes, command no/no/no |
| Elements.CaseHeader | HaJS/HaJSElements.cs:74-91 | a default case is `else` whatever `first` is; any other case begins with `if (` when first and `else if (` otherwise, and ends with `)` |
| Elements.ValueCaseDisjuncts | HaJS/HaJSElements.cs:86-87 | a value case has one test per comma-separated value, empty values included, each `left == right(value)`, in order |
| Elements.OptionLabels | HaJS/HaJSElements.cs:273-277 | the labels are the options' texts in order; any child that is not an option fails the cast |
| Elements.OptionsFullText | HaJS/HaJSElements.cs:270-280 | the options text is `text#b`, then `\r\n#L<i>#<label>#l` per option in order, then `#k`; a non-option child is an error |
| Elements.OptionEntriesPrefix | HaJS/HaJSElements.cs:273-277 | the entries of the first j options are a prefix of the entries of all of them |
| Elements.OptionEntryAt | HaJS/HaJSElements.cs:273-277 | option i's entry `\r\n#L<i>#<label>#l` sits in the options text right after the entries of the options before it |
| Elements.MessagePosition | HaJS/HaJSElements.cs:177-182 | finds the first sibling that is the message with the given status, or -1 when there is none |
| Elements.PrecedingMessage | HaJS/HaJSElements.cs:176-188 | finds the nearest message before a position, with no message in between, or -1 |
| Elements.GetPreviousStatus | HaJS/HaJSElements.cs:174-191 | -1 when no message precedes this one; otherwise a status of the nearest preceding message's context; an error when this message is not a child |
| Elements.ElementAt0 | HaJS/HaJSElements.cs:183 | `ElementAt(0)` of a non-empty set is some member of it |
| Elements.BackContinuationAppended | HaJS/HaJSElements.cs:193-203 | the back/next continuation, appended to a buffer, arrives as its six lines unchanged at the buffer's level |
| Elements.DialogFeature | HaJS/HaJSElements.cs:149-279 | defines the dialogue feature of a message: `dlg_Options` for options, else `dlg_Next`, `dlg_PrevNext`, `dlg_YesNo` or `dlg_Ok` by its style |
| Elements.BackContinuation | HaJS/HaJSElements.cs:193-203 | defines the back/next continuation: `if (mode == 0)`, `{`, the status set back to the previous one, `action(1,0,0);`, `return;`, `}` |
| Elements.DeclineContinuation | HaJS/HaJSElements.cs:234-244 | defines the yes/no continuation: `if (mode == 0)`, `{`, the Ok call of the no text, the end call, `return;`, `}` |
| StatusContext.Assign | HaJS/HaJSCompiler.cs:344 | the element's context gains every incoming status, loses none it had, and gains nothing else |
| StatusContext.AssignStatusContext | HaJS/HaJSCompiler.cs:341-373 | the in-place pass gives exactly `Assign`'s annotated tree and exit context |
| StatusContext.ParallelFork | HaJS/HaJSCompiler.cs:356-367 | each child of a parallel element is annotated from the same context; the exit is exactly the union of the children's exits, empty without children |
| StatusContext.SerialCompose | HaJS/HaJSCompiler.cs:368-371 | serial children thread one context: the second run starts from the first run's exit |
| StatusContext.SuspendResets | HaJS/HaJSCompiler.cs:347-351 | a message's exit and its children's annotation do not depend on the incoming context; a message exits with exactly its status; every option of an options message is reachable from its status |
| StatusContext.ExitDistributes | HaJS/HaJSCompiler.cs:341-373 | the exit context of a union of incoming contexts is the union of the exits |
| StatusContext.ExitBounded | HaJS/HaJSCompiler.cs:341-373 | an element exits only with incoming statuses or statuses of its own messages |
| StatusContext.ContextsNonEmpty | HaJS/HaJSCompiler.cs:341-373 | from a non-empty context, and with no childless switch or options, every element's context and the exit are non-empty |
| StatusContext.ShapePreserved | HaJS/HaJSCompiler.cs:341-373 | the pass changes status contexts only: kinds, texts, statuses and children stay |
| SceneBuilder.GetFirstTag | HaJS/HaJSCompiler.cs:118-125 | a prefix of the markup ending at its first `>`, or empty when there is no `>` |
| SceneBuilder.RunCloses | HaJS/HaJSCompiler.cs:127-247 | building tag by tag into a retargeted list fails exactly when the nested reading fails, with the same error; otherwise it leaves the nested tree and the same next status |
| SceneBuilder.BuildFromEmpty | HaJS/HaJSCompiler.cs:387-388 | from an empty list, the list ends as exactly the elements the nested reading builds |
| SceneBuilder.RootTarget | HaJS/HaJSCompiler.cs:229-230 | a root element tag leaves a one-element list; a root `assert` leaves the builder holding the empty condition case |
| SceneBuilder.AssertSwitchIds | HaJS/HaJSCompiler.cs:218-231 | an assert's switch carries the statuses of the guarded elements and of its Ok message |
| SceneBuilder.BuildNodeIds | HaJS/HaJSElements.cs:114-117 | the messages built from a tag carry exactly the statuses from the first free one up to the next free one, each once |
| SceneBuilder.BuildSeqIds | HaJS/HaJSCompiler.cs:36-40 | the messages built from sibling tags carry exactly the statuses handed out meanwhile, each once |
| SceneBuilder.StatusesDistinct | HaJS/HaJSCompiler.cs:36-40 | no two messages of a built scene share a status, and the statuses are exactly next, next+1, … up to the next free one |
| SceneBuilder.BuildNode | HaJS/HaJSCompiler.cs:127-247 | defines the element built from one tag, with the next free status; unknown styles and tags are errors |
| SceneBuilder.BuildSeq | HaJS/HaJSCompiler.cs:135-139 | defines the elements built from sibling tags in order, threading the next free status |
| SceneBuilder.Run | HaJS/HaJSCompiler.cs:127-247 | defines the list-retargeting reading the source performs, tag by tag, against which `RunCloses` states `BuildSeq` |
| Dispatch.GuardTests | HaJS/HaJSCompiler.cs:412 | a guard tests exactly the statuses of its context, in the order enumerated: split at the JavaScript or-operator it gives back one `status == N` test per status |
| Text.SplitJoin | HaJS/HaJSCompiler.cs:412 | splitting an `Aggregate` join on its separator gives back the pieces, when no piece holds the separator's second character and that character differs from its first |
| Dispatch.ScriptBlock | HaJS/HaJSCompiler.cs:395-419 | every context's buffer appears verbatim in the script, inside the braces of the block guarded by its statuses, after the blocks of the contexts met before it |
| Dispatch.Preamble | HaJS/HaJSCompiler.cs:395-407 | defines the script's head: the generation comment, one `importPackage` per dependency, the status variable, `start`, and the opening of `action` |
| Dispatch.Block | HaJS/HaJSCompiler.cs:410-414 | defines one dispatch block: the guard line, `{`, the buffer text, `}` |
| Dispatch.Script | HaJS/HaJSCompiler.cs:394-419 | defines the whole script: the head, one block per context in order, the closing braces |
| HaJSCompiler.Enumerate | HaJS/HaJSCompiler.cs:397 | enumerating a hash set lists each element once and nothing else |
| HaJSCompiler.SuspendLines | HaJS/HaJSCompiler.cs:311-318 | a message writes `status = N;` first and `return;` last, with the dialogue call second; it has four lines exactly for an Ok message; a missing dialogue feature is an error |
| HaJSCompiler.DialogCall | HaJS/HaJSElements.cs:149-279 | defines a message's dialogue call: its feature compiled on the quoted text (for options, the full options text); an unknown feature or a non-option child is an error |
| HaJSCompiler.MainElement | HaJS/HaJSCompiler.cs:386-388 | defines the main element: the first of the list the scene tag is built into; an empty list is an error |
| HaJSCompiler.BlockText | HaJS/HaJSCompiler.cs:293-296 | defines a block: the header line, `{`, what was written one level deeper, `}`, the braces at the header's level |
| HaJSCompiler.BlocksText | HaJS/HaJSCompiler.cs:290-297 | defines one block per header, in order |
| HaJSCompiler.ArmHeader | HaJS/HaJSCompiler.cs:327 | defines the header of option arm i: `if (selection == 0)` for the first, `else if (selection == i)` after |
| HaJSCompiler.CaseHeaders | HaJS/HaJSCompiler.cs:292-293 | defines the headers of a switch's cases: each case's `CaseHeader`, the first one opening with `if` |
| HaJSCompiler.Wrote | HaJS/HaJSCompiler.cs:284-339 | defines what an element writes into its own context's buffer, by kind: a switch its case blocks; a command exactly its line; a message its suspend lines first; a serial element growth |
| HaJSCompiler.DepsOf | HaJS/HaJSCompiler.cs:284-339 | defines the dependencies compiling an element records: a command's feature, the switch feature for every case but the default, a message's dialogue feature, `special_End` for an Ok message, `dlg_Ok` and `special_End` for a yes/no message, and those of the children |
| HaJSCompiler.PreviousFound | HaJS/HaJSElements.cs:174-191 | defines when the previous status is found: the message is among its parent's children and the message before it, if any, has a non-empty context |
| HaJSCompiler.PostCompiles | HaJS/HaJSElements.cs:193-244 | defines when `PostCompile` succeeds: a back/next message has a parent in which its previous status is found; a yes/no message finds `dlg_Ok` and `special_End` |
| HaJSCompiler.Compilable | HaJS/HaJSCompiler.cs:284-339 | defines when compiling an element succeeds: every child of a switch is a case, every message's suspend lines compile and its `PostCompile` succeeds, and every child compiles |
| HaJSCompiler.ReachableKeys | HaJS/HaJSCompiler.cs:410-412 | when every element has a non-empty context, no context a compile meets is empty |
| HaJSCompiler.NoEmptyContext | HaJS/HaJSCompiler.cs:392-412 | a scene with no childless switch or options, annotated from `{-1}`, meets no empty context, so its script never fails on an empty guard |
| HaJSCompiler.DepsOfAssigned | HaJS/HaJSCompiler.cs:392-393 | assigning status contexts does not change the dependencies a tree records |
| HaJSCompiler.BlockWritten | HaJS/IndentedStringBuilder.cs:31-57 | a header line, `Enter`, anything written one level deeper, and `Leave` add exactly a `BlockText` holding what was written inside |
| HaJSCompiler.Compiler.constructor | HaJS/HaJSCompiler.cs:19-24 | a new compiler has no dependencies, no messages, no contexts and no buffers |
| HaJSCompiler.Compiler.RegisterMessage | HaJS/HaJSCompiler.cs:36-40 | a message's id is the number of messages registered before it; the count goes up by one |
| HaJSCompiler.Compiler.SubstituteTemplate | HaJS/HaJSFeatures.cs:32-49 | replacing `$.`, `$x`, `$y`, `$z` in turn gives the template's compiled text |
| HaJSCompiler.Compiler.CompileFeature | HaJS/HaJSFeatures.cs:26-74 | records exactly the feature's dependency; returns the compiled template, as `left == right` for a switch feature |
| HaJSCompiler.Compiler.CompileFeatureNamed | HaJS/HaJSCompiler.cs:72-75 | an unregistered name is an error that records nothing; otherwise the feature's compiled text and its dependency recorded |
| HaJSCompiler.Compiler.GetLeft | HaJS/HaJSFeatures.cs:76-88 | records the dependency; returns the left side with `$.` substituted |
| HaJSCompiler.Compiler.CompileCase | HaJS/HaJSElements.cs:74-91 | writes the case header of `CaseHeader`; records the switch feature's dependency unless it is the default case |
| HaJSCompiler.Compiler.CompareHashSets | HaJS/HaJSCompiler.cs:249-263 | true exactly when the two sets are equal |
| HaJSCompiler.Compiler.GetStringBuilderByContext | HaJS/HaJSCompiler.cs:265-277 | gives the buffer of the equal context; a new context is appended last with a fresh buffer; contexts never hold two equal sets; nothing else changes |
| HaJSCompiler.Compiler.WriteStatusChange | HaJS/HaJSCompiler.cs:279-282 | appends the line `status = N;` to that buffer only |
| HaJSCompiler.Compiler.CompileMessage | HaJS/HaJSElements.cs:156-280 | the dialogue call of the message's feature on the quoted text (for options, the full options text); records its dependency; errors record nothing |
| HaJSCompiler.Compiler.PostCompile | HaJS/HaJSElements.cs:193-244 | a back/next message leaves the back continuation with its previous status; yes/no leaves the decline continuation (`dlg_Ok` of the no text, `special_End`, `return;`); other messages leave none; the dependencies gain exactly those of `dlg_Ok` and `special_End` for yes/no (only `dlg_Ok`'s when `special_End` is missing) and nothing otherwise; it succeeds exactly when `PostCompiles` holds |
| HaJSCompiler.Compiler.EmitSuspend | HaJS/HaJSCompiler.cs:311-318 | appends to the message's buffer exactly the lines of `SuspendLines`, or fails with its error; on success the dependencies gain exactly the dialogue feature's and, for an Ok message, `special_End`'s; on failure only the dialogue feature's, when its call was compiled |
| HaJSCompiler.Compiler.WriteContinuation | HaJS/HaJSCompiler.cs:334-337 | the continuation's lines go to the buffer of `{N}`, created when new |
| HaJSCompiler.Compiler.CompileJSRecursive | HaJS/HaJSCompiler.cs:284-339 | the element's context is met (first, when no context was met before); buffers only grow; it succeeds exactly when the element is `Compilable` under its parent; on success every level returns to where it was, the contexts met are exactly the element's contexts and resume contexts, the buffer of the element's context gains what `Wrote` says of its kind, and the dependencies gain exactly `DepsOf` the element |
| HaJSCompiler.Compiler.CompileBody | HaJS/HaJSCompiler.cs:287-338 | picks the code of the element by its kind; it succeeds exactly when the element is `Compilable` under its parent; on success the contexts met are its resume context and its children's contexts, its buffer gains what `Wrote` says of its kind, and the dependencies gain exactly `DepsOf` the element |
| HaJSCompiler.Compiler.CompileSwitch | HaJS/HaJSCompiler.cs:287-298 | it succeeds exactly when every child is a case and is `Compilable` under the switch; on success the buffer gains one block per child, in order, under the headers `CaseHeaders`, the contexts met are the children's, and the dependencies gain those of every case header and every case |
| HaJSCompiler.Compiler.CompileCaseAt | HaJS/HaJSCompiler.cs:290-297 | a child that is not a case fails with `UnexpectedChild`; a case succeeds exactly when it is `Compilable` under the switch; on success the buffer gains one block under the case header, holding the text written one level deeper while the case compiled, the contexts met are the case's, and the dependencies gain those of its header and of the case |
| HaJSCompiler.Compiler.CompileSerial | HaJS/HaJSCompiler.cs:299-302 | each child is compiled in order and buffers only grow; it succeeds exactly when every child is `Compilable` under the element; on success levels return, the contexts met are exactly those of the children, and the dependencies gain exactly the children's |
| HaJSCompiler.Compiler.CompileSuspend | HaJS/HaJSCompiler.cs:308-338 | a failure of `SuspendLines` is the result; it succeeds exactly when the message is `Compilable` under its parent; a back/next message without a parent fails with `NoParent`, and a yes/no message whose suspend lines compiled fails on the unknown feature `dlg_Ok` when that feature is missing; on success the message's buffer begins with the lines of `SuspendLines`, the contexts met are the resume context and, for options, the options' contexts, and the dependencies gain exactly `DepsOf` the message |
| HaJSCompiler.Compiler.CompileResume | HaJS/HaJSCompiler.cs:319-337 | after a message the buffer of `{N}` gains exactly the continuation it is given (the text `PostCompile` left); it succeeds exactly when, for an options message, every option is `Compilable`; on success an options message has one arm per option, and the dependencies gain exactly the options' (nothing for a message) |
| HaJSCompiler.Compiler.CompileOptionArms | HaJS/HaJSCompiler.cs:320-333 | it succeeds exactly when every option is `Compilable` under the message; on success the buffer gains one block per option, in order, under `if (selection == 0)`, `else if (selection == i)`, the contexts met are the options', and the dependencies gain exactly the options' |
| HaJSCompiler.Compiler.CompileBlock | HaJS/HaJSCompiler.cs:293-296 | it succeeds exactly when the child is `Compilable` under its parent; on success the buffer gains exactly a `BlockText` with that header, holding the text written one level deeper while the child compiled, the contexts met are the child's, and the dependencies gain exactly the child's |
| HaJSCompiler.Compiler.BuildElementRecursive | HaJS/HaJSCompiler.cs:127-247 | building a tag into the current list ends with `Run`'s error, or lets `Run` go on from the new list with the new message count |
| HaJSCompiler.Compiler.BuildElement | HaJS/HaJSCompiler.cs:131-245 | builds exactly `BuildNode`'s element, taking message ids as it goes; unknown styles and tags are errors |
| HaJSCompiler.Compiler.BuildChildren | HaJS/HaJSCompiler.cs:135-139 | building children one by one into the element's list gives `BuildSeq`'s elements and next status |
| HaJSCompiler.Compiler.WriteDispatch | HaJS/HaJSCompiler.cs:410-416 | one block per context, in the order met, guarded by an enumeration of that context; an empty context is an error |
| HaJSCompiler.Compiler.AssembleScript | HaJS/HaJSCompiler.cs:395-419 | the script is the header, the imports, the prologue, the dispatch blocks and the closing braces; it fails with `EmptyGuard` exactly when some context met is empty |
| HaJSCompiler.Compiler.BuildMain | HaJS/HaJSCompiler.cs:387-389 | the main element is the first element of the list the scene tag was built into; an empty list is an error |
| HaJSCompiler.Compiler.CompileInternal | HaJS/HaJSCompiler.cs:375-420 | a build error is the result; the compilation succeeds exactly when the main element builds, is `Compilable` once annotated from `{-1}`, and no context met is empty; on success the contexts met are those of the annotated main element, `-1` is in the first context, the dependencies are exactly `DepsOf` the main element, and the script has one import per such dependency and one block per context |
| HaJSCompiler.Compiler.CompileScene | HaJS/HaJSCompiler.cs:390-419 | succeeds exactly when the main element annotated from `{-1}` is `Compilable` and no context met is empty; on success the contexts met are the annotated element's, the dependencies gain exactly `DepsOf` the main element, and the script is assembled with every dependency and every context enumerated |
| ArbitraryJSTranslator.CallAt | HaJS/ArbitraryJSTranslator.cs:16-24 | defines the call at a `$`: none without a `(` after it, a `)` after that, and a registered feature name between; otherwise its name, its arguments and the position of its `)`, which lies after the `$` |
| ArbitraryJSTranslator.Scan | HaJS/ArbitraryJSTranslator.cs:13-37 | defines the translation from a position: the text up to the next `$` kept, then the step at that `$` |
| ArbitraryJSTranslator.AtDollar | HaJS/ArbitraryJSTranslator.cs:16-33 | defines the step at a `$`: the call replaced by its compiled feature, with its dependency, or the `$` kept |
| ArbitraryJSTranslator.Tail | HaJS/ArbitraryJSTranslator.cs:35-37 | defines how the source goes on after a replacement: done with at most one character left, else that character copied and the search resumed after it |
| ArbitraryJSTranslator.Translation | HaJS/ArbitraryJSTranslator.cs:11-40 | defines the translation of a whole text: its text and the dependencies recorded |
| ArbitraryJSTranslator.CallSpan | HaJS/ArbitraryJSTranslator.cs:16-23 | a call runs from the `$` to the first `)` after the first `(`; its name is the text between `$` and `(`; its arguments are the comma-separated non-empty pieces inside |
| ArbitraryJSTranslator.ExtraArgumentsIgnored | HaJS/ArbitraryJSTranslator.cs:27 | only the first three arguments are passed; further ones change nothing |
| ArbitraryJSTranslator.NoDollarUnchanged | HaJS/ArbitraryJSTranslator.cs:13-14 | a text without `$` is returned unchanged and compiles nothing |
| ArbitraryJSTranslator.PrefixKept | HaJS/ArbitraryJSTranslator.cs:28-29 | the text before the first `$` is kept as it is |
| ArbitraryJSTranslator.ScanShift | HaJS/ArbitraryJSTranslator.cs:35-37 | the scan depends only on the text from its position on |
| ArbitraryJSTranslator.AfterCallAsWritten | HaJS/ArbitraryJSTranslator.cs:30-37 | as written, the character right after a replaced call is copied without being looked at |
| ArbitraryJSTranslator.AdjacentCallsAsWritten | HaJS/ArbitraryJSTranslator.cs:30-37 | as written, `$f()$f()` becomes `F$f()` |
| ArbitraryJSTranslator.AfterCallRescan | HaJS/ArbitraryJSTranslator.cs:30-37 | resuming right after the inserted text, a call directly after a call is translated like any other text |
| ArbitraryJSTranslator.AdjacentCallsRescan | HaJS/ArbitraryJSTranslator.cs:30-37 | resuming right after the inserted text, `$f()$f()` becomes `FF` |
| ArbitraryJSTranslator.ReplaceAt | HaJS/ArbitraryJSTranslator.cs:16-30 | at a `$` that starts a call, the span is replaced by the compiled feature and the position moves to its end, with the dependency recorded; otherwise nothing changes |
| ArbitraryJSTranslator.Translate | HaJS/ArbitraryJSTranslator.cs:11-40 | the in-place rewrite gives exactly the scan's text over the input, and records exactly the dependencies of the features it compiled |
| ArbitraryJSTranslator.TranslateRescan | HaJS/ArbitraryJSTranslator.cs:11-40 | the same in-place rewrite with the search resuming right after the inserted text gives exactly the corrected scan's text, and records exactly the dependencies of the features it compiled |

## Left out

- XML and files are not modelled. This covers reading the configuration and the scene (`GetMainElementFromFile`, `ParseConfig`, the resource section of `CompileInternal`) and writing the output file. The scene is an `Elem` tree and the configuration a `Config` value: features, resources and the manager reference.
- `compiler.manager` is declared in no source file of the model; it is a field of `Config`.
- The generation date is a parameter, not the system clock.
- Hash-set enumeration order is not modelled. Dependencies, status contexts and `ElementAt(0)` are modelled as "some order" or "some element". The script is stated for the orders `CompileInternal` returns.
- The compiler's list of message objects is a counter: only its length (the next id) is used.
- `GetPreviousStatus` finds the message by its status, not by reference equality. Statuses are distinct (`SceneBuilder.StatusesDistinct`).
- Elements are values, and `statusContext` is updated by returning a new tree. In-place mutation and aliasing of element objects are not captured.
- The compiler's buffers are `Writer` values in a sequence parallel to `contexts`, not `IndentedStringBuilder` objects in a dictionary. The class is proved against the same functions.
- Exceptions are `Result` errors: unknown feature, failed casts, unknown style or tag, empty main list, empty context.
- `null` strings are modelled as follows:
  - A missing `rsrc` resource is the empty text.
  - A missing argument is removed by `Replace`.
  - `null` arguments of `ElementAtOrDefault` are `None`.
- `IndexOf` on one-character strings is an ordinal search. The culture-sensitive comparison of .NET is not modelled.
- `Environment.NewLine` is CRLF.
- Integers are unbounded, so the 32-bit wrap of the message counter is not modelled.
- Reuse of one compiler for several compilations is not modelled. `CompileInternal` clears only the dependencies, as the source does; the other fields are kept.
- The loop body of `Translate` is split into two methods, `ReplaceAt` and `Step`; that of `TranslateRescan` into `ReplaceAt` and `RescanStep`.
- `MainForm.cs` (the user interface) is not part of this model.
- HaJSCompiler.Compiler.CompileJSRecursive: states the text written into the buffer of the element's own context (`Wrote`), not the text its children write into the buffers of other contexts. That would need a function giving every buffer's text after a whole compile; the pieces are stated by `Wrote`, `CompileResume` and `WriteContinuation`.
- HaJSCompiler.Compiler.CompileBody: same as `CompileJSRecursive`.
- HaJSCompiler.Compiler.CompileSerial: states that buffers only grow, not their text, for the same reason: the children of a serial element may write into any buffer.
- HaJSCompiler.Compiler.CompileSwitch: the bodies of the case blocks are stated as some text, not as the cases' own compiled code, for the same reason.
- HaJSCompiler.Compiler.CompileOptionArms: the bodies of the arms are stated as some text, as for `CompileSwitch`.
- HaJSCompiler.Compiler.CompileCaseAt: the block's body is stated as the text written one level deeper while the case compiled, not as the case's own code, for the same reason: the case's children may write into other buffers, and this buffer is the case's own only when its context is the switch's.
- HaJSCompiler.Compiler.CompileBlock: the block's body is stated as the text written one level deeper while the child compiled, as for `CompileCaseAt`.
- HaJSCompiler.Compiler.CompileSuspend: states that the message's buffer begins with its suspend lines; what follows in that buffer is stated by `CompileResume` when the continuation goes to the same buffer.

## Findings

| source | as written | input that shows it | evidently intended | confidence | as-written member | corrected member |
|---|---|---|---|---|---|---|
| HaJS/ArbitraryJSTranslator.cs:30-37 | after a replacement, `i` points just past the inserted text, and the next search starts at `i + 1`, so the character right after a call is never examined | feature `f` with template `F`, input `$f()$f()`: the result is `F$f()` | every call in the input is replaced, since inserted text is not rescanned: `FF` | not executed | ArbitraryJSTranslator.AdjacentCallsAsWritten | ArbitraryJSTranslator.AdjacentCallsRescan |

`Translate` models the code as written. The corrected reading is `Translation(cfg, s, true)`, where the scan resumes right after the inserted text. For it, `AfterCallRescan` proves that a call directly after a call is translated like any other text. `TranslateRescan` is the in-place loop with that one change: after a replacement the search for `$` starts at the end of the inserted text. It is proved to compute `Translation(cfg, s, true)`. No other part of the model calls the translator.
