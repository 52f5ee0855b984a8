# USKit, modelled in Dafny

USKit is a dialogue orchestrator: a request walks over the nodes of a flow, each node recalls backend
services, the responses are gathered in a `backend` map, ranked and turned into an output, and the outputs
are merged into the response. This project models the parts of it that decide what the response is, and
proves what they keep. `dafny verify dfyconfig.toml` checks everything.

The modules follow the program.

- `Recall`, `Answers`: the asynchronous recall inside a node. Every service has a context with a `backend` map,
  kept as the list of its members; the callback of a call appends the response, copies the map to the services
  of the next flow, recalls them, waits, and merges their maps back. All callbacks interleave, action by action.
- `CallIds`, `GlobalWalk`: the table of call ids that a request shares, the registration loop of the backend
  engine, and the global quit, as classes and as a transition system of concurrent engine runs; and the walk
  of `Walk` threaded through that table, which bounds it.
- `Cancel`: the ALL, PRIORITY and HIERACHY closures over a batch of calls.
- `Json`, `Merge`, `Pointer`, `Paths`, `Writes`, `KeyMap`, `KeyReads`, `KeyDepth`: JSON values with ordered members, the deep
  merge, JSON Pointer (RFC 6901, sections 3 to 5) with the creation of containers, sequences of writes, and the
  key-expression map that sorts key paths by depth before it writes them.
- `Syntax`, `Lexer`, `Parser`, `Grammar`, `Builds`, `Traces`, `Operators`, `RoundTrip`, `Language`: the expression language. The
  parser is a shift-reduce machine; `Grammar` has the productions with their actions and the derivations that the
  precedence declarations leave, and the machine is proved to accept exactly those; `Operators` says on tokens
  what that means. The lexer takes longest matches.
- `SetOps`: the array operators `-`, `|` and `&`.
- `Scope`, `Branch`, `Walk`, `NodeOutputs`: variable scopes, the choice among output blocks, intervention jumps,
  the loop over flow nodes, and what each node contributes by its configuration.
- `Rank`, `Sorting`: feature vectors, their comparison, and the rank rule.
- `Intervene`, `RuleOrder`, `Deliver`, `Replace`: the index of intervention rules, the filter of delivered services, and
  string replacement. `Numbers`, `Options` and `Seqs` are helpers.

Code that updates objects in place is a class with methods (`CallIdsVec`, `RpcClosure`, `KEMap`,
`RankConfig`, `FlowInterveneConfig`, `ExpressionContext`, `Text`, `Slot` for a JSON value held by reference);
each method is proved against a function of the old state, and lemmas say what that function means.
Concurrent protocols are transition systems whose runs are arbitrary sequences of steps.

Where a promise fails, a lemma gives an input, and the promise is proved with its exact condition.

- The call ids of a dynamic HTTP service are recorded after its calls are issued, so a quit in between misses
  them (`CallIds.DynamicCallEscapes`; `CallIds.QuitIsSafeExactly`).
- A service that has an entry from an earlier node can lose its answer to a copy of that entry that is merged
  later (`Answers.StaleEntryWins`; `Answers.AlwaysReadsExactly`).
- After a quit a recall on a free slot reports success and records nothing, so recalls are bounded by the number
  of services before it, and after it only when no slot is free (`GlobalWalk.UnboundedExactly`).
- `&` counts repeated elements of the right operand as common (`SetOps.IntersectionMeaning`).
- Deep merge is not associative in general (`Merge.MergeAssociative`).
- A chain of more than two calls and a dictionary with a repeated key do not survive parsing, and `||` is
  never parsed (`Language.TextRoundTripExactly`).
- A column with nulls in some candidates only can make the comparison intransitive
  (`Rank.MixedNullsBreakOrder`; `Rank.WeakOrderExactly`).
- With a stray slash, or two root keys, the comparison of key paths misses the depth of a path; and a name
  after an index at the same place makes an object of the array (`KeyMap.StraySlashLoses`,
  `KeyDepth.ArrayIsLost`; `KeyDepth.PathsHoldExactly`).
- A pattern that rules of both kinds use reorders the index, and one that ends in the search suffix can give its
  target to another (`Intervene.SharedPatternReorders`, `RuleOrder.SuffixTakesTarget`;
  `RuleOrder.IndexAgreesExactly`).
- A classifier that answers one string for all classes judges the third class and later ones by null, since
  the copy that pads the answer is moved out by its first use (`Deliver.OneStringDropsLater`;
  `Deliver.OneStringStandsExactly`).
- In a flow node a block runs on after a failure: one whose output fails is still chosen, without an output, and a
  condition that fails ends the node with an error (`Branch.FailedOutput`, `Branch.FailedCondition`).
- Intervention rules that lead back to a node loop for ever (`Walk.JumpsEndExactly`), and so does the
  replacement of an empty pattern (`Replace.LoopEndsExactly`).

Where code and documentation disagree the model follows the code: `src/utils.h:43` says that merging goes one
level deep, the code recurses; `docs/expression.md:25` offers `||` as the logical operator, the lexer reads it
as `|`; `docs/expression.md:51` promises null for an undefined variable, the code reports an error.

Expression evaluation, the regular expression engine, the encoding of array elements and the responses of
services are parameters of the model. Numbers in JSON are reals.

## Model

| member | source | states |
|---|---|---|
| Answers.RecallLosesNothing | src/controller_closure.cpp:128-336 | when no recalled service has an entry from before: for every interleaving of callbacks, copies, recalls and merges over a tree of recalls, the finished node has the starting map plus exactly the response of every service that was reached and answered |
| Recall.ReachableInv | src/controller_closure.cpp:225-336 | after any run, where each process stands fixes the members of its map and how far the services it recalls are |
| Recall.NextInv | src/controller_closure.cpp:225-336 | each atomic action of any process keeps that invariant for all the others |
| Answers.AlwaysReadsExactly | src/policy/flow/recurrent_policy.cpp:77-90 | for a tree of recalls and a set of names: for all starting maps with exactly these names, all responses and all finished runs, every service that was reached and answered reads as its response, if and only if no recalled service has one of the names |
| Answers.StaleEntryWins | src/utils.cpp:80-84 | a run in which the answer of a service is lost: a copy of its entry from an earlier node is merged after it |
| Recall.NamesMerged | src/utils.cpp:66-89 | merging one map into another gives the names of both |
| Recall.CanFinish | src/backend_engine.cpp:317-324 | every run can be continued to one that finishes the node |
| Answers.MergeAgrees | src/policy/flow/recurrent_policy.cpp:77-90 | merging maps that agree with one full map loses nothing and changes no value, whatever the order of the merges |
| Answers.ResponseIsNewMember | src/controller_closure.cpp:153-162 | from such a start a response is only ever added under a name that the map does not have, so appending makes no duplicate |
| Answers.AnswersAboveAreSeen | src/controller_closure.cpp:241-268 | from such a start: from the moment its call is issued, the map of a service reads as its answer for every service above it |
| Answers.BothLevelsAnswer | src/controller_closure.cpp:225-345 | every finished run of a node whose service goes on to another flow reads both answers |
| Recall.EveryRunEnds | src/controller_closure.cpp:241-345 | every run is shorter than a number fixed by the configuration |
| Recall.SomeoneCanAct | src/backend_engine.cpp:317-324 | a process that has been started and not finished, or one that it waits for, can act |
| Recall.NodeFinishes | src/backend_engine.cpp:317-324 | a run that cannot go on has finished the node: joining never deadlocks |
| CallIds.CallIdsVec.constructor | src/dynamic_config.cpp:714-722 | a table with one free single slot and one empty list for each service, not quitting |
| CallIds.CallIdsVec.SetCallId | src/dynamic_config.cpp:729-747 | the whole new table and the result: -1 for a bad or taken slot, 1 when quitting, else recorded |
| CallIds.CallIdsVec.SetCallIds | src/dynamic_config.cpp:749-767 | the same for a list of ids |
| CallIds.CallIdsVec.QuitFlow | src/dynamic_config.cpp:775-793 | exactly the recorded ids are cancelled in addition, and the flag is up |
| CallIds.SetOneRecords | src/dynamic_config.cpp:729-747 | a recorded id joins the recorded set; every other outcome leaves the set, and a quitting table never changes |
| CallIds.SetManyRecords | src/dynamic_config.cpp:749-767 | the same for a list of ids |
| CallIds.RegisterServices | src/backend_engine.cpp:235-268 | the registration loop leaves the table, and gives the result, of recording one service after the other up to the first failure |
| CallIds.RegisterRecordsEach | src/backend_engine.cpp:255-268 | when the loop succeeds, the flow was not quitting and each service has its id in a slot that was free |
| CallIds.RegisteringIsTheLoop | src/backend_engine.cpp:235-268 | left alone, an engine run of the transition system leaves the table, and comes back, exactly as the loop does |
| CallIds.NextKeepsInv | src/backend_engine.cpp:255-316 | every step keeps: recorded covers issued, and once quitting, cancelled is recorded |
| CallIds.ReachableInv | src/backend_engine.cpp:189-345 | the same after any interleaving of recalls, registrations, issues and quits |
| CallIds.NoCallEscapesQuit | src/dynamic_config.cpp:775-793 | once the flow is quitting, the cancelled ids are exactly the recorded ones and every issued call of a non-dynamic service is one of them |
| CallIds.NothingRecordedAfterQuit | src/dynamic_config.cpp:740-743 | after a quit the table never changes, and whatever is issued later was cancelled by it |
| CallIds.MissedCallsAreDynamic | src/backend_engine.cpp:292-316 | a call that runs on after a quit was issued for a dynamic service |
| CallIds.QuitIsSafeExactly | src/backend_engine.cpp:270-316 | a quit that strikes a reachable state leaves no call running, whatever happens afterwards, if and only if every dynamic call issued is recorded and so are the calls of every dynamic service that a run past its registrations has still to build |
| CallIds.DynamicCallEscapes | src/backend_engine.cpp:292-316 | such a run exists: a dynamic service issues, the flow quits, the ids are recorded too late |
| GlobalWalk.WalkIsBounded | src/policy/flow/default_policy.cpp:197-216 | before the flow quits, of the nodes that `inner_run` visits without an error at most as many recall a service as there are services, whatever the `next` of each node is, whatever each recalls and whatever other runs do in between; nodes that recall nothing are free |
| GlobalWalk.RecallsBeforeQuit | src/dynamic_config.cpp:729-747 | before a quit at most as many recalls of at least one service come back without an error as there are services, over every interleaving |
| GlobalWalk.SlotWrittenOnce | src/dynamic_config.cpp:736-746 | a taken slot keeps its id for the rest of the request |
| GlobalWalk.RegisterTakes | src/backend_engine.cpp:255-268 | a registration that succeeds lowers the free slots by the number of its services |
| GlobalWalk.ReachableBalanced | src/policy/flow/global_policy.cpp:60-63 | in every reachable state as many slots are taken as the engine runs have recorded ids, in a table of fixed length |
| GlobalWalk.UnboundedExactly | src/dynamic_config.cpp:736-743 | while the flow quits, recalls that come back without an error can go on without limit if and only if some slot is free |
| Cancel.RpcClosure.CancelOne | src/controller_closure.cpp:66-82 | the one call is cancelled under ALL, under PRIORITY up to the own priority, under HIERACHY for the same priority, and not otherwise |
| Cancel.RpcClosure.Run | src/controller_closure.cpp:52-64 | a failure cancels nothing; a success cancels exactly the ids of the batch with any, at most the own, the own, or no priority, by the order |
| Cancel.NextKeepsInv | src/controller_closure.cpp:52-82 | every step keeps: cancelled calls are covered by a success, swept covered calls are cancelled; finished calls keep their outcome |
| Cancel.CancellationJustified | src/controller_closure.cpp:66-82 | over every run of a batch a cancelled call is covered by one that succeeded |
| Cancel.CancelledBySuccess | src/controller_closure.cpp:66-82 | over every run a cancelled call has a success beside it: any under ALL, one of at least its priority under PRIORITY, one of its own under HIERACHY; none is cancelled without an order |
| Cancel.CancelledExactly | src/controller_closure.cpp:52-82 | and once the closures have run exactly those calls are cancelled |
| Cancel.FinishedStays | src/controller_closure.cpp:52-64 | no later step changes the outcome of a finished call |
| Cancel.SomeoneSucceeds | src/backend_engine.cpp:83-126 | in a finished batch each call that did not fail by itself has a success beside it: its own, or under the order one of any, of at least its, or of its own priority |
| Cancel.NoCoveredCallPending | src/backend_engine.cpp:117-126 | when the closures have run, a call of a priority that a success cancels has been cancelled, and is pending only while that cancellation is still to take effect |
| Merge.MergeJsonObjects | src/utils.cpp:60-92 | in place: two objects become the merged member list, in order; anything else is refused and left alone |
| Merge.MergeView | src/utils.cpp:66-89 | on objects without duplicate names the list operation is the recursive merge of maps, and makes no duplicates |
| Merge.WhereMembersGo | src/utils.cpp:70-89 | a replaced member goes to the end, a merged one keeps its place |
| Merge.MergeAtPath | src/utils.cpp:66-89 | at every path: the second value merged over the first; the first is hidden exactly where a non-object of either operand masks it |
| Merge.MergeIdempotent | src/utils.cpp:66-89 | merging the same second operand twice is merging it once |
| Merge.CoveredIsAbsorbed | src/utils.cpp:66-89 | merging `c` into `a` gives `c` if and only if `c` has every member of `a` at every depth |
| Merge.MergeAssociative | src/utils.cpp:66-89 | associative if and only if no non-object of the middle operand wipes out a member of the first that the third does not bring back |
| Pointer.JsonSetValueByPath | src/utils.cpp:32-54 | the document with the value written at the normalised path, missing containers created; an invalid path gives -1 after the value has replaced the whole document |
| Pointer.GetAfterSet | src/function/builtin.cpp:46-89 | what was written at a path is what is read there, in any document; only `-` cannot be read |
| Pointer.UnescapeEscape | src/utils.cpp:47-47 | a token written with `~0` and `~1` reads as itself |
| Pointer.TokensOfText | src/utils.cpp:32-47 | any sequence of names can be written as a path; only the single empty name cannot |
| Pointer.IndexExactly | src/function/builtin.cpp:72-73 | below the largest size the indices are exactly the decimal numerals without leading zeros |
| Pointer.SetView | src/utils.cpp:47-47 | a write by names is the write on the tree, whatever the order of members |
| Pointer.SetReadsBack | src/utils.cpp:47-47 | at and above the written path the tree holds the old value with the new one inside |
| Pointer.SetElsewhere | src/utils.cpp:47-47 | a write at a path that is neither above nor below leaves a value alone |
| Pointer.SetCommutes | src/utils.cpp:47-47 | writes at paths apart from each other commute |
| Pointer.IndexOfDigits | src/function/builtin.cpp:72-73 | a printed index below the largest size is read as that index |
| KeyMap.CompareIsRank | src/dynamic_config.cpp:557-576 | from root to leaf the comparison is the strict order of depths, but two root keys precede each other |
| KeyMap.KEMap.Init | src/dynamic_config.cpp:23-49 | fails exactly on a pair without a usable expression; else the first binding of each key and the keys stably sorted by depth |
| KeyMap.FirstBinding | src/dynamic_config.cpp:28-40 | a key that is configured twice has the expression of its first pair |
| KeyMap.KEMap.Run | src/dynamic_config.cpp:65-82 | fails exactly when an expression fails; else the document of the writes in key order, null for an empty map; a key with an invalid path writes the root |
| KeyReads.InitAndRun | src/dynamic_config.cpp:23-82 | in place: succeeds exactly when every pair is usable and the expression of the first pair of each key evaluates; null without pairs; else, for usable keys with different paths, the document reads at every path what the value of the deepest configured path at or above it has, unless a path is configured below |
| KeyReads.ResultExists | src/dynamic_config.cpp:65-82 | there is a document exactly when the expression of the first pair of each key evaluates |
| KeyReads.DocumentReads | src/dynamic_config.cpp:23-82 | the same reading, for all pairs, all values of the expressions and all paths |
| KeyReads.KeyReadsValue | src/dynamic_config.cpp:65-82 | the path of a key below which nothing is configured has the value of the expression of its first pair |
| KeyMap.RankIsDepth | src/dynamic_config.cpp:557-576 | without stray slashes the depth that is compared is the number of reference tokens |
| KeyMap.EachWriteHolds | src/dynamic_config.cpp:65-82 | when no later write is above an earlier one, each path holds its own value under the strictly deeper writes |
| KeyMap.WriteOrderIrrelevant | src/dynamic_config.cpp:42-46 | any two shallow-first orders of the same writes build the same tree |
| KeyMap.EveryPathHolds | src/dynamic_config.cpp:42-46 | whatever the configuration order, each configured path finally holds its own value, changed only by configured paths below it |
| KeyMap.ConfigurationOrderIrrelevant | src/dynamic_config.cpp:42-46 | permuting the configuration does not change the document as a tree |
| KeyDepth.PathsHoldExactly | src/dynamic_config.cpp:557-576 | for keys with different paths of names and indices: in every configuration order and for all values every path holds its own value if and only if each key whose path is above another one is compared as the shallower, and wherever some paths go on with a name and others with an index some name is compared as shallower than all the indices |
| KeyDepth.ArrayIsLost | src/dynamic_config.cpp:42-46 | a name after an index: configured as `a/0`, `a/b` the first path is lost, in the other order it holds |
| Writes.InOrderHeld | src/dynamic_config.cpp:65-82 | when no write is above an earlier one, and no name follows an index where no name came before, each path ends with its own value under the strictly deeper writes, in arrays as in objects |
| Writes.NameLast | src/dynamic_config.cpp:65-82 | a path that goes on with an index, where there was no object, is lost to a later path that goes on with a name |
| Paths.SetBeside | src/utils.cpp:47-47 | a write neither above nor below leaves a value as it is, unless a name makes an object of an array that the value is read through, which loses it |
| Paths.SetReads | src/utils.cpp:47-47 | at and above the written path the document holds the old value with the new one inside, through arrays too |
| KeyDepth.RootsCompare | src/dynamic_config.cpp:564-566 | two root keys with different paths always have one path above the other, so they never satisfy that |
| KeyMap.StraySlashLoses | src/dynamic_config.cpp:557-576 | with a stray slash a configured path is lost: `a/` under a later write of `a` |
| Sorting.Vector.Sort | src/dynamic_config.cpp:42-46 | in place: the elements stably sorted by the comparison |
| Sorting.StableSortedPermutes | src/dynamic_config.cpp:705-705 | sorting permutes |
| Sorting.StableSortedSorts | src/dynamic_config.cpp:705-705 | on a strict weak order no later element precedes an earlier one |
| Sorting.StableSortedStable | src/dynamic_config.cpp:42-46 | equivalent elements keep the order they came in |
| Parser.ParseUnique | src/expression/parser.yy:101-187 | a token sequence has at most one tree |
| Operators.PhraseParses | src/expression/parser.yy:103-141 | on tokens: an expression without parentheses is split at the last of its operators on the earliest line of the precedence declarations, which are written out; `!` binds tighter than all of them, `?:` looser, and what follows the colon belongs to it |
| Operators.TwoOperators | src/expression/parser.yy:104-111 | of two operators the one declared later groups first, and of two on one line the left one |
| Operators.IntegerParsesExactly | src/expression/parser.yy:140-140 | an integer parses, to its value, if and only if it is at most 2147483647 |
| Grammar.DictKeepsFirst | src/expression/parser.yy:179-183 | a dictionary has exactly the entries of the first pair of each key |
| Grammar.ChainKeepsEnds | src/expression/parser.yy:160-163 | a chain keeps its first and its last call |
| Traces.ParsesExactly | src/expression/parser.yy:103-187 | the parser accepts tokens with a tree if and only if the productions derive them, operands binding as the precedence declarations say, and the actions build that tree |
| Traces.StepTraced | src/expression/parser.yy:103-187 | every step of the machine keeps a derivation for each symbol of its stack, of exactly the tokens read |
| Builds.Build | src/expression/parser.yy:103-187 | in every context where an expression may start, the tokens of such a derivation are reduced to its value before the token that follows |
| RoundTrip.WrittenIs | src/expression/parser.yy:103-112 | a printed tree has such a derivation, of the printed tokens, that builds what parsing keeps of the tree |
| RoundTrip.ParseInvertsPrint | src/expression/parser.yy:101-187 | parsing a printed tree gives the tree, less what the actions for chains and dictionaries drop |
| RoundTrip.KeptIsTidy | src/expression/parser.yy:160-183 | nothing is dropped if and only if no chain has more than two calls and no dictionary repeats a key |
| RoundTrip.RoundTripExactly | src/expression/parser.yy:101-187 | a printed tree parses back to itself if and only if it is tidy in that sense |
| Lexer.MatchIsLongest | src/expression/lexer.ll:38-180 | the text taken for a token is matched by a rule, and no longer start of the input is |
| Lexer.MatchToken | src/expression/lexer.ll:38-168 | every token that can be written is the longest match of its own text before a blank |
| Lexer.LexInvertsRender | src/expression/lexer.ll:38-184 | lexing written tokens gives them back, and the end |
| Lexer.NoOrToken | src/expression/lexer.ll:118-120 | no input ever yields the token of `\|\|` |
| Lexer.TwoCharacterTexts | src/expression/lexer.ll:90-120 | the operators of two characters, written out; `\|\|` is read as `\|` |
| Lexer.OperatorTexts | src/expression/lexer.ll:106-144 | the operators of one character |
| Lexer.SignTexts | src/expression/lexer.ll:66-168 | brackets and the other signs |
| Lexer.KeywordTexts | src/expression/lexer.ll:38-48 | the three keywords |
| Language.RunOrFree | src/expression/parser.yy:120-187 | parsing puts no `\|\|` node into a tree whose tokens have none |
| Language.TextRoundTripExactly | src/expression/lexer.ll:38-184 | the text of a tree, lexed and parsed, gives the tree if and only if it has no `\|\|`, no chain of more than two calls and no repeated dictionary key |
| Language.TextParsesExactly | src/expression/lexer.ll:38-184 | a text parses to a tree if and only if the grammar derives that tree from the tokens of the text |
| SetOps.Difference | src/expression/expression.cpp:279-296 | the elements of the left operand whose code is not in the right one and not repeated |
| SetOps.PipeOrAmp | src/expression/expression.cpp:372-400 | `\|`: the new elements of both; `&`: the elements of the right operand seen before |
| SetOps.FreshCodes | src/expression/expression.cpp:279-296 | difference, on codes, is set difference |
| SetOps.FreshDistinct | src/expression/expression.cpp:279-296 | the result of `-` and of `\|` has no code twice |
| SetOps.TakenConcat | src/expression/expression.cpp:372-400 | either operator takes from two lists one after the other: from the first, then from the second with the codes of the first seen |
| SetOps.TakenAt | src/expression/expression.cpp:372-400 | whether the element at a place is emitted depends only on what is before it (`&`: seen on the left or earlier on the right), and the order of the list is kept |
| SetOps.UnionMeaning | src/expression/expression.cpp:372-400 | union: every code of either operand once, in order of first occurrence |
| SetOps.RepeatsCodes | src/expression/expression.cpp:386-400 | the codes of `&` are the common ones and those repeated in the right operand |
| SetOps.IntersectionMeaning | src/expression/expression.cpp:386-400 | `&` is the intersection if and only if every code repeated on the right is also on the left; under the same condition `l - r` and `l & r` split `l` |
| SetOps.FreshAndRepeatsPartition | src/expression/expression.cpp:386-400 | each element of the right operand is taken by exactly one of `\|` and `&` |
| Replace.Text.ReplaceAll | src/utils.cpp:111-121 | in place: the string with every leftmost non-overlapping occurrence replaced; the replacement is not searched again |
| Replace.LoopEndsExactly | src/utils.cpp:115-119 | the loop ends if and only if the pattern is not empty or the string is |
| Replace.FindMeaning | src/utils.cpp:116-116 | the position found is an occurrence and there is none before it; none found means there is none |
| Replace.ReplacedIsJoin | src/utils.cpp:111-121 | replacing is splitting at the occurrences and joining with the replacement |
| Replace.PiecesLeftmost | src/utils.cpp:111-121 | the split is at leftmost occurrences and joins back to the string |
| Replace.PiecesUnique | src/utils.cpp:111-121 | it is the only such split |
| Replace.ReplacedLength | src/utils.cpp:111-121 | the exact length of the result, from the number of occurrences |
| Replace.EscapeUndone | src/unified_scheduler_manager.cpp:266-271 | replacing `%` by `%%` is undone by replacing `%%` by `%` |
| Replace.EscapeInjective | src/unified_scheduler_manager.cpp:266-271 | so different log ids stay different |
| Walk.FollowInterventions | src/policy/flow/default_policy.cpp:141-155 | for jumps that end: the node they end at, or an error of its rules |
| Walk.JumpsEndExactly | src/policy/flow/default_policy.cpp:141-155 | the jumps end if and only if no node comes up twice, and then after fewer jumps than there are nodes |
| Walk.RunNode | src/policy/flow/default_policy.cpp:110-168 | the top scope and the `next` after a node are those of the kernel, the output blocks and the merge of the output; an error in any of them is an error |
| Walk.NodeScopes | src/policy/flow/default_policy.cpp:124-131 | the output blocks of a node change nothing in the scope that nodes share |
| Walk.NextIsOwn | src/policy/flow/default_policy.cpp:205-212 | the `next` of a node is read in its own scope; the scope that nodes share binds none, before the node or after |
| Walk.SingleNode | src/policy/flow/default_policy.cpp:135-170 | the node at which the jumps end is visited, once |
| Walk.LandingIs | src/policy/flow/default_policy.cpp:141-155 | that node is unique |
| Walk.NodeTurn | src/policy/flow/default_policy.cpp:197-216 | one turn of the loop: error for an unknown node or a failed visit, the response without a `next`, else the next node |
| Walk.InnerRun | src/policy/flow/default_policy.cpp:179-220 | a run that ends gives the response of the walk, or an error where the walk stops |
| Walk.ResponseIsFold | src/policy/flow/default_policy.cpp:161-168 | at every point of a walk the result is the left fold of deep merge over the outputs of the visited nodes, in visit order, from the empty object |
| NodeOutputs.ReachedByRules | src/policy/flow/default_policy.cpp:141-155 | the node visited is the end of the path along which the rules of each node name a known node |
| NodeOutputs.VisitIs | src/policy/flow/default_policy.cpp:110-168 | when no condition fails and what is chosen evaluates: the document of the first block whose conditions hold, or of the default, is merged into the result if it is an object, the backend map is that of the kernel, the successor is that of what was chosen |
| NodeOutputs.VisitFails | src/policy/flow/default_policy.cpp:121-133 | a kernel that fails, or a default that does not evaluate when no block is chosen, is an error |
| NodeOutputs.TurnIs | src/policy/flow/default_policy.cpp:197-216 | so one turn of the walk is known from the configuration: the new result, and the next node or the end |
| NodeOutputs.TurnFails | src/policy/flow/default_policy.cpp:197-207 | an unknown node, an error of the rules or of the kernel ends the walk with an error |
| NodeOutputs.WalkFollowsNext | src/policy/flow/default_policy.cpp:179-216 | the walk starts at the configured node with empty maps and goes from each node to its configured successor |
| NodeOutputs.ResponseIsDocuments | src/policy/flow/default_policy.cpp:161-168 | the result is the left fold of deep merge over the documents of the visited nodes, in visit order |
| NodeOutputs.ClearWalkResponds | src/policy/flow/default_policy.cpp:179-220 | and that fold is the only outcome of a walk whose last node has no successor |
| Walk.RequestStays | src/policy/flow/default_policy.cpp:179-220 | no node changes the request that the later nodes see |
| Scope.ExpressionContext.Inner | src/expression/expression.cpp:42-45 | a new empty scope in front of the outer ones |
| Scope.ExpressionContext.SetVariable | src/expression/expression.cpp:52-62 | the value is appended to the inner scope |
| Scope.ExpressionContext.SetVariableByPath | src/expression/expression.cpp:75-78 | the path is written into the inner scope; an invalid one gives -1 |
| Scope.ExpressionContext.GetVariable | src/expression/expression.cpp:94-105 | the first binding from the inner scope outwards |
| Scope.ExpressionContext.MergeVariable | src/expression/expression.cpp:64-73 | two objects are merged in the scope that binds the name, another existing value stays, an unbound name is set in the inner scope |
| Scope.LookupIsOwners | src/expression/expression.cpp:94-105 | a lookup reads the scope that a merge writes |
| Scope.SetReads | src/expression/expression.cpp:52-62 | a variable that is set is read, unless its own scope has an earlier value; no other changes |
| Scope.MergeReads | src/expression/expression.cpp:64-73 | a merged variable reads as the deep merge of two objects, as before when one is no object, as the new value when it was unbound; no other changes |
| Branch.RunBlock | src/dynamic_config.cpp:415-446 | the scopes after a block: `cond`, the definitions, the output merged; an error in any of them is an error |
| Branch.Output | src/dynamic_config.cpp:1349-1399 | the scopes and the result are those of the choice among the blocks and the default |
| Branch.RejectedLeavesAlone | src/dynamic_config.cpp:489-511 | a block whose conditions do not hold leaves every outer binding as it was |
| Branch.AcceptsExactly | src/dynamic_config.cpp:112-130 | a block is accepted if and only if each of its conditions evaluates to true; otherwise it decides if and only if the first that is not true is false |
| Branch.DefinitionReads | src/dynamic_config.cpp:415-432 | after definitions with different names each variable reads as the value of its expression in the scopes that the earlier ones left |
| Branch.FirstMatchDecides | src/dynamic_config.cpp:489-522 | when no condition fails the choice is the first block whose conditions hold, or the default, as if the blocks before it were not there |
| Branch.ChosenBlockDecides | src/dynamic_config.cpp:503-511 | exactly the document of the chosen block becomes the output, its successor the successor, and nothing else outside changes |
| Branch.OneSourceDecides | src/dynamic_config.cpp:1349-1399 | when no condition fails and what is chosen evaluates, the outer scopes get exactly one document and one successor: those of the first block whose conditions hold, or of the default |
| Branch.OutputIsMerged | src/dynamic_config.cpp:415-446 | an output that the outer scopes have already, such as that of a template, gets the output of a chosen block merged into it |
| Branch.DefaultIsMerged | src/dynamic_config.cpp:513-522 | and so it does with the output of the default |
| Branch.FailedCondition | src/dynamic_config.cpp:1351-1366 | a condition that fails to evaluate: the block of a backend response is passed over, that of a flow node makes the choice an error unless an outer scope has `cond` |
| Branch.FailedOutput | src/dynamic_config.cpp:809-823 | an accepted block whose definitions or output fail: that of a backend response is passed over, that of a flow node is chosen with its successor and no output |
| Branch.ChooseKeepsOuter | src/dynamic_config.cpp:1349-1399 | scopes further out that do not bind `output` stay as they are |
| Rank.Compare | src/dynamic_config.cpp:527-552 | the loop decides as the column-wise comparison does |
| Rank.PrecedesIsLexicographic | src/dynamic_config.cpp:527-552 | on vectors with nulls in the same columns it is the lexicographic comparison, each column in its direction, up to a null column |
| Rank.NullCountsAsZero | src/dynamic_config.cpp:531-541 | a null against a number counts as zero, on either side |
| Rank.UniformIsWeakOrder | src/dynamic_config.cpp:527-552 | when each column is null in all candidates or in none it is a strict weak order |
| Rank.PrecedesOrStopped | src/dynamic_config.cpp:527-552 | the comparison is the lexicographic one, null counting as zero, on pairs that no common null stops |
| Rank.WeakOrderExactly | src/dynamic_config.cpp:527-552 | it is a strict weak order on the candidates if and only if any two that a common null stops compare alike with every candidate |
| Rank.UniformIsAlike | src/dynamic_config.cpp:527-552 | columns that are null in all candidates or in none meet that condition |
| Rank.MixedNullsBreakOrder | src/dynamic_config.cpp:529-530 | a column with some nulls can make it intransitive |
| Rank.RankConfig.Init | src/dynamic_config.cpp:578-608 | priorities fall from the first `order` entry on, a name keeps its first entry, and a descending column is put in front |
| Rank.RankConfig.Run | src/dynamic_config.cpp:610-712 | the names of a permutation of the eligible candidates, sorted whenever the comparison is a strict weak order |
| Rank.RankAll | src/dynamic_config.cpp:578-712 | the same from the configuration on |
| Rank.EligibleIs | src/dynamic_config.cpp:636-697 | what is ranked is exactly the items of the candidates, or the elements of those that are arrays, with a full vector of features, each under its own name |
| Rank.EligibleCount | src/dynamic_config.cpp:636-697 | what comes from a service is there as often as the service is a candidate |
| Rank.RankedOnce | src/dynamic_config.cpp:626-712 | for different names exactly what comes from them is ranked, each once |
| Rank.PriorityIsGroup | src/dynamic_config.cpp:583-595 | the priority of a name is the place of the first entry that lists it, counted from the end |
| Rank.RankingIsSorted | src/dynamic_config.cpp:705-705 | whenever the comparison orders the candidates: in the first column where two ranked ones differ the earlier has the value that the direction prefers, and unless a common null stops them the later is not lexicographically before |
| Rank.OrderGroupsComeFirst | src/dynamic_config.cpp:583-608 | whenever the comparison orders the candidates, those of an earlier `order` entry come first whatever the sort expressions say |
| Rank.RankedNameResolves | src/dynamic_config.cpp:636-697 | reading a ranked name as a path gives exactly the item that was ranked |
| Intervene.FlowInterveneConfig.InitByInterveneFile | src/dynamic_config.cpp:1054-1085 | the two pattern lists in file order and the two maps with the first target of each key |
| Intervene.FlowInterveneConfig.EvaluateTarget | src/dynamic_config.cpp:1123-1165 | the first hit of the match list, else of the search list |
| Intervene.TargetsFirst | src/dynamic_config.cpp:1063-1079 | a map holds the target of the first rule of its kind with the key |
| Intervene.IndexIsPlainReading | src/dynamic_config.cpp:1123-1165 | when rules that share a key agree in kind, the index answers with the first matching whole-text rule of the kind in the file, else the first search rule |
| Intervene.DistinctPatternsAgree | src/dynamic_config.cpp:1063-1079 | distinct patterns without the search suffix meet that condition |
| Intervene.PlainMeaning | src/dynamic_config.cpp:1123-1165 | the plain reading is the target of the first rule of the kind that matches the whole text, if none does of the first whose pattern occurs in it, else nothing |
| Intervene.TwoRules | src/dynamic_config.cpp:1054-1165 | the index of one rule for whole texts and one for parts, by the engine itself |
| Intervene.OnePatternBothWays | src/dynamic_config.cpp:1063-1079 | one pattern can have a rule of each way of matching |
| RuleOrder.IndexAgreesExactly | src/dynamic_config.cpp:1054-1165 | for all rules: the index answers like the plain reading for all ways in which patterns match if and only if, for either way of matching, a compiled pattern is keyed in the map exactly when it is one of the kind and then with the target of its first rule, and no two patterns of the kind with different targets come up in another order among all compiled rules than among the rules of the kind |
| RuleOrder.NoSuffixesMatch | src/dynamic_config.cpp:1063-1079 | patterns that do not end in the search suffix are always keyed right |
| RuleOrder.SuffixTakesTarget | src/dynamic_config.cpp:1063-1079 | a pattern that ends in the suffix can give its target to another one |
| Intervene.SharedPatternReorders | src/dynamic_config.cpp:1123-1165 | a pattern used by rules of both kinds lets a later rule win |
| Deliver.FilteroutByResponse | src/dynamic_config.cpp:1401-1465 | the services whose class fails, in order; none for a malformed response; a single string judges the first two classes and null the later ones |
| Deliver.SelectServices | src/backend_engine.cpp:195-215 | the intervene service alone, else the configured services that are not filtered out |
| Deliver.FailingIs | src/dynamic_config.cpp:1435-1463 | a service is dropped if and only if some class that delivers to it has another type, another string, or a score below its threshold |
| Deliver.OneStringStandsExactly | src/dynamic_config.cpp:1424-1428 | a single string judges every class as if it were there for each of them if and only if no threshold after the first is null or the string itself |
| Deliver.OneStringDelivery | src/dynamic_config.cpp:1424-1463 | for different services, the services filtered out are those that the string in every class would drop, under the same condition and no other |
| Deliver.OneStringDropsLater | src/dynamic_config.cpp:1424-1428 | one string, three classes, the string as both thresholds: the second service is filtered out |
| Deliver.DeliverySplits | src/policy/flow/levels_policy.cpp:53-62 | each configured service is recalled or filtered out, never both, and it is filtered out exactly when the response is well formed and a class of it fails |
| Deliver.RecalledExactly | src/dynamic_config.cpp:1435-1463 | given one score for each class, a configured service is recalled if and only if every class that delivers to it passes: a number from the threshold on, the same string or boolean, null for null, the same kind of object or array |
| Deliver.NumberDelivers | src/dynamic_config.cpp:1454-1457 | for different services a numeric score delivers if and only if the threshold is a number and not above it |
| Deliver.TextDelivers | src/dynamic_config.cpp:1444-1453 | a string delivers if and only if it is the threshold |
| Deliver.RaisingKeeps | src/dynamic_config.cpp:1454-1457 | raising a score never drops a service |
| Deliver.MalformedKeepsAll | src/dynamic_config.cpp:1401-1433 | a malformed response filters nothing out |
| Deliver.KeptKeepsOrder | src/backend_engine.cpp:207-214 | what is recalled keeps the configured order |

## Left out

- brpc channels, HTTP and Redis requests, timers, logging, thread-local data and locks: only register, issue, complete, cancel and join remain, each an atomic step.
- Protobuf and configuration loading, templates and the policy and function registries, which only carry data to the code modelled here.
- The evaluator of expressions beyond the array operators, with its int32 and floating-point arithmetic; `Branch`, `KeyMap` and `Rank` take evaluation as a parameter without side effects.
- Digests, Base64, percent-encoding, random bytes and time.
- Interventions inside `GlobalClosure::Run`: its inner loop (`src/controller_closure.cpp:268-279`) never moves to the flow it jumps to; `Walk` has them for `single_node`.
- Cancellation inside `GlobalClosure` with its success flag, and the quit condition itself: `Recall` has no quit or cancel and `CallIds` quits at any time.
- Dynamic HTTP fan-out: one item with the list of its calls in `CallIds`, absent from `Recall`.
- `set_ready_to_quite`, which nothing calls.
- Answers.RecallLosesNothing: for recalls that form a tree over known services, and objects without repeated names; `Answers.AlwaysReadsExactly` has the starts with entries of recalled services. A service that is filtered out or whose request does not build counts as one without a response.
- Recall.NodeFinishes: a call always completes, with a response or without one.
- CallIds.RegisterServices: unknown services and those outside the target set are skipped before the list that it is given.
- Answers.ResponseIsNewMember: for starts without entries of recalled services; with one the response is a second member of the same name.
- Cancel.RpcClosure.Run: response parsing inside the batch is not part of the closure modelled.
- Merge.MergeJsonObjects: `to` and `from` are different values; a chosen block that has no output of its own inside a scope that binds `output` makes the original merge that output with itself.
- Pointer.JsonSetValueByPath: for the release build, in which the assertions of rapidjson are off; elsewhere an invalid path aborts. Strings hold no null character.
- Scope.ExpressionContext.SetVariableByPath: a value other than an object at the root path, or at an invalid one, takes the place of the whole scope, and what the original reads from it afterwards is undefined; such a write is excluded, and the keys of definitions name variables.
- KeyMap.EveryPathHolds: for keys without stray slashes, at most one root key, one key for each path, tokens that are names; beyond that `KeyDepth.PathsHoldExactly`.
- KeyDepth.PathsHoldExactly: for keys without the token `-`, which appends to an array and cannot be read back, without two spellings of one index, and with one key for each path.
- KeyMap.ConfigurationOrderIrrelevant: equality of trees, since the order of members does depend on the configuration.
- Lexer.MatchIsLongest: location tracking and the error report for an unknown character, which is skipped.
- Language.TextRoundTripExactly: doubles keep their digits as text, and the literal -2147483648, whose digits are out of range, is not writable.
- Replace.Text.ReplaceAll: an empty pattern on a non-empty string, on which the original loops for ever, is excluded; `Replace.LoopEndsExactly` says that it is the only such case.
- Walk.FollowInterventions: jumps that do not end are excluded; `Walk.JumpsEndExactly` says when that is.
- Walk.SingleNode: as for the jumps.
- Walk.NodeTurn: as for the jumps.
- Walk.InnerRun: walks without an end are excluded, and a `next` that is not a string, on which the original aborts, is an error; the kernel of a node is a parameter that gives, for each turn, its variables and the new backend map.
- KeyReads.InitAndRun: what it reads is stated for keys of names without stray slashes, with at most one root key; for array indices `KeyDepth.PathsHoldExactly`.
- NodeOutputs.VisitIs: for kernels that bind neither `output` nor `next`, and blocks that evaluate; `Branch.FailedCondition` and `Branch.FailedOutput` have the others.
- Branch.Output: the template and the definitions in front of the blocks of a backend response.
- Rank.RankConfig.Init: `order` entries come split at their commas.
- Rank.RankConfig.Run: `std::sort` is any sort as far as the contract goes, a sorted permutation; on a comparison that is no strict weak order only the permutation is claimed.
- Sorting.Vector.Sort: insertion stands for the library's stable sort.
- Intervene.IndexIsPlainReading: a sufficient condition; `RuleOrder.IndexAgreesExactly` is exact.
- Deliver.FilteroutByResponse: scores and thresholds are reals.
- SetOps.Difference: elements are compared by an arbitrary encoding; nothing needs it to be injective.
