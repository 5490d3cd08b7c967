# Verified models of the CCL evaluator, the chat-turn writer and the publisher refund

This project models three parts of the DKG repository and proves properties of
the models. `dafny verify dfyconfig.toml` checks everything.

**The CCL policy language** (`Ccl*`, `Surface*`, `Text`). A policy is a list of
rules and decisions over named relations. `CclSemantics` gives condition lists a
declarative meaning and proves that left-to-right evaluation finds exactly its
bindings; `CclFixpoint`, `CclTermination`, `CclStrata` and `CclLimits` treat the
round-capped in-place fixpoint: least model, termination measure, stratified
policies, and where the cap and the rule order really matter (`CclRuleOrder`, `CclSkeleton`). `CclHeads` says what a report holds in terms of
what authors wrote. `CclEvaluator` is
the mutable evaluator, proved against those functions. `SurfaceSyntax` and
`SurfaceCompiler` model the indentation-sensitive surface compiler; a printer on
the model's side closes the round trip in both directions (`SurfaceSteps`,
`SurfaceLines`, `SurfaceRoundTrip`, `SurfaceImage`), and a grammar over lines says
exactly what compiles, and to what (`SurfaceForms`, `SurfaceBlank`,
`SurfaceGrammar`, `SurfaceTexts`).

**Chat-turn persistence** (`Transcript`, `SessionIds`, `Watermarks`, `AgentEnd`,
`AgentEndProof`, `AgentEndFires`, `AgentEndProgress`, `Migration`, `Pairing`, `PairingRuns`, `HandOver`,
`ChatTurnWriter`, `Streaming`, `StreamErrors`). The batch writer (W4a) is a step machine over
agent_end fires with a daemon that may refuse, store, or store and lose its reply,
file writes that may fail, timers, direct-channel markers and crashes. The incremental writer (W4b) is
a queue machine whose persists complete in any order. `ChatTurnWriter` holds the
object whose maps both share, method by method; `Streaming` is one streamed
channel turn. The daemon is a set of records keyed by turn id.

**The publisher refund** (`Sums`, `Apportionment`, `LogScan`, `Aggregates`,
`Payout`). Exact wei arithmetic: allocation over epochs, scaling to the on-chain
pool, the adaptive event scan, the two id scans, the distribution file and the
re-runnable payout.

Clocks, the network, the file system's success or failure, the daemon's and the
chain's answers and the provider's answers are parameters or events, so every
theorem holds for all of them. Hashes, JSON and the tuple key are taken as
injective: a key is the value it is made from. `strip`, which removes recalled
memory from a reply, is any function; where a theorem needs it, it maps the empty
text to itself.

Where code and documentation differ, the code is modelled:

- The language's own documents say that rule order is canonicalized and that there
  is no recursion (`ccl_v0_1/README.md:64`); the evaluator enforces neither.
  `NegationNeedsRuleOrder` shows that the order matters; `NegationReadyResult`,
  `StratifiedOrdersAgree` and `RuleOrderIrrelevant` say which policies are safe,
  `ShallowPolicyReturns` which return. What `NegationReadyResult` asks is exact for
  what rules read (`ReadyIffSkeletonSafe`), not for a single policy: a negative read of
  a predicate completed too late does no harm in a rule that never fires
  (`UnreadyCanBeHarmless`).
- The payout stops after three failures in all, although its message says
  consecutive (`scripts/distribute-publisher-trac.ts:264-267`).

Five properties one might expect do not hold, and each comes with its exact
condition: the W4b hand-over with persists in flight or refused or a count not
written (`HandOverExactIff`, `HandOverEmitsTheRest`), agreement of the two pairings
(`PairingsAgreeIff`), migration with pending timers (`PendingOverridesMerge`,
`OrderedAfterMoveIff`), cancellation after a callback error (`ConfluentIff`), and
paying once when a receipt or a save is lost (`PaidOnceIff`).

## Model

| member | source | states |
|---|---|---|
| CclSemantics.UnifyIsMatches | packages/agent/src/ccl-evaluator.ts:190-216 | unifying an argument list with a tuple returns a binding exactly when that binding is the declarative extension: old entries kept, exactly the argument variables added, repeated variables equal |
| CclSemantics.SolveIsSatisfaction | packages/agent/src/ccl-evaluator.ts:156-188 | for every store, condition list of any nesting and starting binding, the computed bindings are exactly those the left-to-right satisfaction relation allows |
| CclSemantics.StepIsHolds | packages/agent/src/ccl-evaluator.ts:169-188 | the same for a single condition, with existence, absence and counting defined by quantifiers over satisfying bindings |
| CclSemantics.ProjectIsReads | packages/agent/src/ccl-evaluator.ts:39-45 | the tuple made for a list of names holds, in their order, the values the binding gives them, whether they are written with their '$' or without, and unbound where it gives none |
| CclFixpoint.SolveFrame | packages/agent/src/ccl-evaluator.ts:156-216 | evaluation depends only on the relations a body names, at any nesting |
| CclFixpoint.SolveSigned | packages/agent/src/ccl-evaluator.ts:156-188 | a larger store that agrees on the predicates read under negation or in an upper-bounded count loses no binding |
| CclFixpoint.SolveMonotone | packages/agent/src/ccl-evaluator.ts:169-188 | without negation and with only lower-bound counts, a larger store never loses a binding |
| CclFixpoint.FixpointReturns | packages/agent/src/ccl-evaluator.ts:115-130 | a normal return is some round below the cap after which a further round changes nothing |
| CclFixpoint.FixpointFails | packages/agent/src/ccl-evaluator.ts:115-130 | the round-limit error means that every round up to the cap changed the store |
| CclFixpoint.UnchangedIsClosed | packages/agent/src/ccl-evaluator.ts:117-127 | a round changes nothing exactly when the store is closed under every rule, although rules see each other's output within a round |
| CclFixpoint.ReturnIsClosed | packages/agent/src/ccl-evaluator.ts:115-140 | whatever the policy, a returned store contains the facts and is closed under all rules |
| CclFixpoint.LeastModel | packages/agent/src/ccl-evaluator.ts:115-140 | for positive policies a normal return is the least store containing the facts and closed under the rules |
| CclFixpoint.RuleOrderIrrelevant | packages/agent/src/ccl-evaluator.ts:115-140 | for positive policies two rule lists with the same rules return the same store |
| CclTermination.RoundsStayInSpace | packages/agent/src/ccl-evaluator.ts:132-140 | after any number of rounds every value comes from the facts or is unbound, and every new tuple is a head tuple over those values |
| CclTermination.TerminatesWithoutCap | packages/agent/src/ccl-evaluator.ts:115-130 | with a cap above the number of possible head tuples, counted from the heads' arities and the facts' values, the loop always returns |
| CclStrata.StratifiedResult | packages/agent/src/ccl-evaluator.ts:115-140 | when bodies read only inputs and earlier heads, the first round is the one and only stratified model, negation and counts included, and the second round changes nothing |
| CclStrata.SettledAfter | packages/agent/src/ccl-evaluator.ts:115-140 | a predicate with no dependency chain longer than k is final after k rounds, for any rules and any rule order |
| CclStrata.ShallowPolicyReturns | packages/agent/src/ccl-evaluator.ts:115-130 | an acyclic rule set of dependency depth at most 63 returns within the 64 rounds in any rule order, after as many rounds as it is deep |
| CclLimits.DepthBoundIsTight | packages/agent/src/ccl-evaluator.ts:115-130 | an acyclic positive policy of depth 64 whose rules stand in reverse order hits the round limit, so 63 cannot be raised |
| CclLimits.NegationNeedsRuleOrder | packages/agent/src/ccl-evaluator.ts:115-140 | with negation the same two non-recursive rules give different results in the two orders |
| CclRuleOrder.NegationReadyResult | packages/agent/src/ccl-evaluator.ts:115-140 | an acyclic policy of depth at most 63 returns its one stratified model as soon as what each rule reads negatively is complete when the first round comes to that rule; the other rules may stand anywhere |
| CclRuleOrder.ReadyOrdersAgree | packages/agent/src/ccl-evaluator.ts:115-140 | two such orders of the same rules return the same store |
| CclRuleOrder.StratifiedOrdersAgree | packages/agent/src/ccl-evaluator.ts:115-140 | two stratified orders of the same rules return the same store, whatever their depth |
| CclRuleOrder.StratifiedIsReady | packages/agent/src/ccl-evaluator.ts:115-140 | every stratified order meets that weaker condition |
| CclSkeleton.UnreadyCanErr | packages/agent/src/ccl-evaluator.ts:115-140 | for every acyclic rule list that does not meet it there are bodies reading the same predicates with the same signs that, on no facts at all, do not return their stratified model |
| CclSkeleton.ReadyIffSkeletonSafe | packages/agent/src/ccl-evaluator.ts:115-140 | so the condition is exact for dependencies: it holds if and only if every policy with these heads and signed reads returns a stratified model on all facts |
| CclSkeleton.UnreadyCanBeHarmless | packages/agent/src/ccl-evaluator.ts:115-140 | one policy that does not meet it and is still safe on all facts |
| CclSorting.SortCanonical | packages/agent/src/ccl-evaluator.ts:227-229 | sorting two permutations of a list by a total order gives the same list |
| CclHeads.HeadTuplesMean | packages/agent/src/ccl-evaluator.ts:132-154 | a rule or decision reports a tuple exactly when some way to satisfy its body gives its parameters these values |
| CclHeads.DeriveMeans | packages/agent/src/ccl-evaluator.ts:132-140 | a rule derives facts of its own name with exactly those tuples |
| CclHeads.RunReports | packages/agent/src/ccl-evaluator.ts:105-154 | what an evaluation reports: of every rule name the tuples of its relation in the final store, of every decision name those its last decision gives on that store |
| CclHeads.SurfaceNameIsItsArgument | ccl_v0_1/evaluator/surface_compiler.js:113-117 | a capitalized parameter or count variable is the variable the same text is as an argument |
| CclHeads.SurfaceRuleCopies | ccl_v0_1/evaluator/surface_compiler.js:17-39 | the surface rule `name(S):` over `p(S)` copies exactly the relation p |
| CclHeads.SurfaceCountCounts | packages/agent/src/ccl-evaluator.ts:181-186 | `count_distinct S where p(S)` compares the number of different values in p |
| CclEvaluator.Evaluator.constructor | packages/agent/src/ccl-evaluator.ts:97-103 | the relations hold exactly the set of the supplied facts |
| CclEvaluator.Evaluator.AddTuple | packages/agent/src/ccl-evaluator.ts:120-125 | the store gains exactly that fact and the relation grows exactly when the fact is new |
| CclEvaluator.Evaluator.MatchAtom | packages/agent/src/ccl-evaluator.ts:190-216 | the loop over a relation returns exactly the bindings of the specification |
| CclEvaluator.Evaluator.EvaluateConditions | packages/agent/src/ccl-evaluator.ts:156-167 | the list loop computes the solutions of the whole list from all starting bindings; the only error is an unsupported condition, and only for an invalid list |
| CclEvaluator.Evaluator.EvaluateCondition | packages/agent/src/ccl-evaluator.ts:169-188 | the same for one condition, recursing into nested bodies |
| CclEvaluator.Evaluator.ApplyRule | packages/agent/src/ccl-evaluator.ts:119-140 | the store gains exactly what the rule derives from the store before, and reports a change exactly when there is one |
| CclEvaluator.Evaluator.RunRound | packages/agent/src/ccl-evaluator.ts:117-127 | one in-place round is the value-level round, each rule seeing the ones before it |
| CclEvaluator.Evaluator.DeriveFixpoint | packages/agent/src/ccl-evaluator.ts:115-130 | the in-place loop ends with the fixpoint function's store, or, for a valid policy, with the round-limit error exactly when that function has none |
| CclEvaluator.Evaluator.EvaluateDecisions | packages/agent/src/ccl-evaluator.ts:142-154 | every decision name reports its tuples over the final store, sorted and without repetition; a repeated name keeps its last entry |
| CclEvaluator.Evaluator.CollectDerived | packages/agent/src/ccl-evaluator.ts:105-113 | every rule name reports its whole relation, sorted and without repetition |
| CclEvaluator.Evaluator.Run | packages/agent/src/ccl-evaluator.ts:105-113 | the whole evaluation meets its specification, which mentions the facts only as a set |
| CclEvaluator.RunIsDeterministic | packages/agent/src/ccl-evaluator.ts:105-154 | permuting or duplicating the facts leaves every derived and decision sequence identical, as the language's README promises |
| CclEvaluator.HashedFactsIgnoreOrder | packages/agent/src/ccl-evaluator.ts:88-91 | permuting the facts leaves the sequence that is hashed identical |
| SurfaceCompiler.ParseBlock | ccl_v0_1/evaluator/surface_compiler.js:44-98 | the index-advancing parser terminates, computes the value-level parse and stops at the end of its own block: end of text, or a non-blank line at a smaller indent |
| SurfaceCompiler.ParseCondition | ccl_v0_1/evaluator/surface_compiler.js:58-95 | one condition, with its nested block and, for a count, the comparator line after it |
| SurfaceCompiler.CompileSurfacePolicy | ccl_v0_1/evaluator/surface_compiler.js:7-42 | the line loop computes the value-level compiler for every source text, failures included |
| SurfaceCompiler.BlockStops | ccl_v0_1/evaluator/surface_compiler.js:44-57 | what a parsed block leaves over starts where the block must end |
| SurfaceRoundTrip.BlockRoundTrip | ccl_v0_1/evaluator/surface_compiler.js:44-98 | parsing the printed form of a condition list of any depth gives it back and consumes exactly its lines, whatever follows |
| SurfaceRoundTrip.ConditionRoundTrip | ccl_v0_1/evaluator/surface_compiler.js:58-95 | the same for one condition at any indent |
| SurfaceRoundTrip.EntriesRoundTrip | ccl_v0_1/evaluator/surface_compiler.js:17-39 | printed rules or decisions are added to the policy compiled so far, in order, before the rest is compiled |
| SurfaceImage.PrintCompile | ccl_v0_1/evaluator/surface_compiler.js:7-117 | compiling the canonical text of any well-formed policy gives back that policy |
| SurfaceImage.BlockIsWellFormed | ccl_v0_1/evaluator/surface_compiler.js:44-117 | every block the parser accepts is in the class the printer covers |
| SurfaceImage.CompilePrintCompile | ccl_v0_1/evaluator/surface_compiler.js:7-117 | every policy the compiler can produce is well-formed, and compiling its canonical text gives the same policy as the original text |
| SurfaceImage.CompiledIsValid | packages/agent/src/ccl-evaluator.ts:259-295 | every policy that compiles is valid for the evaluator |
| SurfaceBlank.BlankInBlock | ccl_v0_1/evaluator/surface_compiler.js:48-53 | a blank line anywhere in or around a block, also before a comparator line, changes nothing but the number of lines used |
| SurfaceBlank.BlankInText | ccl_v0_1/evaluator/surface_compiler.js:12-17 | a blank line anywhere in a text leaves the compiled policy, or the failure, as it is |
| SurfaceForms.PolicyForm | ccl_v0_1/evaluator/surface_compiler.js:18-18 | the header pattern matches exactly `policy`, blanks, a word, blanks, `v` and a version without blanks |
| SurfaceForms.HeadForm | ccl_v0_1/evaluator/surface_compiler.js:25-25 | the head pattern matches exactly keyword, blanks, name, bracketed parameters and colon |
| SurfaceForms.CountForm | ccl_v0_1/evaluator/surface_compiler.js:64-66 | the count pattern matches exactly the keyword, names separated by commas with any blanks, and `where` |
| SurfaceForms.ExistsForm | ccl_v0_1/evaluator/surface_compiler.js:84-84 | the existential pattern matches exactly keyword, blanks, a name, blanks and `where` |
| SurfaceForms.CompareForm | ccl_v0_1/evaluator/surface_compiler.js:69-69 | the comparator pattern matches exactly one of the five comparators, blanks and digits, with their decimal value |
| SurfaceForms.AtomForm | ccl_v0_1/evaluator/surface_compiler.js:100-107 | the atom pattern matches exactly a name and bracketed arguments on one line |
| SurfaceForms.SplitArgsAtComma | ccl_v0_1/evaluator/surface_compiler.js:109-111 | arguments are split at commas, piece by piece; with SplitArgsOfPiece and TrimMeans, blanks around pieces and empty pieces are dropped |
| SurfaceGrammar.BlockIff | ccl_v0_1/evaluator/surface_compiler.js:44-98 | the block parser accepts exactly the blocks of the grammar, deeper or missing indentation and missing comparator lines rejected, and gives them exactly their conditions |
| SurfaceTexts.CompileIff | ccl_v0_1/evaluator/surface_compiler.js:7-42 | the compiler accepts exactly the texts of the grammar, blank lines aside, and gives the last header and all rules and all decisions in order, each with the body written below it |
| SurfaceTexts.HeadsAreCompiled | ccl_v0_1/evaluator/surface_compiler.js:25-39 | in a text of the grammar every line that looks like a head is the head of a definition: none is lost or swallowed |
| Transcript.ComputeDelta | packages/adapter-openclaw/src/ChatTurnWriter.ts:1371-1475 | for every watermark the loop returns the full pair list from the next index on |
| Transcript.ScanIsSegments | packages/adapter-openclaw/src/ChatTurnWriter.ts:1371-1475 | the running scan pairs as an independent cut of the transcript at its textual replies does |
| Transcript.PairsExtend | packages/adapter-openclaw/src/ChatTurnWriter.ts:1371-1475 | a longer transcript only appends pairs |
| Transcript.UserTextsConserved | packages/adapter-openclaw/src/ChatTurnWriter.ts:1397-1475 | every non-empty user text lands, in order, in exactly one pair or in the unanswered tail |
| Transcript.SilentMessagesDoNotMatter | packages/adapter-openclaw/src/ChatTurnWriter.ts:1397-1464 | messages of other roles, users' without text, tool-call steps and replies without text change nothing, wherever they stand |
| Transcript.SpokenMessagesMatter | packages/adapter-openclaw/src/ChatTurnWriter.ts:1397-1475 | any other user text waits, and any other reply answers all that waits or is dropped when nothing does |
| Transcript.PairMeans | packages/adapter-openclaw/src/ChatTurnWriter.ts:1439-1475 | a pair has the waiting texts joined line by line, the stripped reply and, when one directly correlated text waited alone, its ids without repetition |
| SessionIds.DecodeEncode | packages/adapter-openclaw/src/ChatTurnWriter.ts:1931-1933 | the field encoding is invertible |
| SessionIds.EncodeMeans | packages/adapter-openclaw/src/ChatTurnWriter.ts:1931-1933 | character by character only ':' and '%' are written differently, as %3A and %25 |
| SessionIds.ComposedText | packages/adapter-openclaw/src/ChatTurnWriter.ts:1935-1949 | the text of an id: the four encoded fields in this order |
| SessionIds.ParseCompose | packages/adapter-openclaw/src/ChatTurnWriter.ts:1935-2032 | a composed id parses back to its encoded fields, and equal ids have equal fields |
| SessionIds.DedupKeyYieldsSession | packages/adapter-openclaw/src/ChatTurnWriter.ts:2010-2016 | any dedup key gives back its own session id, empty fields and turn ids with separators included |
| SessionIds.PrefixSelectsSession | packages/adapter-openclaw/src/ChatTurnWriter.ts:1252-1265 | a session's key prefix fits exactly its own dedup keys |
| SessionIds.CursorKeyIsNoSession | packages/adapter-openclaw/src/ChatTurnWriter.ts:1951-1954 | a direct-channel marker key is never a session id |
| SessionIds.CursorKeysDiffer | packages/adapter-openclaw/src/ChatTurnWriter.ts:1951-1954 | different session keys have different marker keys |
| SessionIds.ResetSelectsOneSession | packages/adapter-openclaw/src/ChatTurnWriter.ts:1956-1985 | a known id with the same parsed identity is that session's own id |
| Watermarks.LoadSaved | packages/adapter-openclaw/src/ChatTurnWriter.ts:421-469 | reading a written file back gives the newest index, count and markers of every session |
| Watermarks.FailedConsumeRestores | packages/adapter-openclaw/src/ChatTurnWriter.ts:545-556 | a marker consumption whose write fails changes no watermark, count, marker or file |
| Watermarks.FailedMarkRestores | packages/adapter-openclaw/src/ChatTurnWriter.ts:702-726 | a marker whose write fails leaves markers and file as they were |
| Watermarks.StepKeepsOrder | packages/adapter-openclaw/src/ChatTurnWriter.ts:2075-2272 | every operation keeps pending at or above cached and the file at or below the newest value, writes only current values for all sessions, and never moves the file back |
| Watermarks.RunKeepsOrder | packages/adapter-openclaw/src/ChatTurnWriter.ts:2075-2272 | the same over every run between resets, restarts included |
| Watermarks.LoadMeans | packages/adapter-openclaw/src/ChatTurnWriter.ts:430-465 | reading an entry gives the legacy number, the fields that are there with their defaults, and of the markers those counted at least once |
| Watermarks.BumpAdvances | packages/adapter-openclaw/src/ChatTurnWriter.ts:2075-2092 | recording an index makes the newest index the larger of the two and changes nothing else |
| Watermarks.ConsumeAdvances | packages/adapter-openclaw/src/ChatTurnWriter.ts:545-556 | passing a channel-stored pair leaves cached index and file at or above it and no other session changed |
| Watermarks.TimerCommits | packages/adapter-openclaw/src/ChatTurnWriter.ts:2083-2126 | a timer caches its index and writes, and is set again with one try less exactly when the write failed and tries remain |
| Watermarks.FlushCommits | packages/adapter-openclaw/src/ChatTurnWriter.ts:1308-1325 | a flush caches every newest index and writes when there is anything to cache |
| Watermarks.CountCounts | packages/adapter-openclaw/src/ChatTurnWriter.ts:1050-1067 | counting adds one, in the file too or with a retry of three tries |
| Watermarks.MarkMarks | packages/adapter-openclaw/src/ChatTurnWriter.ts:702-726 | a recorded turn's marker is in memory and in the file, and no other marker, index or count has changed |
| Watermarks.EffectiveNeverFalls | packages/adapter-openclaw/src/ChatTurnWriter.ts:2075-2272 | no operation but a restart lowers the newest index of a session |
| AgentEndProof.StepKeepsInv | packages/adapter-openclaw/src/ChatTurnWriter.ts:513-654 | every step of the agent_end protocol keeps the coverage invariant: fires, replies, lost replies, failed writes, timers, markers, expiring reservations, crashes |
| AgentEndProof.NoGap | packages/adapter-openclaw/src/ChatTurnWriter.ts:513-654 | in every reachable state each pair at or below the cached, newest or on-disk watermark is in the daemon under its own turn id or was stored by the channel |
| AgentEndProof.OneRecordPerPair | packages/adapter-openclaw/src/ChatTurnWriter.ts:1810-1833 | replays never create a second record: one daemon record per session and pair index, and it is that pair's |
| AgentEndFires.UnfailedFireCovers | packages/adapter-openclaw/src/ChatTurnWriter.ts:513-654 | whatever is interleaved with it (other fires, timers, appends, markers, flushes, expiries, a failed first attempt), a fire that meets no crash, unwritten marker commit or failed second attempt is still running, each of its own steps having used up some of its remaining work, or has covered every pair of its transcript |
| AgentEndFires.FinishedFireCovers | packages/adapter-openclaw/src/ChatTurnWriter.ts:513-654 | so such a fire has covered every pair once it is over, and it is over after a bounded number of its own steps, whatever else goes on |
| AgentEndProgress.ProceedMeans | packages/adapter-openclaw/src/ChatTurnWriter.ts:537-620 | a fire sends its next pair exactly when the channel has not recorded it under one of its ids and with the same two sides, and its turn is not reserved; a recorded pair is passed when the write succeeds, else the fire is over |
| AgentEndProgress.ReplyMeans | packages/adapter-openclaw/src/ChatTurnWriter.ts:2160-2206 | a stored turn is in the daemon and passed, a lost reply left it in the daemon, and after a second failure the fire is over with the watermark where it was and the turn free to be sent again |
| AgentEndProgress.RunAdvances | packages/adapter-openclaw/src/ChatTurnWriter.ts:513-654 | in every reachable state the watermark has passed the last pair each running fire dealt with, and every reserved turn that is not being sent |
| AgentEndProgress.UnfailedFirePasses | packages/adapter-openclaw/src/ChatTurnWriter.ts:513-654 | a fire that meets no failure, in a process that does not crash, is still running or has left the watermark at or above the last pair of its transcript, whatever is interleaved |
| AgentEndProgress.PassedIsNotSentAgain | packages/adapter-openclaw/src/ChatTurnWriter.ts:523-527 | once a timer or a flush has cached it, a fire over the same messages does not start, and a successful write keeps it for after a restart |
| ChatTurnWriter.Writer.constructor | packages/adapter-openclaw/src/ChatTurnWriter.ts:421-469 | the entry-by-entry load accepts legacy numbers, objects and foreign values and equals the load function |
| ChatTurnWriter.Writer.OnMessageReceived | packages/adapter-openclaw/src/ChatTurnWriter.ts:868-895 | a non-empty inbound joins the queue of its conversation and of no other |
| ChatTurnWriter.Writer.MarkTurnIdSeen | packages/adapter-openclaw/src/ChatTurnWriter.ts:1124-1134 | a key counts as seen for 60 seconds; expired reservations are evicted, then the key is reserved exactly when it was free |
| ChatTurnWriter.Writer.OwnedByBatch | packages/adapter-openclaw/src/ChatTurnWriter.ts:1194-1249 | a stamp of the batch writer counts for 5 seconds and is used up, an in-flight mark of it for 60, stale ones are dropped |
| ChatTurnWriter.DiscriminatorsDiffer | packages/adapter-openclaw/src/ChatTurnWriter.ts:1761-1768 | messages are told apart by their ids, an id from any number, and messages without ids by their numbers |
| ChatTurnWriter.OriginsDiffer | packages/adapter-openclaw/src/ChatTurnWriter.ts:1642-1647 | the two writers announce turns under different keys |
| ChatTurnWriter.Writer.OnMessageSent | packages/adapter-openclaw/src/ChatTurnWriter.ts:897-1024 | an outbound message, with or without an id, acts on queue and reservations as the conversation machine's send step and hands out exactly its job, unless the batch writer owns the turn; no other conversation's queue changes |
| ChatTurnWriter.Writer.Reserve | packages/adapter-openclaw/src/ChatTurnWriter.ts:1001-1019 | a turn gets a job exactly when its reservation was free or expired, and is then announced as in flight |
| ChatTurnWriter.Writer.OnPersisted | packages/adapter-openclaw/src/ChatTurnWriter.ts:1024-1067 | a stored turn is announced to the batch writer, counted and committed, and its in-flight mark goes |
| ChatTurnWriter.Writer.OnPersistFailed | packages/adapter-openclaw/src/ChatTurnWriter.ts:1088-1096 | a refused turn's inbounds return to the front of the queue and its reservation is released |
| ChatTurnWriter.Writer.BumpWatermark | packages/adapter-openclaw/src/ChatTurnWriter.ts:2075-2092 | the watermark only advances |
| ChatTurnWriter.Writer.ApplyPendingWatermarks | packages/adapter-openclaw/src/ChatTurnWriter.ts:1315-1325 | the loop commits one session's pending index, or all of them, and reports whether there was any |
| ChatTurnWriter.Writer.SnapshotWatermarksForWrite | packages/adapter-openclaw/src/ChatTurnWriter.ts:1332-1338 | cached values with every pending index on top |
| ChatTurnWriter.Writer.WriteWatermarkFile | packages/adapter-openclaw/src/ChatTurnWriter.ts:2208-2272 | the file is replaced whole by the three maps, or not touched; no other file changes |
| ChatTurnWriter.Writer.CommitWatermarkStateSync | packages/adapter-openclaw/src/ChatTurnWriter.ts:1327-1330 | the session's pending index is committed and the whole current state written |
| ChatTurnWriter.Writer.FlushNow | packages/adapter-openclaw/src/ChatTurnWriter.ts:1308-1313 | all pending indices are committed; nothing is written when there are none |
| ChatTurnWriter.Writer.ScheduleWatermarkFlush | packages/adapter-openclaw/src/ChatTurnWriter.ts:2102-2126 | a retry keeps the newest index of its session |
| ChatTurnWriter.Writer.OnTimer | packages/adapter-openclaw/src/ChatTurnWriter.ts:2083-2126 | a debounce timer commits and writes, and a failed retry is scheduled again while attempts remain |
| ChatTurnWriter.Writer.ConsumeExternalMarker | packages/adapter-openclaw/src/ChatTurnWriter.ts:545-556 | the advance past a channel-stored pair reaches the file or is undone |
| ChatTurnWriter.Writer.MarkExternalTurnPersisted | packages/adapter-openclaw/src/ChatTurnWriter.ts:702-726 | the marker reaches the file or is taken back |
| ChatTurnWriter.Writer.CountW4bTurn | packages/adapter-openclaw/src/ChatTurnWriter.ts:1050-1067 | the session's count goes up by one and is committed, with a retry scheduled when the write fails |
| ChatTurnWriter.Writer.ChangeStateDir | packages/adapter-openclaw/src/ChatTurnWriter.ts:242-419 | the in-place migration, with its merge loops and its four writes, equals the migration function; when the first write fails, live maps, path and files are as before, and timers, queues and reservations never change |
| ChatTurnWriter.Writer.ClearSessionTurnIds | packages/adapter-openclaw/src/ChatTurnWriter.ts:1252-1265 | the prefix loops drop exactly one session's reservations and stamps |
| ChatTurnWriter.Writer.ResetSessionState | packages/adapter-openclaw/src/ChatTurnWriter.ts:827-866 | exactly one session's watermark, timer, count, queue and reservations go; external markers, the path and other files stay |
| ChatTurnWriter.ResetTouchesOneSession | packages/adapter-openclaw/src/ChatTurnWriter.ts:827-866 | a reset returns a composed session to its initial state and leaves every other session's watermark, count, queue and reservations and all markers unchanged; once the file is written it holds the defaults for the reset session and the current values of every other, markers included |
| Migration.SuccessfulMigrationJoins | packages/adapter-openclaw/src/ChatTurnWriter.ts:242-419 | with no timer pending and both writes successful, file and live maps hold the larger of the own and the destination's value wherever the destination has an entry and the own value elsewhere, for values from the defaults up the plain maximum, markers included, and no other file changes |
| Migration.PendingOverridesMerge | packages/adapter-openclaw/src/ChatTurnWriter.ts:1332-1338 | with timers pending the written file holds the newest value of every session if and only if no timer is behind the destination |
| Migration.OrderedAfterMoveIff | packages/adapter-openclaw/src/ChatTurnWriter.ts:340-419 | the same condition decides whether the writer still keeps pending at or above cached and the file at or below the newest value, also when the final rewrite fails and the old path stays |
| Migration.PendingCanLoseDestination | packages/adapter-openclaw/src/ChatTurnWriter.ts:1332-1338 | a concrete migration in which a pending index overwrites a higher destination value |
| Migration.FailedRewriteRestoresDestination | packages/adapter-openclaw/src/ChatTurnWriter.ts:728-756 | when only the second write fails and the repair succeeds, the path stays and the destination reads as before, or is absent as before |
| Migration.WrittenDestinationRestored | packages/adapter-openclaw/src/ChatTurnWriter.ts:728-756 | a destination this writer had written comes back identical |
| Pairing.PairingsAgreeIff | packages/adapter-openclaw/src/ChatTurnWriter.ts:911-939 | incremental and batch pairing agree on every prefix of a transcript if and only if, with user text waiting, no send fails and no reply strips to nothing |
| Pairing.PartingExamples | packages/adapter-openclaw/src/ChatTurnWriter.ts:911-939 | the shortest transcripts on which they part: one user text and a reply that strips to nothing or is not delivered |
| PairingRuns.RunReaches | packages/adapter-openclaw/src/ChatTurnWriter.ts:868-1111 | whatever order persists complete in, whichever count writes fail and whenever reservations expire, a transcript's events dispatch the same turns in the same order |
| PairingRuns.RunKeepsJobs | packages/adapter-openclaw/src/ChatTurnWriter.ts:1001-1067 | without refused persists every dispatched turn is in flight or stored, once |
| PairingRuns.CountOverRuns | packages/adapter-openclaw/src/ChatTurnWriter.ts:1050-1067 | for every run at all the count in memory is the number of stored turns, and the file's is the same exactly when the last attempt to write it succeeded |
| PairingRuns.NoInboundLost | packages/adapter-openclaw/src/ChatTurnWriter.ts:1088-1096 | over every run without failed sends, whatever the daemon refuses, each inbound text is in the queue, in flight or stored; a refused reply is not kept |
| PairingRuns.SendMeans | packages/adapter-openclaw/src/ChatTurnWriter.ts:921-1002 | a send hands out a turn exactly when it succeeded, has text after stripping, finds text waiting and is not already reserved; what waits is then, or after a failed send, gone |
| PairingRuns.RefusedCanBeSentAgain | packages/adapter-openclaw/src/ChatTurnWriter.ts:1088-1096 | a refused turn can be sent again under the same message id, later texts behind its own |
| PairingRuns.InboundOrderKept | packages/adapter-openclaw/src/ChatTurnWriter.ts:868-1111 | while at most one turn is in flight, refusals included, inbound texts are stored in the order in which they came |
| PairingRuns.W4bStoresThePairs | packages/adapter-openclaw/src/ChatTurnWriter.ts:897-1111 | the dispatched turns are computeDelta's pairs in order, each in flight or stored once; when none is in flight the count is their number, and the file's is exactly when its last write succeeded |
| HandOver.CountIsFirstEmitted | packages/adapter-openclaw/src/ChatTurnWriter.ts:523-526 | for every run the first pair to send is the number of stored turns; after a restart never higher, and there exactly when the last attempt to write the count succeeded |
| HandOver.StartedPairs | packages/adapter-openclaw/src/ChatTurnWriter.ts:523-526 | for any durable state a started fire sends exactly the pairs whose index is above the cached watermark and not below the count |
| HandOver.FireSendsTheRest | packages/adapter-openclaw/src/ChatTurnWriter.ts:523-527 | after a conversation the fire sends the pairs from that point on, and does not start when there are none |
| HandOver.ExactIsAboutTheFire | packages/adapter-openclaw/src/ChatTurnWriter.ts:523-526 | exactness of the hand-over is about what the started fire sends |
| HandOver.HandOverEmitsTheRest | packages/adapter-openclaw/src/ChatTurnWriter.ts:523-527 | the fire a later agent_end starts sends exactly the pairs W4b has not stored, always in the same process, and after a restart if and only if the last attempt to write the count succeeded; it never skips one |
| HandOver.HandOverExactIff | packages/adapter-openclaw/src/ChatTurnWriter.ts:523-526 | with persists in flight, refused and tried again, the hand-over emits exactly the dispatched turns not yet stored at every point of a run if and only if each turn that is stored is the oldest dispatched one not yet stored and, for a restart, no attempt to write the count fails |
| HandOver.LateFirstTurnIsSkipped | packages/adapter-openclaw/src/ChatTurnWriter.ts:1050-1067 | a concrete run: the second of two turns is stored first and the process stops, and the first is below the count and never emitted |
| HandOver.RefusedTurnIsSkipped | packages/adapter-openclaw/src/ChatTurnWriter.ts:1088-1096 | another: the first turn is refused, its inbound text goes out with the second, which is stored, and the first reply is below the count and never emitted, restart or not |
| HandOver.TwoTurnsInFlight | packages/adapter-openclaw/src/ChatTurnWriter.ts:1024-1027 | two exchanges whose persists run side by side |
| Streaming.Stream.OnChunk | packages/adapter-openclaw/src/DkgChannelPlugin.ts:1673-1679 | a non-empty chunk joins the reply text and, unless the generator has left, the queue |
| Streaming.Stream.FindQueuedTerminal | packages/adapter-openclaw/src/DkgChannelPlugin.ts:1726-1729 | the last terminal item of the queue, if any |
| Streaming.Stream.PersistCancelledTurn | packages/adapter-openclaw/src/DkgChannelPlugin.ts:1720-1783 | queues one persistence for a cancelled turn, resolved from queue and dispatch |
| Streaming.Stream.OnSettled | packages/adapter-openclaw/src/DkgChannelPlugin.ts:1708-1718 | records the dispatch outcome, pushes its item, and settles a deferred cancellation |
| Streaming.Stream.Next | packages/adapter-openclaw/src/DkgChannelPlugin.ts:1790-1813 | one pull of the generator: a yield, or the end of the turn with its persistence |
| Streaming.Stream.Return | packages/adapter-openclaw/src/DkgChannelPlugin.ts:1814-1827 | leaving at a yield persists now, or waits for the dispatch to settle |
| StreamErrors.CancelIsConfluent | packages/adapter-openclaw/src/DkgChannelPlugin.ts:1656-1833 | without callback errors, for every interleaving of chunks, one outcome and a consumer that may stop at any yield, at most one persistence is queued, exactly one once dispatch and consumer are done, and its content depends on the dispatch alone |
| StreamErrors.ExactlyOnePersistence | packages/adapter-openclaw/src/DkgChannelPlugin.ts:1656-1833 | for every script of chunks and callback errors, every outcome and every interleaving: never more than one persistence, and exactly one once the dispatch has settled and the reader is done |
| StreamErrors.StoredIff | packages/adapter-openclaw/src/DkgChannelPlugin.ts:1720-1827 | exactly what a turn can be stored as: what a staying reader ends on; and, once text came first, the reply of a resolving dispatch, or for a failing one its own reason and any reason the callback reported |
| StreamErrors.ConfluentIff | packages/adapter-openclaw/src/DkgChannelPlugin.ts:1720-1827 | leaving early never changes what is stored if and only if no text comes first; or, for a failing dispatch, every callback error gives its reason; or, for a resolving one, there is no callback error, or the reply is blank and the first callback error says so |
| StreamErrors.CallbackErrorBreaksConfluence | packages/adapter-openclaw/src/DkgChannelPlugin.ts:1700-1700 | one chunk and one callback error: a resolving dispatch can be stored as a failure or as the reply, a failing one under either reason |
| Streaming.ReplyMeans | packages/adapter-openclaw/src/DkgChannelPlugin.ts:1673-1679 | the reply is the text of the chunks, in order |
| Streaming.FinalReplyMeans | packages/adapter-openclaw/src/DkgChannelPlugin.ts:51-56 | a reply is stored as it is unless there is nothing but blanks in it |
| Apportionment.AllocateOne | scripts/publisher-epoch-snapshot.ts:510-528 | one collection adds one floored share to its publisher in each refundable epoch, both ends included, and nothing elsewhere |
| Apportionment.Allocate | scripts/publisher-epoch-snapshot.ts:507-528 | every epoch-and-publisher cell is the sum of the shares due there, and the grand total is the sum over collections of refundable epochs times the floored share |
| Apportionment.ShareMeans | scripts/publisher-epoch-snapshot.ts:510-526 | in plain inequalities: a share of amount / (end - start) to the publisher in each epoch from start to end that is not past, and nothing else |
| Apportionment.NothingForPastEpochs | scripts/publisher-epoch-snapshot.ts:516-526 | nothing is refunded for epochs before the current one, nor to anyone without a collection covering the epoch |
| Apportionment.TotalMeans | scripts/publisher-epoch-snapshot.ts:516-526 | a running collection totals its share times the epochs from the current one to its end, one not started its share times all of its epochs, one that is over nothing |
| Apportionment.NewCollectionOverallocates | scripts/publisher-epoch-snapshot.ts:516-519 | a collection not yet started is given more than was prepaid if and only if its share exceeds the division's remainder |
| Apportionment.ScaleEpoch | scripts/publisher-epoch-snapshot.ts:547-577 | the loops keep the publishers, scale each share only when pool and total are positive and differ, and the total of the result is at most the pool and short of it by less than the number of publishers |
| Apportionment.ScalingFillsPool | scripts/publisher-epoch-snapshot.ts:551-577 | with pool and total positive the shares sum to at most the pool, fall short by less than the number of publishers, and keep the publishers' order |
| LogScan.NoteLogs | scripts/publisher-epoch-snapshot.ts:411-434 | the log loop is the fold of its entries |
| LogScan.NoteAllMeaning | scripts/publisher-epoch-snapshot.ts:411-434 | after a pass an id has the data of its last creation with a future end and the publisher of its first mint, and neither where there is none |
| LogScan.ScanEvents | scripts/publisher-epoch-snapshot.ts:389-471 | for every pattern of rejections and provider switches that lets the scan finish, the ranges read tile the block interval, sizes stay within 50 to 2500, and the maps equal one pass over the whole log |
| LogScan.ShrinkMeans | scripts/publisher-epoch-snapshot.ts:458-466 | a rejected range is halved down to 50 blocks, or the next provider is asked for 2500 once a half falls below 500 |
| LogScan.GrowMeans | scripts/publisher-epoch-snapshot.ts:438-440 | after a success the range is doubled up to 2500 blocks |
| LogScan.LimitsLetItFinish | scripts/publisher-epoch-snapshot.ts:398-471 | with providers that accept ranges within limits of at least 50 blocks the scan finishes |
| LogScan.DirectScan | scripts/publisher-epoch-snapshot.ts:300-345 | the simple id scan stops at the first batch boundary after 100000 past ids in a row, or at the end |
| LogScan.FastScan | scripts/publisher-epoch-snapshot-fast.ts:253-289 | the batched id scan visits the same ids in the same order but checks only between rounds of four batches |
| LogScan.VisitedMeaning | scripts/publisher-epoch-snapshot.ts:310-345 | the future ids are exactly those among the visited whose end is in the future, in descending order, and the counter is the length of the last run of past ids |
| LogScan.SimpleIsPrefixOfFast | scripts/publisher-epoch-snapshot-fast.ts:253-289 | on the same data the simple scan's future ids are a prefix of the fast scan's |
| Aggregates.Aggregate | scripts/generate-aggregates.ts:31-50 | one entry per address read, each with the sum of its own amounts, a grand total equal to all that was read and to the sum of the entries |
| Payout.Wallet.Transfer | scripts/distribute-publisher-trac.ts:243-268 | one transfer, its entry in the ledger in memory and the saved file, as the payout step does it, a failing save included |
| Payout.Wallet.Run | scripts/distribute-publisher-trac.ts:183-269 | a run of the script over ledger, wallet and chain equals the run function, early exits included |
| Payout.AlreadyIsLedgerSum | scripts/distribute-publisher-trac.ts:182-201 | replaying the ledger against the file finds exactly what the ledger paid |
| Payout.NeverShort | scripts/distribute-publisher-trac.ts:213-268 | a run that passes the balance check never lacks the tokens for a transfer, even when receipts are lost |
| Payout.RunsKeepSound | scripts/distribute-publisher-trac.ts:223-269 | any series of runs keeps the books: no ledger entry twice, transfers are ledger entries plus those lost to a missing receipt or a failed save, and no wei appears or vanishes |
| Payout.PaymentsAccountedFor | scripts/distribute-publisher-trac.ts:223-269 | over every series of runs a publisher is paid once for its ledger entry and once for each transfer no ledger file accounts for, nobody else is paid, and the ledger never exceeds the file |
| Payout.PaidAtMostOnce | scripts/distribute-publisher-trac.ts:183-269 | when every transfer either moves nothing or reaches the ledger file, each publisher is paid at most once, then in full, and what was paid is the ledger sum |
| Payout.PaidOnceIff | scripts/distribute-publisher-trac.ts:183-269 | from any books a series of runs can reach, no further runs of that kind pay anyone twice if and only if nothing is lost so far |
| Payout.CleanRunCompletes | scripts/distribute-publisher-trac.ts:208-269 | a run in which every transfer confirms completes the grand total, and every later run has nothing to do |
| Payout.RunHappensIff | scripts/distribute-publisher-trac.ts:182-216 | a run happens unless every publisher is in the ledger or, outside a dry run, the balance is below what the others are owed |
| Payout.DryRunMovesNothing | scripts/distribute-publisher-trac.ts:236-241 | a dry run moves and records nothing and reports what a clean run would pay |
| Payout.RunGoesOnBelowThree | scripts/distribute-publisher-trac.ts:223-268 | with fewer than three failures every publisher not in the ledger has been tried |
| Payout.ConfirmedArePaid | scripts/distribute-publisher-trac.ts:243-268 | and whoever's transfer was confirmed is in the ledger |
| Payout.RunStopsAtThree | scripts/distribute-publisher-trac.ts:264-267 | after the third failure nothing more is tried |
| Payout.LostReceiptIsPaidAgain | scripts/distribute-publisher-trac.ts:243-268 | a publisher whose transfer was mined but whose receipt was lost is paid again by the next clean run |
| Payout.LostReceiptReachable | scripts/distribute-publisher-trac.ts:243-268 | one run with one lost receipt reaches that state |

## Left out

- CCL values other than strings, integers, booleans and the unbound value (null, arrays, floats); integers beyond the range a JavaScript number represents exactly; thresholds of counts are any real.
- compareTuples is taken as a total order; locale-dependent ties between different strings are not modelled.
- CclEvaluator.Evaluator.EvaluateConditions: for an invalid condition list only the direction from error to invalidity is stated, because a malformed condition after an empty binding list is never reached.
- YAML loading and the wording of validation errors; bundled policies and fact resolution from RDF.
- The reference evaluators in JavaScript and Python, which are the same algorithm.
- Surface compiler error messages and line numbers: a failing compilation is one value.
- AgentEndProof.NoGap: covers runs of W4a with the direct channel's markers, without W4b sends and without resets, which rewrite the transcript.
- Runs in which W4a and W4b write the same turns: their content-only stamps and in-flight checks are modelled step by step (OwnedByBatch, Reserve, OnPersisted), but no exactness is claimed across the two, where the code accepts duplicates and losses as a trade-off.
- The pattern of recalled-memory stripping, text extraction from multi-modal content and the sanitizing of id fields.
- Promise chains, the reset gate, draining at shutdown and the tracking of in-flight jobs; a migration and a reset run as one step, as their synchronous parts do.
- Migration.SuccessfulMigrationJoins: an unparseable destination file counts as empty, and what its backup contains is not modelled.
- Retrying of the direct channel's marker writes after the daemon has stored the turn, beyond the marker step of the protocol.
- StreamErrors.CancelIsConfluent: timeout, shutdown and errors reported through the dispatch callback are outside it; StoredIff and ConfluentIff cover the last in full.
- Float conversion and sorting by float amounts in the snapshot and aggregate scripts; the order of the distribution file plays no part in any claim.
- The join of creation and mint data and the detail reads after the id scans, which only filter and copy.
- A ledger file left half written; a save either happens or leaves the old file.
- RPC, contract calls, environment loading, caching files and console reporting.
- Node plugin tools, hook registration, HTTP server, SDK loading, authorization, the other adapters, keystores and wallets.
