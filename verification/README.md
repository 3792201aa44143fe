# Expression-tree calculator: a verified model

This Dafny project models the incremental expression-tree calculator, the named
tree it calculates over and the session server in front of it, and proves what
they promise.  `dafny verify dfyconfig.toml` checks it.

## What is modelled

**Incremental calculation** (`Syntax`, `Paths`, `Policy`, `Evaluation`,
`Inheritance`, `EvaluationFacts`, `Preparation`, `Engine`, `EngineComplete`,
`EngineProgress`, `BlockOrigins`, `CycleOrigins`, `Freshness`, `Ledger`, `MemoReuse`,
`Forcing`, `Calculator`).
Preparing a cell's expression records the keys it looked at: its source, name
slots, directory listings, policies, the force epoch.  `Evaluation.Body` is that
evaluation, written so that it asks for one cell read at a time; `ContentOf` says
what a key stands for.  `Engine.Verify` is the contract of the incremental
engine: a memo is reused only if every key is at its observed revision and every
cell it read verifies to the same identity.  A `Derivation` is evaluation from
scratch.  The argument has two sides that meet in `Freshness.IncrementalEqualsFresh`:
*observation completeness* (`ObservationsDecide`: an evaluation depends on nothing
but the keys it recorded and the answers it got) and *invalidation completeness*
(the `…Covers` lemmas: every mutator raises every key whose content it changes).
The class `ExprTreeCalc` has "every memo is trustworthy" as its invariant, so
what `ExecuteRoot` promises holds on every run of mutators and requests.
Against derivations, verification is proved sound (`VerifySound`), complete
(`VerifyComplete`) and, given the depth and work a derivation bounds, total
(`VerifyProgress`).  `Preparation` says what an evaluation is without the functions
that compute it: which places of an expression are read, what is read there, how the
expression is spelled afterwards and what the host is shown; `Inheritance` does the
same for policies and authority, `Forcing` and `MemoReuse` say what a request must
and must not evaluate again.

**Namespace and flat index** (`Namespaces`, `PathText`, `TreeIndex`,
`TreeRecords`, `Shields`, `TreeRuntime`, `Mounts`).  The namespace is a forest held in a
parent/name record map and a children map; a ghost path for every directory makes
acyclicity and the upward loops provable.  The tree keeps a second, flat map by
full path, the cell records, the calculator's sources and the stored sources.
`TreeState`'s invariant says that all five agree, except for orphans: cells the
namespace took before their source turned out not to be projectable.
The flat map is keyed by paths here and by text in the source; `PathText` proves
that the text tests and replacements used there are the path ones.  `Shields` proves
that no creation, move, deletion or edit changes anything at or below a read-only
mount.

**Session server** (`Sessions`, `ServerProtocol`, `TurnEffects`, `Registry`).  `World`
is a state machine whose steps are the turns the server takes under its lock, by any
number of threads; runtime work happens between a reserving and a finishing turn.
`ProtocolHolds` speaks about every interleaving; `TurnEffects` says of the turns what
they record and what they leave alone, on the fields of sessions and events.  The
classes `Registry` and `SessionRecord` are the code that takes those turns, each
method proved to be the step of the state machine.

**Automatic scheduler** (`Scheduling`, `Scheduler`).  Selection, bypass counters
and fairness as facts about queues, with a starvation run that shows the
hypothesis on older entries is needed; the class `Scheduler` is proved against
them, and the bounds hold on every run of its operations.

**Derived snapshots** (`Texts`, `Records`, `GraphCodec`, `StateCodec`,
`Persistence`, `SnapshotGuards`), **bounded faces** (`Faces`, `FaceCosts`) and
**expedition books** (`BookCodec`, `BookTails`, `BookEdits`): printers with their
parsers and what the parsers refuse, a stack walk with its recursive specification,
and edits with what they leave true for the text.

## Where the code differs from what one would expect

- A frozen trigger is documented to keep the committed memo.  It does not: freezing
  raises the policy key, so the memo is never current again (`FrozenIsStale`), and
  the next request for the cell answers a block and stores it over the memo
  (`FrozenIsBlocked`).  `FrozenExactly` is the exact condition: this block is
  answered if and only if the trigger is frozen.  What is kept is the last good
  value: setting the policy leaves everything shown as it is, and `ExecuteRoot`
  replaces a last good value only on success.
- `create_cell` and `create_dir` trust the reservation and check neither the parent
  nor the id; `AddCellSane` and `AddDirSane` give the exact condition under which a
  forest is left, `CreateCell` and `CreateDir` state it of the code, and
  `TreeState` always meets it.
- `new_cell` inserts into the namespace before it projects the source; a failed
  projection leaves an orphan that blocks its name, `unmount` and `delete` of the
  directory above it.  `NewCell`, `Unmount`, `Delete` and `MoveEntry` say exactly
  when.
- A book option holding an empty string is written as absence.  `RoundTrip` gives
  the exact condition, `BlankChoiceIsLost` a book, and the edits say which of them
  can bring a blank in.
- Restoring a queue snapshot may change the queue under an unchanged generation
  (`RestoreIsNotTold`), so the token theorem excepts it.
- A value with a map key that is no symbol is written to the derived snapshot but
  not read again, and one such value makes the whole snapshot corrupt: every restart
  rebuilds everything until the cell changes.  `PersistedBack` gives the exact
  condition.
- The checksum of a derived snapshot is a 64-bit identity, so no such function tells all
  bodies apart.  `HydratedIsGenuine` needs nothing of it; `AlteredSnapshotIsRebuilt`
  speaks of the changed bodies whose identity differs.
- With four older entries that always exhaust their budget an automatic cell can
  wait forever (`Crowd.Starvation`); with three it cannot (`SelectedBySeventh`, and
  `SelectedBySeventhOnRuns` for whole runs of the scheduler).

## Model

| member | source | states |
|---|---|---|
| Calculator.ExprTreeCalc.constructor | crates/sim-expr-tree-calc/src/calc.rs:181-207 | A new calculator is empty and every memo in it (there is none) is trustworthy: the class invariant all other methods keep |
| Calculator.ExprTreeCalc.SetCell | crates/sim-expr-tree-calc/src/calc.rs:227-247 | The source is stored and its shown result forgotten, exactly the cell key, its name slot and listing when it is new, and the cell keys of failed roots are raised, and every memo kept stays trustworthy against the new sources |
| Calculator.ExprTreeCalc.RemoveCell | crates/sim-expr-tree-calc/src/calc.rs:250-265 | The source is gone and its shown result forgotten, exactly the cell, name-slot and listing keys and the failed roots are raised, and every memo stays trustworthy |
| Calculator.ExprTreeCalc.MoveCell | crates/sim-expr-tree-calc/src/calc.rs:268-298 | The source is at its new path, the results shown at both places are forgotten, and exactly the keys of both places and of the failed roots are raised, also when nothing was there to move; every memo stays trustworthy |
| Calculator.ExprTreeCalc.BindName | crates/sim-expr-tree-calc/src/calc.rs:301-309 | The name is bound, exactly its slot is raised, and every memo stays trustworthy |
| Calculator.ExprTreeCalc.BindValue | crates/sim-expr-tree-calc/src/calc.rs:312-320 | The value is bound, exactly the slot spelled like the symbol is raised, and every memo stays trustworthy |
| Calculator.ExprTreeCalc.InvalidateCellSource | crates/sim-expr-tree-calc/src/calc/engine.rs:97-104 | Raises exactly the cell key, or the cell, slot and parent-listing keys when the namespace changed |
| Calculator.ExprTreeCalc.SetTreeCalcPolicy | crates/sim-expr-tree-calc/src/calc/session.rs:42-50 | A tree calculation patch raises the policy key of every stored cell and of nothing else; what is shown and the memos stay, and every memo stays trustworthy |
| Calculator.ExprTreeCalc.SetDirCalcPolicy | crates/sim-expr-tree-calc/src/calc/session.rs:53-63 | A directory calculation patch raises the policy keys of exactly the stored cells at or below the directory; what is shown and the memos stay, and every memo stays trustworthy |
| Calculator.ExprTreeCalc.SetCellCalcPolicy | crates/sim-expr-tree-calc/src/calc/session.rs:65-77 | A cell calculation patch, a frozen trigger included, raises exactly that cell's policy key; the current and last good results and the memos stay, and every memo stays trustworthy |
| Calculator.ExprTreeCalc.SetTreeAuthorityPolicy | crates/sim-expr-tree-calc/src/calc/session.rs:91-100 | The same as for calculation policies, for a tree authority patch and the authority keys |
| Calculator.ExprTreeCalc.SetDirAuthorityPolicy | crates/sim-expr-tree-calc/src/calc/session.rs:102-112 | The same as for calculation policies, for a directory authority patch |
| Calculator.ExprTreeCalc.SetCellAuthorityPolicy | crates/sim-expr-tree-calc/src/calc/session.rs:114-126 | The same as for calculation policies, for a cell authority patch |
| Calculator.ExprTreeCalc.SetCodecRegistryRevision | crates/sim-expr-tree-calc/src/calc/session.rs:141-148 | Raises exactly the codec-registry key every evaluation observes; every memo stays trustworthy |
| Calculator.ExprTreeCalc.CommitReceipts | crates/sim-expr-tree-calc/src/calc/engine.rs:197-281 | Clears the attempts of the request, records the last attempt of each cell as its receipt, and raises the force epoch of exactly the cells with an attempt that ended in a trigger block or a missing capability |
| Calculator.ReceiptIsLast | crates/sim-expr-tree-calc/src/calc/engine.rs:266-270 | The receipt of a cell is that of its last attempt in the request, or stays what it was if the request made none |
| Calculator.ExprTreeCalc.CommitResult | crates/sim-expr-tree-calc/src/calc/engine.rs:170-195 | The result is shown as current; only a success becomes the last good value; shown values, last good values, failed and volatile cells stay consistent |
| Calculator.ExprTreeCalc.ExecuteRoot | crates/sim-expr-tree-calc/src/calc/engine.rs:112-168 | On every run of mutators and requests: a definite answer is derivable from scratch from the present inputs; where neither the root nor a cell it reads is trigger-blocked, no answer but the derived one or an interruption is given, and with the depth and work the derivation takes it is given; unknown means unregistered; a stored cell given some budget is answered its frozen block exactly if it is frozen; what is answered is from a memo up to date at the request, every memo is as it was or up to date, and every cell whose memo changed has the outcome it is left with as its receipt; a failure leaves the last good value as it was; memos and shown results stay trustworthy |
| Calculator.ExprTreeCalc.VerifyRoot | crates/sim-expr-tree-calc/src/calc/engine.rs:112-168 | The engine's part of a request: the same promises about the answer, the memos and the receipts, before anything is shown |
| Calculator.LatestReceipts | crates/sim-expr-tree-calc/src/calc/engine.rs:266-281 | Where every evaluation is entered, the receipt of every cell whose memo changed is the outcome it is left with |
| Ledger.VerifyEnters | crates/sim-expr-tree-calc/src/calc/engine.rs:197-281 | A verification enters every evaluation it makes as an attempt, the last of which is what the cell is left with, touches no other cell, and makes no more of them than the work it is given |
| Forcing.VerifyUpdates | crates/sim-expr-tree-calc/src/calc/engine.rs:5-95 | A verification loses no memo and leaves every memo as it was or up to date; what it answers is from an up-to-date memo |
| Forcing.RedoneNow | crates/sim-expr-tree-calc/src/calc/session.rs:298-309 | An up-to-date memo of a forced cell was made after the forcing |
| Forcing.RedoneStays | crates/sim-expr-tree-calc/src/calc/session.rs:317-329 | The requests for later roots leave a forced cell evaluated again |
| MemoReuse.StandingIsReused | crates/sim-expr-tree-calc/src/calc/engine.rs:5-95 | If a cell and every cell below it hold memos that are up to date and were made from one another's answers, a verification with the work for it answers the memo and evaluates nothing: the graph, its attempts included, is unchanged |
| Calculator.ExprTreeCalc.CalculateCells | crates/sim-expr-tree-calc/src/calc/session.rs:282-329 | Every root answered is faithful to the present inputs under the one request all roots share and under its own budget; every root before the last one answered succeeded or continues on errors, and if a root is left out, the last one answered failed and stops on errors; the cells the mode forces have their force epochs raised, and every forced root that was evaluated has a memo made after that |
| Calculator.BudgetIsTightest | crates/sim-expr-tree-calc/src/calc/session.rs:310-322 | A root runs with no more work and depth than the caller, its own policy and the hard limits allow, and with one of the three |
| Calculator.ExprTreeCalc.Force | crates/sim-expr-tree-calc/src/calc/session.rs:298-309 | Forcing raises exactly the force epochs of the given cells, makes the memo of each of them stale and keeps the memos trustworthy |
| Freshness.ForcedIsStale | crates/sim-expr-tree-calc/src/calc/session.rs:298-309 | Once its force epoch is raised, the memo of a cell is not current and cannot be reused |
| Calculator.VerifyAnswers | crates/sim-expr-tree-calc/src/calc/engine.rs:112-168 | What a verification answers over trustworthy memos is faithful to from-scratch evaluation, sound, complete and with enough budget total, and the graph it leaves is tidy |
| Freshness.IncrementalEqualsFresh | crates/sim-expr-tree-calc/src/tests/verification.rs:111-157 | Incremental equals full recomputation: for a cell that is not trigger-blocked and reads no blocked cell, a verification over any trustworthy memos and one over an empty graph, with any revisions and work, give the same outcome when both finish, unless both are contextual (a block or a cycle) |
| Freshness.DefiniteAnswersAgree | crates/sim-expr-tree-calc/src/calc/engine.rs:112-168 | Whatever two requests ask, block and find memoised over the same inputs, two answers about one cell that are neither a block nor a cycle are equal |
| Freshness.EnoughBudgetAnswers | crates/sim-expr-tree-calc/src/calc/engine.rs:112-168 | Total correctness: with the depth and work its derivation takes, an unblocked cell is answered, and with the derived outcome, whatever is memoised |
| Freshness.ChangeKeepsRest | crates/sim-expr-tree-calc/src/calc.rs:227-320 | Any change of the inputs that raises every key whose content differs keeps every memo trustworthy: the invalidation side of the cache is complete |
| Freshness.ReceiptsRestoreRest | crates/sim-expr-tree-calc/src/calc/engine.rs:197-281 | Raising the force epochs of the blocked cells of a request makes every remaining reusable memo context-free again, transitive readers included |
| Freshness.BlockIsNeverReused | crates/sim-expr-tree-calc/src/calc/attempt.rs:82-136 | Between requests no stored Blocked or RequiredCapability memo is reusable: a later request re-executes the cell |
| Freshness.BlocksAreExplained | crates/sim-expr-tree-calc/src/calc/attempt.rs:82-119 | Every block a request answers is one of that request: the cell it names is blocked by its own trigger here, with the reason given, or by its cycle policy |
| Freshness.CyclesAreReal | crates/sim-expr-tree-calc/src/calc/model.rs:107-110 | Every cycle a request answers is there: its trail lists stored cells, each of which asks for the next on some answers to its earlier reads, with the repeated one at the end, whatever earlier requests left behind |
| CycleOrigins.VerifyReal | crates/sim-expr-tree-calc/src/calc/engine.rs:5-95 | Verification answers no cycle that does not close up, reused, recomputed or recorded from a read |
| CycleOrigins.BodyMakesNoCycle | crates/sim-expr-tree-calc/src/calc/eval.rs:43-139 | A cell ends in a cycle only if one of its reads answered it |
| Freshness.FrozenIsStale | crates/sim-expr-tree-calc/src/calc/policy.rs:17-18 | The committed memo of a frozen cell is never current: no request can reuse it |
| Freshness.FrozenIsBlocked | crates/sim-expr-tree-calc/src/calc/attempt.rs:82-103 | Asked for with some depth and work, a frozen cell is answered its frozen block, which is stored over its memo; every other memo stays |
| Freshness.FrozenExactly | crates/sim-expr-tree-calc/src/calc/attempt.rs:82-103 | A stored cell asked for with some depth and work is answered its frozen block if and only if its effective trigger is frozen |
| BlockOrigins.PrepareMakesNoBlock | crates/sim-expr-tree-calc/src/calc/eval.rs:159-307 | Preparing an expression makes up no block and no cycle: one it ends in is the answer to one of its reads |
| BlockOrigins.BodyExplained | crates/sim-expr-tree-calc/src/calc/eval.rs:43-139 | What a cell evaluates to is explained by present policies if the answers to its reads are |
| BlockOrigins.VerifyExplained | crates/sim-expr-tree-calc/src/calc/engine.rs:5-95 | Verification keeps every block explained: reused, recomputed or recorded from a read |
| Freshness.StoringCovers | crates/sim-expr-tree-calc/src/calc.rs:227-247 | The keys raised by set_cell include every key whose observable content the new source changes |
| Freshness.RemovingCovers | crates/sim-expr-tree-calc/src/calc.rs:250-265 | The keys raised by remove_cell include every key whose content changes |
| Freshness.MovingCovers | crates/sim-expr-tree-calc/src/calc.rs:268-298 | The keys raised by move_cell include every key whose content changes |
| Freshness.BindingNameCovers | crates/sim-expr-tree-calc/src/calc.rs:301-309 | The slot raised by bind_name is the only key whose content changes |
| Freshness.BindingValueCovers | crates/sim-expr-tree-calc/src/calc.rs:312-320 | The slot raised by bind_value is the only key whose content changes, though several symbols can share its text |
| Freshness.TreeCalcCovers | crates/sim-expr-tree-calc/src/calc/engine.rs:354-372 | A tree patch changes the effective calculation policy of no stored cell whose key is not raised |
| Freshness.DirCalcCovers | crates/sim-expr-tree-calc/src/calc/engine.rs:354-372 | A directory patch changes the effective calculation policy of no stored cell outside the directory |
| Freshness.CellCalcCovers | crates/sim-expr-tree-calc/src/calc/session.rs:65-77 | A cell patch changes the effective calculation policy of no other cell |
| Freshness.TreeAuthorityCovers | crates/sim-expr-tree-calc/src/calc/engine.rs:374-392 | A tree authority patch changes the effective authority of no stored cell whose key is not raised |
| Freshness.DirAuthorityCovers | crates/sim-expr-tree-calc/src/calc/engine.rs:374-392 | A directory authority patch changes the effective authority of no stored cell outside the directory |
| Freshness.CellAuthorityCovers | crates/sim-expr-tree-calc/src/calc/session.rs:114-126 | A cell authority patch changes the effective authority of no other cell |
| Freshness.RegistryCovers | crates/sim-expr-tree-calc/src/calc/session.rs:141-148 | A new registry revision changes the content of the codec-registry key alone |
| Engine.DerivationsAgree | crates/sim-expr-tree-calc/src/calc/eval.rs:43-139 | From-scratch evaluation is deterministic: two derivations of one cell are the same tree |
| Engine.SubtreesInOrder | crates/sim-expr-tree-calc/src/calc/eval.rs:43-139 | A derivation answers exactly the reads the cell asks for, in the order it asks, and ends in its outcome |
| Engine.GateIsOpen | crates/sim-expr-tree-calc/src/calc/attempt.rs:82-103 | Unless the trigger blocks it, a cell evaluates as it would as a directed root |
| Engine.CommitTidy | crates/sim-expr-tree-calc/src/calc/engine.rs:5-95 | Committing a finished evaluation keeps the memo graph tidy: stamps, reads and identities match what evaluation observed |
| Engine.VerifySound | crates/sim-expr-tree-calc/src/calc/engine.rs:5-95 | Whatever a verification answers, reused or recomputed, is backed by a derivation from scratch unless it is contextual, and the graph stays tidy |
| Engine.ReuseSound | crates/sim-expr-tree-calc/src/calc/engine.rs:5-95 | A memo at its observed revisions whose reads verify to the same identities is backed by a derivation of the present inputs |
| Engine.RevalidateSound | crates/sim-expr-tree-calc/src/calc/engine.rs:5-95 | Reads that re-verify as unchanged are all backed by derivations of the present inputs |
| Engine.ExecuteSound | crates/sim-expr-tree-calc/src/calc/engine.rs:5-95 | A (re-)evaluation that consumes backed reads answers with a backed outcome |
| EngineComplete.VerifyComplete | crates/sim-expr-tree-calc/src/calc/engine.rs:5-95 | If from-scratch evaluation derives an outcome and neither the cell nor a cell it reads is trigger-blocked, a verification that finishes answers that outcome and no other, whatever memos it met |
| EngineComplete.ReuseComplete | crates/sim-expr-tree-calc/src/calc/engine.rs:5-95 | Reusing a memo never hides the derived outcome |
| EngineComplete.RevalidateComplete | crates/sim-expr-tree-calc/src/calc/engine.rs:5-95 | Stored reads that re-verify as unchanged are exactly the reads of the derivation, in order |
| EngineComplete.ExecuteComplete | crates/sim-expr-tree-calc/src/calc/engine.rs:5-95 | Execution that follows a derivation so far ends in its outcome |
| EngineComplete.NoFalseCycle | crates/sim-expr-tree-calc/src/calc/attempt.rs:105-119 | A cell with a derivation is never among the cells waiting for it, so no cycle is reported where there is none |
| EngineProgress.VerifyProgress | crates/sim-expr-tree-calc/src/calc/engine.rs:5-95 | Verification finishes within the height and the work bound of the derivation, whatever memos it meets, stale ones included |
| EngineProgress.ReuseProgress | crates/sim-expr-tree-calc/src/calc/engine.rs:5-95 | Checking a memo and, where it is stale, evaluating again costs each read at most twice |
| EngineProgress.RevalidateProgress | crates/sim-expr-tree-calc/src/calc/engine.rs:5-95 | Re-verifying stored reads finishes within the work of the subtrees it follows |
| EngineProgress.ExecuteProgress | crates/sim-expr-tree-calc/src/calc/engine.rs:5-95 | Evaluation finishes within the work of the reads still to come |
| Evaluation.WalkAncestors | crates/sim-expr-tree-calc/src/calc/eval/namespace.rs:23-59 | The upward loop looks at exactly the slots and listings of the specified walk, in order, and ends in the same read |
| Preparation.PreparationPlays | crates/sim-expr-tree-calc/src/calc/eval.rs:159-341 | Preparing an expression keeps every constructor and replaces exactly the unbound symbols and the reference calls in visited positions by value-0, value-1, … from left to right; each is bound to the value delivered there, the answer consumed or the missing text of that name; a read not answered yet is asked for, and the first failure ends it |
| Preparation.EnvironmentShows | crates/sim-expr-tree-calc/src/calc/eval/namespace.rs:147-163 | The evaluator is shown, for every symbol of the prepared expression, the value read for it or else its binding in the tree, and no other symbol |
| Preparation.GateMeans | crates/sim-expr-tree-calc/src/calc/attempt.rs:82-103 | Before anything is read: a trigger that does not let the cell run answers its block with its reason, then the least missing required capability is answered, then a cell without a source answers its missing text; nothing is consumed |
| Preparation.EvaluationMeans | crates/sim-expr-tree-calc/src/calc/eval.rs:43-139 | A stored cell that may run asks for the first read not answered, ends in the first failed read up to its cycle policy, and otherwise in what the host answers on the spelled-out expression, shown the values read |
| Preparation.DerivationMeans | crates/sim-expr-tree-calc/src/calc/eval.rs:43-139 | A derivation with a value reads the places of the expanded source from its subtrees, each once and in order, and its value is what the host answers on the spelled-out expression |
| EvaluationFacts.NearestAncestorWins | crates/sim-expr-tree-calc/src/calc/eval/namespace.rs:23-59 | A bare name resolves to the cell in the nearest enclosing directory that holds one, and is unresolved exactly if no enclosing directory does |
| EvaluationFacts.SlotDecidesBinding | crates/sim-expr-tree-calc/src/calc/eval/namespace.rs:147-163 | Equal content of a name slot means the same binding of every symbol spelled that way |
| EvaluationFacts.ListingDecidesMember | crates/sim-expr-tree-calc/src/calc/eval/namespace.rs:106-126 | Equal content of a directory listing means the same presence of every path in it |
| EvaluationFacts.LookupAgrees | crates/sim-expr-tree-calc/src/calc/eval/namespace.rs:23-59 | If no key recorded during a name lookup has changed content, the lookup gives the same result and records the same keys |
| EvaluationFacts.PrepareAgrees | crates/sim-expr-tree-calc/src/calc/eval.rs:159-307 | If no key recorded while preparing an expression has changed content, preparation gives the same expression, reads and keys |
| EvaluationFacts.NamesCovered | crates/sim-expr-tree-calc/src/calc/eval.rs:159-307 | Every symbol left in a prepared expression is a dependency or has its slot among the recorded keys |
| EvaluationFacts.EnvironmentAgrees | crates/sim-expr-tree-calc/src/calc/eval/namespace.rs:147-163 | Unchanged recorded keys mean the evaluator sees the same bindings for every symbol of the prepared expression |
| EvaluationFacts.BodyKeys | crates/sim-expr-tree-calc/src/calc/eval/namespace.rs:89-104 | Every evaluation, however it ends, has recorded the force epoch, policy, authority and codec keys of its cell and otherwise only slots and listings |
| EvaluationFacts.ObservationsDecide | crates/sim-expr-tree-calc/src/calc/eval.rs:43-139 | Observation completeness: if no recorded key has changed content, re-evaluation with the same answers gives the same outcome, reads and keys |
| EvaluationFacts.BodyCut | crates/sim-expr-tree-calc/src/calc/eval.rs:43-139 | Withholding later answers makes evaluation stop at exactly the first missing read; answers never consumed do not matter |
| EvaluationFacts.FailurePropagates | crates/sim-expr-tree-calc/src/calc/eval.rs:324-341 | A failed read is the cell's outcome, up to its cycle policy, and ends the evaluation there |
| EvaluationFacts.BodyWaits | crates/sim-expr-tree-calc/src/calc/eval/namespace.rs:61-87 | Evaluation only ever waits for a cell that is stored, and never re-asks the read it was just answered |
| EvaluationFacts.AnswerAdvances | crates/sim-expr-tree-calc/src/calc/eval.rs:324-341 | Answering the pending read consumes exactly one more answer |
| Policy.Derive | crates/sim-expr-tree-calc/src/calc/policy.rs:168-195 | The loop over authority patches ends in the closed form: the intersection of all ceilings less everything denied anywhere |
| Policy.FirstMissingIs | crates/sim-expr-tree-calc/src/calc/policy.rs:220-228 | No capability is reported missing exactly if all required ones are held; otherwise the reported one is required, not held and the least such |
| Policy.DirectoryReach | crates/sim-expr-tree-calc/src/calc/policy.rs:262-279 | A calculation patch on a directory that is no ancestor of a cell does not affect it |
| Inheritance.PolicyInherits | crates/sim-expr-tree-calc/src/calc/policy.rs:262-279 | Every field of the effective policy is the one set by the innermost patch that sets it: the cell's own, else the longest strict-prefix directory's down to the root, else the tree's, else the default |
| Policy.AuthorityReach | crates/sim-expr-tree-calc/src/calc/policy.rs:281-298 | An authority patch on a directory that is no ancestor of a cell does not affect it |
| Inheritance.AuthorityInherits | crates/sim-expr-tree-calc/src/calc/policy.rs:281-298 | A capability is held exactly if it is in the ceiling and let through by the tree's patch, by every strict-prefix directory's patch and by the cell's own; it is required exactly if one of those patches requires it |
| Policy.AncestorsArePrefixes | crates/sim-expr-tree-calc/src/calc/policy.rs:318-343 | The ancestor directories of a cell are exactly the root and its strict segment prefixes |
| PathText.AncestorDirectories | crates/sim-expr-tree-calc/src/calc/policy.rs:328-343 | Splitting the text of a path and joining it up again yields exactly the keys of the strict prefixes, root first |
| PathText.KeyInjective | crates/sim-expr-tree-calc/src/calc/eval/namespace.rs:191-197 | Two paths of legal segments with one text key are one path |
| PathText.SelectionIsPrefix | crates/sim-lib-expr-tree/src/runtime.rs:418-428 | For a non-root subtree, equal text or text prefix plus slash selects exactly the paths at or below it |
| PathText.RootSelectsOnlyItself | crates/sim-lib-expr-tree/src/runtime.rs:418-428 | The same text test for the root selects the root alone |
| PathText.UnderIsPrefix | crates/sim-lib-expr-tree-server/src/session.rs:383-388 | The session's text test for being under a path is the segment-prefix test, also for the root |
| PathText.EmptinessIsPrefix | crates/sim-lib-expr-tree/src/runtime.rs:398-409 | The text test that decides emptiness of a directory finds exactly the entries strictly below it |
| PathText.SuffixIsRebase | crates/sim-lib-expr-tree/src/runtime.rs:432-434 | Replacing the text prefix of a moved key is replacing its segment prefix |
| PathText.SegmentsOfKey | crates/sim-lib-expr-tree/src/runtime.rs:435-439 | Splitting the key of a legal path gives its segments back |
| Namespaces.Forest.PathsInjective | crates/sim-expr-tree-core/src/namespace.rs:234-260 | In a sane namespace no two directories have one path |
| Namespaces.Forest.DirResolves | crates/sim-expr-tree-core/src/namespace.rs:234-260 | Every directory is found by resolving its path name by name: parent links and the children map are inverse all the way to the root |
| Namespaces.Forest.CellResolves | crates/sim-expr-tree-core/src/namespace.rs:204-232 | Every cell is found by resolving its path name by name |
| Namespaces.Forest.ResolvedIsThere | crates/sim-expr-tree-core/src/namespace.rs:163-175 | A path resolves to no node but the one that has it |
| Namespaces.Forest.AddCellSane | crates/sim-expr-tree-core/src/namespace.rs:204-232 | Creating a cell keeps the forest if and only if the parent exists and the id is new |
| Namespaces.Forest.AddDirSane | crates/sim-expr-tree-core/src/namespace.rs:234-260 | Creating a directory leaves a forest, under some assignment of paths, if and only if the parent exists and the id is new |
| Namespaces.Forest.NoSuchForest | crates/sim-expr-tree-core/src/namespace.rs:234-260 | A directory put under a missing parent, or put a second time, leaves no forest under any assignment of paths |
| Namespaces.Forest.RelinkCellSane | crates/sim-expr-tree-core/src/namespace.rs:262-300 | Moving a cell to a free slot keeps the forest |
| Namespaces.Forest.RelinkDirSane | crates/sim-expr-tree-core/src/namespace.rs:302-348 | Reparenting a directory outside its own subtree keeps the forest: children, parents and names stay inverse and every directory reaches the root |
| Namespaces.Forest.CycleBreaksForest | crates/sim-expr-tree-core/src/namespace.rs:316-322 | Reparenting a directory at or below itself leaves no forest under any path assignment, so the cycle check is necessary |
| Namespaces.Forest.DropCellSane | crates/sim-expr-tree-core/src/namespace.rs:384-399 | Deleting a cell keeps the forest |
| Namespaces.Forest.DropDirSane | crates/sim-expr-tree-core/src/namespace.rs:401-429 | Deleting a childless directory keeps the forest |
| Namespaces.Namespace.constructor | crates/sim-expr-tree-core/src/namespace.rs:75-90 | A new namespace is a forest of the root alone, with no reservation, counter or writer |
| Namespaces.Namespace.IsDescendant | crates/sim-expr-tree-core/src/namespace.rs:530-539 | The upward loop ends and answers whether the ancestor's path is a prefix of the candidate's |
| Namespaces.Namespace.Lineage | crates/sim-expr-tree-core/src/namespace.rs:431-452 | The upward walk ends and collects the parent chain from the directory to the root |
| Namespaces.Namespace.EffectiveDirPolicy | crates/sim-expr-tree-core/src/namespace.rs:431-452 | The effective policy is the patches from the root down to the directory, later ones winning; a missing directory is an error |
| Namespaces.Forest.NearestPatchWins | crates/sim-expr-tree-core/src/namespace.rs:431-452 | A setting in force at a directory is that of the innermost directory on its path that sets it |
| Namespaces.GeneratedNames | crates/sim-expr-tree-core/src/namespace.rs:177-202 | Generated names are legal, and no two counters or kinds give the same one |
| Namespaces.Namespace.AcquireWriter | crates/sim-expr-tree-core/src/namespace.rs:103-113 | At most one writer lane at a time, each with a later epoch |
| Namespaces.Namespace.ReleaseWriter | crates/sim-expr-tree-core/src/namespace.rs:115-120 | Only the lane that holds the writer can release it |
| Namespaces.Namespace.ReserveName | crates/sim-expr-tree-core/src/namespace.rs:163-175 | A name is reserved exactly if the lane is held, the parent exists and the slot is neither taken nor reserved, each refusal with its own error |
| Namespaces.Namespace.ReserveGeneratedName | crates/sim-expr-tree-core/src/namespace.rs:177-202 | The generated name is the next of its counter; the counter advances even when the name is taken |
| Namespaces.Namespace.CreateCell | crates/sim-expr-tree-core/src/namespace.rs:204-232 | The reservation is consumed and the cell added; the forest survives if and only if the parent exists and the id is new, which the code does not check |
| Namespaces.Namespace.CreateDir | crates/sim-expr-tree-core/src/namespace.rs:234-260 | The reservation is consumed and the directory added; what results is a forest under some assignment of paths if and only if the parent exists and the id is new, which the code does not check |
| Namespaces.Namespace.MoveCell | crates/sim-expr-tree-core/src/namespace.rs:262-300 | The exact refusals, and on success exactly the cell's slot changes; always a forest |
| Namespaces.Namespace.MoveDir | crates/sim-expr-tree-core/src/namespace.rs:302-348 | The exact refusals in order, a cycle included, and on success the whole subtree has the new path; always a forest |
| Namespaces.Namespace.DeleteCell | crates/sim-expr-tree-core/src/namespace.rs:384-399 | The exact refusals, and on success exactly that cell is gone; always a forest |
| Namespaces.Namespace.DeleteDir | crates/sim-expr-tree-core/src/namespace.rs:401-429 | Deleted exactly if it exists, is not the root and has no child; always a forest |
| TreeIndex.RekeyOneMore | crates/sim-lib-expr-tree/src/runtime.rs:432-445 | One turn of the renaming loop: the key is still there, its new name is taken by nothing, and the map is that with one more key renamed |
| TreeIndex.RekeyExact | crates/sim-lib-expr-tree/src/runtime.rs:411-447 | Rekeying loses nothing, invents nothing and overwrites nothing: it is a bijection of keys that keeps every value, given that nothing is at or below the target |
| TreeIndex.IndexAgrees | crates/sim-lib-expr-tree/src/runtime.rs:51-107 | Every indexed path resolves name by name to the indexed id, and every node that resolves, other than an orphaned cell, is indexed |
| TreeIndex.PrefixIndexed | crates/sim-lib-expr-tree/src/runtime.rs:398-409 | Every proper prefix of an indexed path is an indexed directory |
| TreeIndex.AddCellIndexed | crates/sim-lib-expr-tree/src/runtime.rs:68-107 | Adding a cell to the namespace and to the index, or to the orphans when it is not indexed, keeps them in agreement |
| TreeIndex.AddDirIndexed | crates/sim-lib-expr-tree/src/runtime.rs:118-154 | Adding a directory to both keeps the agreement |
| TreeIndex.DropCellIndexed | crates/sim-lib-expr-tree/src/runtime.rs:256-282 | Dropping an indexed cell from both keeps the agreement |
| TreeIndex.DropDirIndexed | crates/sim-lib-expr-tree/src/runtime.rs:390-396 | Dropping a childless indexed directory from both keeps the agreement |
| TreeIndex.CellStandsAlone | crates/sim-lib-expr-tree/src/runtime.rs:190-240 | Below a cell nothing is indexed, and a free slot is apart from it |
| TreeIndex.RelinkCellIndexed | crates/sim-lib-expr-tree/src/runtime.rs:190-240 | After a cell move, rekeying the index agrees with the moved namespace |
| TreeIndex.RelinkDirIndexed | crates/sim-lib-expr-tree/src/runtime.rs:190-240 | After a directory move, rekeying the keys at or below it agrees with the reparented namespace, orphans included |
| TreeRecords.RekeyRecorded | crates/sim-lib-expr-tree/src/runtime.rs:411-447 | Rekeying index and cell records alike keeps cells, calculator sources and stored sources covering exactly the indexed cells |
| TreeRecords.StepMidway | crates/sim-lib-expr-tree/src/runtime.rs:432-445 | One turn of the loop over the three maps at once, the calculator source of the moved root being already renamed |
| TreeRecords.EndMidway | crates/sim-lib-expr-tree/src/runtime.rs:411-447 | When every key is renamed the three maps are the rekeyed ones |
| TreeRecords.Tree.SlotTaken | crates/sim-lib-expr-tree/src/runtime.rs:190-240 | A namespace slot is taken by something other than an orphan exactly if the path is indexed |
| TreeRecords.Tree.NothingBelow | crates/sim-lib-expr-tree/src/runtime.rs:398-409 | Emptiness by the index and by the namespace differ only by orphans |
| TreeRecords.Tree.WithCellInStep | crates/sim-lib-expr-tree/src/runtime.rs:51-107 | A new cell recorded everywhere keeps namespace, index, cells, sources and store in step |
| TreeRecords.Tree.WithOrphanInStep | crates/sim-lib-expr-tree/src/runtime.rs:68-82 | A cell the namespace took and nothing else did keeps them in step, as an orphan |
| TreeRecords.Tree.WithDirInStep | crates/sim-lib-expr-tree/src/runtime.rs:118-154 | A new directory keeps them in step |
| TreeRecords.Tree.WithSourceInStep | crates/sim-lib-expr-tree/src/runtime.rs:284-312 | A new source keeps them in step |
| TreeRecords.Tree.WithoutCellInStep | crates/sim-lib-expr-tree/src/runtime.rs:256-282 | A deleted cell keeps them in step |
| TreeRecords.Tree.WithoutDirInStep | crates/sim-lib-expr-tree/src/runtime.rs:390-396 | A deleted childless directory keeps them in step |
| TreeRecords.Tree.MovedInStep | crates/sim-lib-expr-tree/src/runtime.rs:190-240 | A move to a free slot outside the moved subtree keeps them in step |
| TreeRecords.Tree.ChildRow | crates/sim-lib-expr-tree/src/runtime.rs:314-344 | The indexed children of a directory are exactly its namespace children less orphans |
| TreeRuntime.TreeState.constructor | crates/sim-lib-expr-tree/src/runtime/creation.rs:17-48 | A new tree is its root alone, with everything in step |
| TreeRuntime.TreeState.NewCell | crates/sim-lib-expr-tree/src/runtime.rs:51-107 | The exact condition of success and of an orphan, for given and generated names: room, a writable directory, a legal name free in it, and a source that can or cannot be projected; success records the cell everywhere; an orphan is one cell in that very slot of the namespace; every other refusal changes nothing; always in step; nothing at or below a read-only mount changes; indexed paths stay made of legal names |
| TreeRuntime.TreeState.CreateDir | crates/sim-lib-expr-tree/src/runtime.rs:118-154 | The exact condition of success, for given and generated names; success adds exactly the directory; a refusal changes nothing; always in step; nothing at or below a read-only mount changes; indexed paths stay made of legal names |
| TreeRuntime.TreeState.NewDir | crates/sim-lib-expr-tree/src/runtime.rs:109-116 | As CreateDir, with its exact condition, and never inside a table mount; nothing at or below a read-only mount changes; indexed paths stay made of legal names |
| TreeRuntime.TreeState.Mount | crates/sim-lib-expr-tree/src/runtime.rs:156-179 | The exact condition: the directory can be made and the store accepts; success adds exactly the directory and the mount; when the store refuses, the directory is taken away again; always in step |
| TreeRuntime.TreeState.Unmount | crates/sim-lib-expr-tree/src/runtime.rs:181-188 | Succeeds exactly if the target is mounted and empty in index and namespace; with an orphan below it the mount is gone but the directory stays |
| TreeRuntime.TreeState.DeleteEmptyDir | crates/sim-lib-expr-tree/src/runtime.rs:390-396 | The namespace has the last word on emptiness; the exact condition of success |
| TreeRuntime.TreeState.RekeySubtree | crates/sim-lib-expr-tree/src/runtime.rs:411-447 | The loop succeeds and leaves all three maps exactly rekeyed, with as many entries as before |
| TreeRuntime.TreeState.MoveEntry | crates/sim-lib-expr-tree/src/runtime.rs:190-240 | The exact condition of success and the exact error of every early refusal; success moves the subtree in every map, anything else changes nothing; always in step; nothing at or below a read-only mount changes; indexed paths stay made of legal names |
| TreeRuntime.TreeState.RenameEntry | crates/sim-lib-expr-tree/src/runtime.rs:242-254 | A rename is a move within the parent; nothing at or below a read-only mount changes; indexed paths stay made of legal names |
| TreeRuntime.TreeState.Delete | crates/sim-lib-expr-tree/src/runtime.rs:256-282 | The exact condition of success, orphans counting as content; success removes exactly that entry everywhere; nothing at or below a read-only mount changes |
| TreeRuntime.TreeState.SetExpr | crates/sim-lib-expr-tree/src/runtime.rs:284-312 | The exact refusals, and on success the source is the same in cell, calculator and store; always in step; nothing at or below a read-only mount changes |
| TreeRuntime.TreeState.List | crates/sim-lib-expr-tree/src/runtime.rs:314-344 | The rows are exactly the namespace children of the directory less orphans; a row is a mount exactly if its directory is mounted, a directory if it is another directory, and a cell if it is a cell |
| TreeRuntime.TreeState.WritableIsOpen | crates/sim-lib-expr-tree/src/runtime.rs:449-456 | A path is writable exactly if no read-only mount is at or above it |
| Shields.MoveKeeps | crates/sim-lib-expr-tree/src/runtime.rs:190-240 | A move out of a writable place into a writable directory, with no mount in what is moved, changes nothing at or below a read-only mount |
| Shields.OnePlaceChanges | crates/sim-lib-expr-tree/src/runtime.rs:256-312 | A change at one writable path changes nothing at or below a read-only mount |
| TreeRuntime.TreeState.WriteCell | crates/sim-lib-expr-tree/src/runtime.rs:374-388 | A writer turn that reserves and creates succeeds exactly if the name is legal and free in an existing directory, and leaves no reservation and no writer behind, and on failure the namespace as it was |
| TreeRuntime.TreeState.WriteDir | crates/sim-lib-expr-tree/src/runtime.rs:374-388 | The same for a directory |
| TreeRuntime.TreeState.WriteMove | crates/sim-lib-expr-tree/src/runtime.rs:374-388 | The same for a move, which succeeds exactly if the slot is free and the target is not inside the moved directory |
| TreeRuntime.TreeState.WriteDelete | crates/sim-lib-expr-tree/src/runtime.rs:374-388 | The same for a delete, with its exact condition |
| Mounts.Stores.constructor | crates/sim-expr-tree-core/src/store.rs:228-239 | No mounts, which is a sound mount table |
| Mounts.Stores.Mount | crates/sim-expr-tree-core/src/store.rs:289-318 | Accepted exactly if the path is not the root, not mounted, not strictly below a table mount and, for a table, strictly above no mount; whichever order the mounts are visited in, an error names a real conflict; no mount is ever strictly below a table mount |
| Mounts.Stores.Unmount | crates/sim-expr-tree-core/src/store.rs:320-328 | Removes exactly that mount and its epoch, or reports it missing; the table stays sound |
| Mounts.Stores.ObserveEpoch | crates/sim-expr-tree-core/src/store.rs:331-350 | Records the epoch of a mounted path only; the table stays sound |
| Mounts.Reopen | crates/sim-expr-tree-core/src/store.rs:241-256 | Reopening a persisted list succeeds exactly if the list as a whole is acceptable: no root, no duplicate, no table above another mount |
| Mounts.AcceptableMeans | crates/sim-expr-tree-core/src/store.rs:241-256 | A list is acceptable exactly if no mount is at the root, no two share a path and none lies strictly below a table mount |
| Mounts.ExtendAcceptable | crates/sim-expr-tree-core/src/store.rs:289-318 | Accepting one more mount into the table built so far is the same as the longer list being acceptable |
| Mounts.OrderIndependent | crates/sim-expr-tree-core/src/store.rs:241-256 | Every permutation of a list is accepted or refused alike and builds the same table |
| Sessions.PushKeepsTail | crates/sim-lib-expr-tree-server/src/model.rs:132-141 | Watch accounting: after a push the queue is within capacity and still the suffix of what was pushed, each lost event counted once |
| Sessions.Session.ChangedSane | crates/sim-lib-expr-tree-server/src/session.rs:289-323 | A change raises the revision by exactly one, its event carries the new revision and a later tick than all before, and every watch still holds a suffix of the history |
| Sessions.Session.SubscribedSane | crates/sim-lib-expr-tree-server/src/session.rs:329-346 | A new watch starts at the present end of the history and changes nothing else of it |
| Sessions.Session.PolledSane | crates/sim-lib-expr-tree-server/src/session.rs:348-358 | Polling keeps pushed = dropped + polled + queued and leaves the history alone |
| Sessions.Session.CancelledSane | crates/sim-lib-expr-tree-server/src/session.rs:360-367 | Cancelling leaves every other watch and the history alone |
| Sessions.Session.DrainedSane | crates/sim-lib-expr-tree-server/src/session.rs:325-327 | Draining the feed leaves watches and history alone |
| Sessions.Session.AppliedSane | crates/sim-lib-expr-tree-server/src/session.rs:211-287 | A surface operation is applied only to the stated tree at the stated revision, and records no event by itself |
| Sessions.Session.RenderedSane | crates/sim-lib-expr-tree-server/src/session.rs:60-85 | A snapshot issues continuations and changes nothing else |
| Sessions.Session.CommittedSane | crates/sim-lib-expr-tree-server/src/server/route.rs:111-151 | A commit raises the revision by at most one, only over the revision it expected and stated, and only extends the history |
| Sessions.Session.PollIsGapless | crates/sim-lib-expr-tree-server/src/session.rs:348-358 | What a consumer polls are consecutive revisions, and the gap before them is exactly what was dropped |
| Sessions.PushBounded | crates/sim-lib-expr-tree-server/src/session.rs:370-381 | The oldest event makes room when the feed is full and is counted as dropped |
| Sessions.SessionRecord.constructor | crates/sim-lib-expr-tree-server/src/session.rs:37-54 | A new record is at revision one with nothing recorded |
| Sessions.SessionRecord.Changed | crates/sim-lib-expr-tree-server/src/session.rs:289-323 | The record after the method is the specified next session: revision, feed, every watch, continuations |
| Sessions.SessionRecord.PushWatch | crates/sim-lib-expr-tree-server/src/model.rs:132-141 | The watch after a push is the specified bounded queue and count |
| Sessions.SessionRecord.DrainChanges | crates/sim-lib-expr-tree-server/src/session.rs:325-327 | Gives the feed out and leaves it empty |
| Sessions.SessionRecord.Subscribe | crates/sim-lib-expr-tree-server/src/session.rs:329-346 | The specified new watch, or the limit error |
| Sessions.SessionRecord.PollWatch | crates/sim-lib-expr-tree-server/src/session.rs:348-358 | The specified batch and remaining queue, or the unknown-watch error |
| Sessions.SessionRecord.CancelWatch | crates/sim-lib-expr-tree-server/src/session.rs:360-367 | The specified removal, or the unknown-watch error |
| Sessions.SessionRecord.ApplySurfaceLocal | crates/sim-lib-expr-tree-server/src/session.rs:211-287 | The specified expansion, paging or selection, and the specified refusal of stale or foreign operations |
| Sessions.SessionRecord.Snapshot | crates/sim-lib-expr-tree-server/src/session.rs:60-85 | The specified continuations, issued in the order pages are cut short |
| Sessions.SessionRecord.Continuation | crates/sim-lib-expr-tree-server/src/session.rs:200-209 | A fresh token names the page, offset and revision |
| ServerProtocol.World.UpdateSafe | crates/sim-lib-expr-tree-server/src/server.rs:309-317 | Replacing one unreserved session by a sane later one keeps the invariant |
| ServerProtocol.World.ShrinkSafe | crates/sim-lib-expr-tree-server/src/server.rs:289-307 | Time passing and idle sessions expiring keeps the invariant, since reserved ones stay |
| ServerProtocol.World.ClaimSafe | crates/sim-lib-expr-tree-server/src/server/route.rs:178-197 | Reserving a free session gives it exactly one owner |
| ServerProtocol.World.ReleaseSafe | crates/sim-lib-expr-tree-server/src/server/route.rs:135-151 | Giving a reservation back keeps the invariant |
| ServerProtocol.World.StepSafe | crates/sim-lib-expr-tree-server/src/server/route.rs:111-211 | Every atomic turn of every thread keeps: reserved sessions live with exactly one owner each, live sessions within the limit, chronicles sane, commits distinct |
| ServerProtocol.World.ReservedUntouched | crates/sim-lib-expr-tree-server/src/server.rs:296-317 | No turn but its owner's finish expires, closes or changes a reserved session |
| ServerProtocol.World.FinishFindsItsSession | crates/sim-lib-expr-tree-server/src/server/route.rs:135-176 | At finish the lost-reservation and unknown-session branches are unreachable |
| ServerProtocol.World.HistoryGrows | crates/sim-lib-expr-tree-server/src/session.rs:289-323 | A turn adds at most one event to a session's history and rewrites none |
| ServerProtocol.RunSafe | crates/sim-lib-expr-tree-server/src/server/route.rs:111-211 | The invariant holds after every interleaving |
| ServerProtocol.ReservationHolds | crates/sim-lib-expr-tree-server/src/server/route.rs:178-197 | From reservation to finish, whatever the other threads do, the session stays live, reserved and unchanged |
| ServerProtocol.StartSafe | crates/sim-lib-expr-tree-server/src/server.rs:62-95 | A new server satisfies the invariant |
| ServerProtocol.ProtocolHolds | crates/sim-lib-expr-tree-server/src/server/route.rs:111-211 | From any start and any interleaving: in-flight is a subset of the live sessions, one owner each, the session limit is kept, no two commits over the same revision of a session, and every history has consecutive revisions and strictly increasing ticks |
| TurnEffects.FinishRecords | crates/sim-lib-expr-tree-server/src/server/route.rs:135-176 | On every reachable state: an operation that worked and is none of ref, list, status, explain and open-policy raises the revision by exactly one and adds exactly the event with that revision, the tick of the reservation, the wall time, the kind and the path to the history, the feed and every watch not cancelled; one that failed or only reads leaves revision and history as they were; the reservation is given back and no other session is touched |
| TurnEffects.LocalRecords | crates/sim-lib-expr-tree-server/src/server/route.rs:111-134 | On every reachable state: a local turn is exactly one change of its session if the session can be reached at the revision expected and stated and the operation can be carried out; otherwise nothing is recorded in it, and in no case in another session |
| TurnEffects.CommittedMeans | crates/sim-lib-expr-tree-server/src/server/route.rs:111-134 | A local commit is recorded as one change exactly if it expects and states the present revision of this session and can be carried out, otherwise nothing is recorded, and it is rendered exactly if it was not refused |
| TurnEffects.ChangedMeans | crates/sim-lib-expr-tree-server/src/session.rs:289-323 | A change is the next revision and one event, at the end of the history, the feed and every watch not cancelled, a full queue losing its oldest and counting it; nothing else changes |
| TurnEffects.AppliedMeans | crates/sim-lib-expr-tree-server/src/session.rs:211-287 | Disclosing adds the path to the expanded ones, closing takes out those at or below it but never the root, continuing consumes its token and sets the page size of its path to the offset plus one page; an operation is carried out exactly if it names this session at its revision and, to continue, a token of this revision and path; each refusal has its error and changes no more than the token |
| TurnEffects.RenderedMeans | crates/sim-lib-expr-tree-server/src/session.rs:60-85 | Rendering replaces the continuations by one fresh token for every page cut short, in order, and changes nothing else |
| TurnEffects.SubscribedMeans | crates/sim-lib-expr-tree-server/src/session.rs:329-346 | A new watch is empty, starts at the present revision and has the next number; it is given exactly below the limit of watches |
| TurnEffects.PolledMeans | crates/sim-lib-expr-tree-server/src/session.rs:348-358 | A poll gives the oldest events of the watch, in order and up to the limit, with the count of those lost, and leaves the rest; cancelling empties the one watch for good |
| TurnEffects.AccessMeans | crates/sim-lib-expr-tree-server/src/server.rs:289-329 | A request is served exactly if the session is neither reserved nor idle for too long; busy is told before unknown; sessions expire exactly by idle time and no other session changes |
| TurnEffects.ReserveMeans | crates/sim-lib-expr-tree-server/src/server/route.rs:178-197 | A reservation is made exactly if the session can be reached at the expected revision, with each refusal its own error |
| TurnEffects.CloseMeans | crates/sim-lib-expr-tree-server/src/server.rs:218-225 | Closing refuses exactly a reserved session, otherwise removes it and tells whether it was there |
| TurnEffects.FinishCreateMeans | crates/sim-lib-expr-tree-server/src/server.rs:161-173 | The second turn of a creation adds an untouched session at revision one exactly if there is room among those still live |
| Registries.Registry.constructor | crates/sim-lib-expr-tree-server/src/server.rs:62-95 | A new registry is the start state of the protocol |
| Registries.Registry.ExpireIdle | crates/sim-lib-expr-tree-server/src/server.rs:296-307 | Keeps exactly the reserved and the recently used sessions |
| Registries.Registry.BeginRequest | crates/sim-lib-expr-tree-server/src/server.rs:289-294 | Takes the next tick and expires idle sessions, as the protocol's first half of every turn |
| Registries.Registry.FreeSession | crates/sim-lib-expr-tree-server/src/server.rs:309-317 | Busy before unknown: a reserved session is refused, a missing one reported |
| Registries.Registry.ReservedSession | crates/sim-lib-expr-tree-server/src/server.rs:319-329 | Finds a session whether reserved or not |
| Registries.Registry.BeginCreate | crates/sim-lib-expr-tree-server/src/server.rs:124-140 | Refines the first turn of session creation: the limit check and a fresh number |
| Registries.Registry.FinishCreate | crates/sim-lib-expr-tree-server/src/server.rs:161-173 | Refines the second turn: the limit is checked again |
| Registries.Registry.Subscribe | crates/sim-lib-expr-tree-server/src/server.rs:228-234 | Refines the protocol turn |
| Registries.Registry.PollWatch | crates/sim-lib-expr-tree-server/src/server.rs:237-248 | Refines the protocol turn, with the limit cut to the watch capacity |
| Registries.Registry.CancelWatch | crates/sim-lib-expr-tree-server/src/server.rs:251-257 | Refines the protocol turn |
| Registries.Registry.DrainChanges | crates/sim-lib-expr-tree-server/src/server/route.rs:199-211 | Refines the protocol turn |
| Registries.Registry.Snapshot | crates/sim-lib-expr-tree-server/src/server.rs:176-182 | Refines the protocol turn |
| Registries.Registry.Revision | crates/sim-lib-expr-tree-server/src/server.rs:185-191 | Refines the protocol turn |
| Registries.Registry.CommitLocal | crates/sim-lib-expr-tree-server/src/server/route.rs:111-134 | Refines the protocol turn for a view operation: expected revision, application, recorded change, snapshot |
| Registries.Registry.Reserve | crates/sim-lib-expr-tree-server/src/server/route.rs:178-197 | Refines the reserving turn: busy, unknown and stale refusals, then the session is in flight |
| Registries.Registry.Finish | crates/sim-lib-expr-tree-server/src/server/route.rs:135-176 | Refines the finishing turn: the reservation is given back whether the work succeeded or not, and a change is recorded only if it did; an operation that only reads records none |
| Registries.Registry.Close | crates/sim-lib-expr-tree-server/src/server.rs:218-225 | Refines the protocol turn: a reserved session cannot be closed |
| Registries.Registry.MaintenanceTick | crates/sim-lib-expr-tree-server/src/server.rs:261-267 | The count reported is exactly the number of sessions expired |
| Scheduling.ChosenUnique | crates/sim-expr-tree-calc/src/calc/scheduling.rs:132-164 | The selection rule picks one entry: overdue entries first by age, else the preferred one, without ties |
| Scheduling.ChosenIsFirstInLine | crates/sim-expr-tree-calc/src/calc/scheduling.rs:132-164 | The rule on queue fields: among ready entries passed over three times or more the one with the least sequence; if there are none, one of the highest priority and, among those, the least sequence |
| Scheduling.AttemptOrdered | crates/sim-expr-tree-calc/src/calc/scheduling.rs:83-130 | An attempt keeps sequences and request ids distinct and below the next counters |
| Scheduling.AttemptPasses | crates/sim-expr-tree-calc/src/calc/scheduling.rs:83-130 | An attempt on another entry only ages a waiting ready entry; only a budget-exhausted entry returns, with its old sequence and no bypasses |
| Scheduling.PassedThenWaited | crates/sim-expr-tree-calc/src/calc/scheduling.rs:5-81 | What happens to the queue between two selections, when the entry stays queued, is among what being passed over allows for |
| Scheduling.PassCosts | crates/sim-expr-tree-calc/src/calc/scheduling.rs:132-164 | Each selection that passes an entry over uses up one of its bypasses or one older entry |
| Scheduling.BoundedBypass | crates/sim-expr-tree-calc/src/calc/scheduling.rs:132-164 | When selected entries do not return, a ready entry is selected after at most 3 plus the number of older entries other selections |
| Scheduling.LatePick | crates/sim-expr-tree-calc/src/calc/scheduling.rs:132-164 | Once an entry is overdue, only an overdue older entry is selected before it |
| Scheduling.LatePicksDiffer | crates/sim-expr-tree-calc/src/calc/scheduling.rs:132-164 | Four selections in a row after that are four different entries |
| Scheduling.SelectedBySeventh | crates/sim-expr-tree-calc/src/calc/scheduler.rs:90 | Even when exhausted entries return, an entry with at most 3 older ones is passed over at most six times |
| Scheduling.Crowd.Round | crates/sim-expr-tree-calc/src/calc/scheduling.rs:83-164 | With four older entries that always exhaust their budget, every round selects one of them and reproduces the pattern |
| Scheduling.Crowd.Starvation | crates/sim-expr-tree-calc/src/calc/scheduling.rs:83-164 | So for every length there is a run in which the youngest of five is never selected: the bound of three older entries is sharp |
| Schedulers.TokenNamesOneQueue | crates/sim-expr-tree-calc/src/calc/scheduling.rs:172-174 | On every run of scheduling, pruning, attempts and cancellations, until a restore or rebuild, the generation never falls and equal generations mean equal queues: a token is accepted only over the very queue that issued it |
| Schedulers.RestoreIsNotTold | crates/sim-expr-tree-calc/src/calc/session.rs:523-545 | Restoring a snapshot can change the queue under an unchanged generation, so restore has to be excepted |
| Schedulers.LoadListed | crates/sim-expr-tree-calc/src/calc/session.rs:523-545 | Loading what a queue lists gives the queue back |
| Schedulers.OtherStepWaits | crates/sim-expr-tree-calc/src/calc/scheduling.rs:5-81 | Scheduling, pruning, cancelling and a refused restore leave an entry that stays queued its place and its count, and no entry joins before it |
| Schedulers.RunPasses | crates/sim-expr-tree-calc/src/calc/scheduling.rs:5-164 | Every run of operations through which an entry waits passes it over exactly once for each selection in the run |
| Schedulers.BoundedBypassOnRuns | crates/sim-expr-tree-calc/src/calc/scheduling.rs:5-164 | On every run of scheduling, pruning, cancelling and attempts, an entry that stays queued and is ready at every selection is passed over at most three times plus once for every older entry, as long as no attempt exhausts its budget |
| Schedulers.SelectedBySeventhOnRuns | crates/sim-expr-tree-calc/src/calc/scheduling.rs:5-164 | On every such run in which attempts may exhaust their budget, an entry with at most three older ones is passed over at most six times |
| Schedulers.Scheduler.constructor | crates/sim-expr-tree-calc/src/calc.rs:181-207 | An empty queue at generation, sequence and request one |
| Schedulers.Scheduler.ScheduleDirty | crates/sim-expr-tree-calc/src/calc/scheduling.rs:5-64 | The queue holds exactly the dirty automatic cells, ready after their policy's debounce and at its priority; old ones keep sequence, request, bypasses and continuation, new ones stand behind all of them with fresh sequence and request, no bypass and no continuation; the generation moves exactly if the queue changed |
| Schedulers.Scheduler.Prune | crates/sim-expr-tree-calc/src/calc/scheduling.rs:66-81 | Keeps exactly the entries still dirty; the generation moves exactly if the queue changed |
| Schedulers.Scheduler.SelectReady | crates/sim-expr-tree-calc/src/calc/scheduling.rs:132-164 | Nothing is selected exactly if nothing is ready; otherwise the one entry the rule picks, stated on priorities, sequences and bypass counts, and every other ready entry has one more bypass |
| Schedulers.Scheduler.RunAutomatic | crates/sim-expr-tree-calc/src/calc/scheduling.rs:83-130 | A run is a chain of turns, each selecting the rule's pick, within the request budget, ending early only when nothing is ready; the request of each pick is reported once, in order, as completed or as out of budget; a continuation is given exactly if work remains |
| Schedulers.Scheduler.Continue | crates/sim-expr-tree-calc/src/calc/session.rs:498-511 | A token is accepted exactly if it is the present generation |
| Schedulers.Scheduler.Cancel | crates/sim-expr-tree-calc/src/calc/session.rs:340-354 | Removes exactly the entry with that request id and raises the generation, or reports there is none |
| Schedulers.Scheduler.Snapshot | crates/sim-expr-tree-calc/src/calc/session.rs:514-520 | Lists every entry once, with the counters |
| Schedulers.Scheduler.Restore | crates/sim-expr-tree-calc/src/calc/session.rs:523-545 | Accepted exactly if every cell is absolute and no cell repeats; a refusal changes nothing; request ids end above all restored ones |
| Schedulers.Scheduler.Restart | crates/sim-expr-tree-calc/src/calc/session.rs:514-545 | A restarted scheduler that restores a snapshot has the same queue, generation and sequence |
| Faces.ScanMeasures | crates/sim-expr-tree-calc/src/calc/face/budget.rs:8-32 | Walking a tree in order passes exactly if its depth, node count and scalar bytes fit what is left, and uses up exactly its cost |
| Faces.InspectExpr | crates/sim-expr-tree-calc/src/calc/face/budget.rs:8-32 | The stack loop gives the same answer, dimension, limit and observation as the walk in order, and accepts exactly the trees that fit |
| FaceCosts.MeasureMeans | crates/sim-expr-tree-calc/src/calc/face/budget.rs:159-257 | Constructor by constructor: the nodes of an expression are one plus those of its own parts, its height one plus the greatest of theirs, its bytes those of its text, bytes, number, symbol, operator, annotation names or extension tag plus those of its parts |
| FaceCosts.InspectionMeans | crates/sim-expr-tree-calc/src/calc/face/budget.rs:8-32 | Inspection passes exactly if nodes, height and bytes, counted by constructor, are within the budget |
| FaceCosts.WalkedAsLaid | crates/sim-expr-tree-calc/src/calc/face/budget.rs:159-197 | The stack walk visits the parts of every constructor from left to right, annotations before what they annotate, so the first limit broken in that order is the one reported |
| Faces.FaceTracker.Enter | crates/sim-expr-tree-calc/src/calc/face/budget.rs:115-128 | Enters a node exactly if depth and items allow it |
| Faces.FaceTracker.ChargeBytes | crates/sim-expr-tree-calc/src/calc/face/budget.rs:130-132 | Charges bytes exactly if they fit |
| Faces.FaceTracker.ConsumeTail | crates/sim-expr-tree-calc/src/calc/face/budget.rs:146-157 | Charging the rest of a snapshot whose root has been entered is charging the snapshot |
| Faces.FaceTracker.ProjectValue | crates/sim-expr-tree-calc/src/calc/face/budget.rs:43-98 | Succeeds exactly if the value has no unprojectable part and its projection fits what is left, and uses up exactly the projection's cost |
| Faces.FaceTracker.ProjectList | crates/sim-expr-tree-calc/src/calc/face/budget.rs:55-68 | The same for lists, in spite of the early length cut-off |
| Faces.FaceTracker.ProjectTable | crates/sim-expr-tree-calc/src/calc/face/budget.rs:69-90 | The same for tables, in spite of the early cut-off at half the items |
| Faces.BoundedValueExpr | crates/sim-expr-tree-calc/src/calc/face/budget.rs:34-41 | Succeeds exactly if the value is projectable and its projection would pass the inspection |
| Faces.ListFitsCount | crates/sim-expr-tree-calc/src/calc/face/budget.rs:55-68 | The list cut-off refuses only what cannot fit |
| Faces.TableFitsCount | crates/sim-expr-tree-calc/src/calc/face/budget.rs:69-90 | The table cut-off refuses only what cannot fit |
| Records.RecordFields | crates/sim-expr-tree-calc/src/calc/persistence/codec.rs:130-144 | The loop collects the fields or stops at the first bad or repeated one, as specified |
| Records.RecordBack | crates/sim-expr-tree-calc/src/calc/persistence/codec.rs:121-144 | A record with distinct names reads back field by field, with nothing added |
| Records.RowsBack | crates/sim-expr-tree-calc/src/calc/persistence/codec/state.rs:311-353 | A map listed row by row reads back as it was, whatever the order of the rows |
| Records.LoadRows | crates/sim-expr-tree-calc/src/calc/persistence/codec/state.rs:8-17 | The loop of the map decoders collects the rows or stops at the first bad or repeated one |
| GraphCodec.QueryBack | crates/sim-expr-tree-calc/src/calc/persistence/codec/graph.rs:192-240 | Every query key reads back |
| GraphCodec.KindBack | crates/sim-expr-tree-calc/src/calc/persistence/codec/graph.rs:160-190 | An observation kind reads back if and only if it is a fixed kind or one of the custom kinds the evaluator emits |
| GraphCodec.ObservationBack | crates/sim-expr-tree-calc/src/calc/persistence/codec/graph.rs:138-158 | Every observation the evaluator emits reads back |
| GraphCodec.FailureBack | crates/sim-expr-tree-calc/src/calc/persistence/codec/graph.rs:277-335 | Every failure reads back |
| GraphCodec.RestoreKeeps | crates/sim-expr-tree-calc/src/calc/persistence/codec/graph.rs:91-136 | A value is restored exactly if every map key in it is a symbol; it projects to the same expression, and is reported reusable exactly if nothing in it lost its kind |
| GraphCodec.RestoreBack | crates/sim-expr-tree-calc/src/calc/persistence/codec/graph.rs:91-136 | Plain data comes back as the value it was |
| GraphCodec.MemoBack | crates/sim-expr-tree-calc/src/calc/persistence/codec/graph.rs:43-89 | A memo is readable exactly if every map in its value is keyed by symbols, and then comes back restored, marked reusable exactly if it is; otherwise it reads as corrupt |
| GraphCodec.NodeBack | crates/sim-expr-tree-calc/src/calc/persistence/codec/graph.rs:3-41 | A node comes back with its key, observations and revision, dirty if it was or if its memo is volatile or not rebuildable |
| GraphCodec.NodeUnreadable | crates/sim-expr-tree-calc/src/calc/persistence/codec/graph.rs:23-41 | A node with another map key in its value reads as corrupt |
| GraphCodec.NodeUnchanged | crates/sim-expr-tree-calc/src/calc/persistence/codec/graph.rs:3-41 | A node whose value is stable data comes back as it was |
| StateCodec.ReceiptBack | crates/sim-expr-tree-calc/src/calc/persistence/codec/state.rs:19-129 | Every receipt reads back |
| StateCodec.ReceiptsBack | crates/sim-expr-tree-calc/src/calc/persistence/codec/state.rs:4-17 | Receipts keyed by their own cell read back |
| StateCodec.OutcomeBack | crates/sim-expr-tree-calc/src/calc/persistence/codec/state.rs:131-169 | Every outcome reads back |
| StateCodec.NamesBack | crates/sim-expr-tree-calc/src/calc/persistence/codec/state.rs:171-209 | Every reason and trigger name reads back |
| StateCodec.QueuedBack | crates/sim-expr-tree-calc/src/calc/persistence/codec/state.rs:211-274 | Every queue entry reads back, its signed priority included |
| StateCodec.QueueBack | crates/sim-expr-tree-calc/src/calc/persistence/codec/state.rs:211-274 | Every queue snapshot reads back |
| StateCodec.WordMapBack | crates/sim-expr-tree-calc/src/calc/persistence/codec/state.rs:311-331 | Every number map reads back |
| StateCodec.ExprMapBack | crates/sim-expr-tree-calc/src/calc/persistence/codec/state.rs:333-353 | Every expression map reads back |
| StateCodec.SampleBack | crates/sim-expr-tree-calc/src/calc/persistence/codec/state.rs:276-309 | Every refresh sample reads back |
| StateCodec.SamplesBack | crates/sim-expr-tree-calc/src/calc/persistence/codec/state.rs:276-309 | The refresh samples read back |
| Persistence.ReverseIsInverse | crates/sim-expr-tree-calc/src/calc/persistence.rs:426-439 | The reverse edges hold a pair exactly if the dependent node observed the key |
| Persistence.DeriveReverse | crates/sim-expr-tree-calc/src/calc/persistence.rs:426-439 | The nested loops compute exactly the inverse of the dependency relation |
| Persistence.ReverseBack | crates/sim-expr-tree-calc/src/calc/persistence/codec/graph.rs:242-275 | Reverse edges read back |
| Persistence.BodyOfSealed | crates/sim-expr-tree-calc/src/calc/persistence/codec.rs:30-119 | Taking the checksum field out of a written snapshot leaves the very body it was computed over |
| Persistence.ReverseRestored | crates/sim-expr-tree-calc/src/calc/persistence.rs:323-329 | Restoring memos, even to dirty, leaves the reverse edges as they were |
| Persistence.PersistedBack | crates/sim-expr-tree-calc/src/calc/persistence/codec.rs:30-119 | A snapshot as the calculator builds it reads back if and only if its graph is within the bounds and every map in a memo value is keyed by symbols; then each node is as restored and nothing else is lost; otherwise the whole snapshot reads as corrupt; for any checksum function |
| Persistence.GraphUnreadable | crates/sim-expr-tree-calc/src/calc/persistence/codec/graph.rs:91-136 | One memo value with a map key that is no symbol makes the whole graph unreadable |
| Persistence.SealedDecodes | crates/sim-expr-tree-calc/src/calc/persistence/codec.rs:67-119 | Whatever its graph reads as, the checksum, the identities and the tables around it read back |
| Persistence.WrittenIsTaken | crates/sim-expr-tree-calc/src/calc/persistence.rs:278-377 | How a snapshot with its own reverse edges ends, exactly: rebuilt as corrupt if its graph is not readable, as a mismatch if generations or identities differ, as corrupt if the engine or the queue refuses, rehydrated otherwise |
| Persistence.WrongReverseIsRefused | crates/sim-expr-tree-calc/src/calc/persistence.rs:323-329 | A snapshot whose reverse edges are not the inverse of its dependencies is never rehydrated, readable or not |
| Persistence.CleanNodesAreReusable | crates/sim-expr-tree-calc/src/calc/persistence/codec/graph.rs:3-41 | A node comes back clean exactly if it was clean and its memo can be rebuilt |
| Persistence.CurrentFromGraph | crates/sim-expr-tree-calc/src/calc/persistence.rs:447-472 | The loop collects exactly the specified current, failed and volatile cells |
| Persistence.CurrentIsMemo | crates/sim-expr-tree-calc/src/calc/persistence.rs:447-472 | With distinct keys, a cell's current result, failure and volatility are those of its memo |
| Persistence.Derived.RestoreDerived | crates/sim-expr-tree-calc/src/calc/persistence.rs:278-377 | Either every derived field is that of the decoded snapshot, counters at least one, or every derived field is rebuilt: no results, receipts, last good values or continuations, counters at one, every mount's sample at its epoch with nothing listed, and exactly the automatic cells queued as new; decided exactly by the disposition; never a mixture |
| SnapshotGuards.HydratedIsGenuine | crates/sim-expr-tree-calc/src/calc/persistence/codec.rs:67-119 | For every expression, written here or not: what is rehydrated is a record of the present schema whose checksum field is the identity of the record without it, and whose live identities are those of the authored state |
| SnapshotGuards.AlteredIsRebuilt | crates/sim-expr-tree-calc/src/calc/persistence.rs:278-347 | Whatever holds a checksum that is not the identity of the rest ends rebuilt: as incompatible if it is a record of another schema, as corrupt otherwise |
| SnapshotGuards.AlteredSnapshotIsRebuilt | crates/sim-expr-tree-calc/src/calc/persistence/codec.rs:84-86 | A written snapshot whose body is changed in any way under the old checksum is never rehydrated if the changed body has another identity |
| SnapshotGuards.RecordMeans | crates/sim-expr-tree-calc/src/calc/persistence/codec.rs:67-119 | A map reads as a record exactly if its keys are symbols of distinct texts, and then its fields are exactly its entries |
| Persistence.Derived.PersistDerived | crates/sim-expr-tree-calc/src/calc/persistence.rs:193-262 | What is built for storing tells the whole derived state, its reverse edges are right, its queue is acceptable and everything in it fits the codec |
| Persistence.Derived.Retold | crates/sim-expr-tree-calc/src/calc/persistence.rs:278-377 | Restoring what was built and stored reads the derived state it was built from |
| Persistence.Derived.Restart | crates/sim-expr-tree-calc/src/calc/persistence.rs:193-377 | A restart over the same authored state, from what a sound calculator stored with a readable graph, rehydrates: the same queue, generation, counters, receipts and samples, a valid scheduler, results from the restored graph, and every last good value that is data |
| Persistence.Derived.Decide | crates/sim-expr-tree-calc/src/calc/persistence.rs:278-347 | The checks are made in the source's order and give the specified disposition |
| Persistence.Derived.Rebuild | crates/sim-expr-tree-calc/src/calc/persistence.rs:379-418 | Nothing derived survives, samples start from the mounts' epochs, and exactly the automatic cells are queued afresh at their policy's priority and debounce |
| Persistence.Derived.Rehydrate | crates/sim-expr-tree-calc/src/calc/persistence.rs:341-377 | Every derived field is the snapshot's, with counters at least one |
| BookCodec.TakeBack | crates/sim-lib-expedition-book/src/codec.rs:18-35 | A written field is read back, any content included, and the cursor stands right after it |
| BookCodec.RefsBack | crates/sim-lib-expedition-book/src/codec.rs:38-71 | A counted list of evidence is read back and the rest is left |
| BookCodec.BranchBack | crates/sim-lib-expedition-book/src/codec.rs:38-71 | A branch is read back up to blank options and stray objection keys, and the rest is left |
| BookCodec.BookBack | crates/sim-lib-expedition-book/src/codec.rs:38-170 | Reading the text of any book gives what the text can keep of it, the input consumed exactly |
| BookCodec.RoundTrip | crates/sim-lib-expedition-book/src/codec.rs:38-170 | A book comes back as it was if and only if every map key is the stored id and no optional id or play is an empty string |
| BookCodec.ReadIsClean | crates/sim-lib-expedition-book/src/codec.rs:75-170 | Whatever text is read, the book read is one that survives its own text |
| BookTails.NothingFollows | crates/sim-lib-expedition-book/src/codec.rs:75-170 | A text that reads as a book is refused as soon as anything follows it, as trailing bytes if a character starts there |
| BookCodec.Encode | crates/sim-lib-expedition-book/src/codec.rs:38-71 | The nested loops append exactly the specified text |
| BookCodec.CutKeepsCharacters | crates/sim-lib-expedition-book/src/codec.rs:79-86 | The version reported for an unknown header is cut between characters: it has at most eight, and is cut exactly if there are more |
| BookCodec.Decode | crates/sim-lib-expedition-book/src/codec.rs:75-170 | The nested loops read exactly as specified, cuts inside a character included, with the same error in the same place |
| BookCodec.Cursor.Take | crates/sim-lib-expedition-book/src/codec.rs:21-35 | Reads one length-prefixed field and moves past it, or fails, also on a length that cuts a character, and does not move |
| BookCodec.Cursor.TakeEvidence | crates/sim-lib-expedition-book/src/codec.rs:75-170 | The counted loop reads exactly the specified references |
| BookCodec.Cursor.TakeAllObjections | crates/sim-lib-expedition-book/src/codec.rs:75-170 | The counted loop reads exactly the specified objections, later ones of one id winning |
| BookCodec.Cursor.TakeAllBranches | crates/sim-lib-expedition-book/src/codec.rs:75-170 | The counted loop reads exactly the specified branches |
| BookEdits.TidiedTidy | crates/sim-lib-expedition-book/src/edit.rs:125-138 | Sorting and removing repetitions keeps exactly the members |
| BookEdits.TidyUnique | crates/sim-lib-expedition-book/src/edit.rs:125-138 | There is one sorted list without repetition of given members |
| BookEdits.ExpeditionBook.constructor | crates/sim-lib-expedition-book/src/edit.rs:43-59 | A new book has its root branch alone and survives its own text |
| BookEdits.ExpeditionBook.Fork | crates/sim-lib-expedition-book/src/edit.rs:83-110 | The exact refusals; a fork copies the parent's evidence; blanks arise exactly if the parent id is empty |
| BookEdits.ExpeditionBook.Reference | crates/sim-lib-expedition-book/src/edit.rs:125-138 | The exact refusals; the evidence is sorted, without repetition, and exactly the old and the given |
| BookEdits.ExpeditionBook.Object | crates/sim-lib-expedition-book/src/edit.rs:141-158 | The exact refusals; the objection is stored under its own id |
| BookEdits.ExpeditionBook.Choose | crates/sim-lib-expedition-book/src/edit.rs:161-174 | The exact refusals; blanks arise exactly if the chosen id is empty |
| BookEdits.ExpeditionBook.SetNextPlay | crates/sim-lib-expedition-book/src/edit.rs:177-187 | The exact refusals; blanks arise exactly if the play is empty |
| BookEdits.ExpeditionBook.Seal | crates/sim-lib-expedition-book/src/edit.rs:190-195 | The exact refusals; only the seal changes |
| BookEdits.ExpeditionBook.Reopen | crates/sim-lib-expedition-book/src/edit.rs:198-212 | The exact refusals; only the seal changes |
| BookEdits.ExpeditionBook.Retain | crates/sim-lib-expedition-book/src/edit.rs:215-230 | The exact refusals; exactly the named branches stay, the root and the chosen one among them |
| BookEdits.ExpeditionBook.Snapshot | crates/sim-lib-expedition-book/src/edit.rs:233-239 | After any edits the payload reads back as the book if and only if the book has no blank option |
| BookEdits.BlankChoiceIsLost | crates/sim-lib-expedition-book/src/edit.rs:161-174 | A sound book whose chosen branch has an empty id does not survive its text |

## Left out

- Freshness.IncrementalEqualsFresh: says nothing of two answers that are both contextual, because the cycle reported depends on which root was verified first, and what a trigger blocks on the request.
- Calculator.ExprTreeCalc.ExecuteRoot: has no continuation, cancellation or wall clock, and the attempt recorded for a root that was stopped is left out.
- Calculator.ExprTreeCalc.CommitReceipts: keeps the outcome of each receipt, because its ticks, digests and stamps are copied from the attempt and the engine.
- Calculator.ExprTreeCalc.CalculateCells: takes the closure of a recursive force as a parameter, because it is read off the engine's recorded edges.
- Engine.VerifySound: the engine itself (`sim-incremental-core`) is not part of this repository's source; it is modelled as a contract, with work and depth budgets, that answers a cycle-closing read with a cycle failure recorded like any other read.
- The kernel (parsing, evaluation, macro expansion, reference resolution) is a record of pure functions; the evaluator sees only bindings of symbols that preparation visited; a result is data with an injective fingerprint or opaque with a nonce.
- Mounts inside the calculator: they add observation keys and do not change values.  Codec policies and decode limits: field copying.  Messages that print debug forms are left out of failures.
- Capabilities are numbers, so "first missing" is the least one.
- Namespaces.Namespace.EffectiveDirPolicy: a directory's policy patch is an opaque map of settings, because the fields are copied one by one.
- Cell kinds, change stamps and the text format of ids in the namespace, since nothing proved depends on them; calculator policies are keyed by path and not moved with the entries, so their agreement with the namespace is not claimed, nor is "no directory below a table mount" for moved entries.
- TreeRuntime.TreeState.List: gives the rows by path with their kind only, because the other columns are copied from records.
- Sessions.SessionRecord.Snapshot: a rendering is modelled by the pages it cuts short and whether it succeeds, because directory paging and node texts are formatting.
- Ids, watch names and continuation tokens are structured values instead of formatted text; the wall-time maps of sources and results are left out.
- ServerProtocol.ProtocolHolds: parsing of operations and the results of runtime work are parameters of the steps, lock poisoning and panics are left out, and `apply_intent` is two turns of the model.
- Schedulers.Scheduler.RunAutomatic: the cells left dirty by an attempt, the policies and the outcomes are parameters, because the calculator proper is modelled elsewhere; watches and progress messages are left out.
- Counter saturation at the largest word, except for the bypass counter, which saturates at 255 as in the source.
- Faces.BoundedValueExpr: tables whose declared length differs from their entries and lists or tables whose access fails are left out, because they are foreign implementations of the kernel's interfaces.
- BookCodec.RoundTrip: lengths and counts are machine words, which `BookHeld` states.
- The validation of evidence, comparison of branches, archives and projections of books; overflow of a book's revision.
- Persistence.PersistedBack: the checksum and identities are arbitrary functions, because nothing is proved of hash quality; values without a data projection cannot be written and are not written here.
- Persistence.Derived.RestoreDerived: whether the engine accepts the graph is a parameter, because the engine is not part of this model; table input and output are left out.
- Persistence.Derived.PersistDerived: the graph is the engine's snapshot, given as a parameter, and the report of counts is left out.
- Rows of maps and sets are written in some fixed order instead of the key order of the source, because reading does not depend on it.
- Scene rendering, intents, the web surface, recipes, configuration and entry points.
