# ObservMe: a verified model of its state machines

This Dafny project models the parts of the ObservMe telemetry extension whose behaviour is a
protocol, an algorithm or a law, and proves what they promise:

- the safety analysis of custom redaction patterns: the pattern parser, the checks on its
  tree and what passing them guarantees about ambiguity, where its reading of a pattern is
  that of the compiled expression, and the replacement and rewriting loops of redaction
  (`CharacterRanges`, `RegexTree`, `RegexAmbiguity`, `RegexUnambiguity`, `RegexParser`,
  `RegexSyntax`, `RegexVerdicts`, `RegexRoundTrip`, `RegexFolding`, `RegexSurrogates`,
  `PatternValidation`, `Redaction`);
- the life of subagents: the agent tree, the registries of spawns, waits and joins behind the
  guarded API, the active-span gauge, and the counting of failures and recoveries
  (`BoundedMaps`, `AgentTree`, `SubagentOperations`, `SubagentSession`, `SubagentTelemetry`,
  `FailureAccounting`);
- the ownership of OpenTelemetry SDKs through asynchronous start, bounded shutdown, late
  settlement and retry (`OtelController`, `CompositeSdk`, `OtelOwnership`);
- lineage propagation from parent to child process (`LineageText`, `Lineage`);
- the delivery accounting of backfill (`Backfill`) and the merging of configuration layers
  (`ConfigMerge`).

Each operation is a function of its state; where the program changes state step by step, a
class or a method with loops is proved to compute that function, and the laws are lemmas
about the function over every input or every run. Code between two awaits is one atomic step,
and steps of overlapping operations may come in any order.

Where the program does not do what one might expect, a lemma shows a case, and beside it stands
the exact condition, or the positive result, given here in brackets:

- `SafeIsNotUnambiguous` [`SettledPatternsAreUnambiguous`, a sufficient condition] and
  `PairsHideAmbiguity` [`ReadingsAgreeExactly`] for the analysis of patterns;
- `CollisionLosesAFailure` [`RecoveryWithoutFailureExactly`, `RecoveriesHaveFailuresExactly`] for
  recoveries counted without their failure;
- `SingleNodeTreesEvictTheParent` [`RegistrationSparesTheParent`], and `StrandedForGood` with
  `StrandingIsReachable` [`StrandedExactly`, `ChildrenStayExactly`] for subagents that can no
  longer be completed;
- `OtelController.ShutdownDuringStartBreaksOwnership`, `OtelController.ShutdownDuringStartIsNotFinal`
  and `ShutdownDuringCleanupIsUnsafe` [`RequestIsSafeExactly`], and
  `CompositeSdk.ShutdownDuringStartIsNotFinal` with `RequestBetweenStarts`
  [`RequestKeepsOwnershipExactly`, `RequestSparesStoppedExactly`], for a shutdown requested too early;
- `StuckForGood` [`RetainedForEverExactly`, `RetriedForEverExactly`] for operations owned for ever;
- `EmptyAgentIdentifierIsAccepted` [`EmptyAgentIdentifierExactly`] for empty identifiers, and
  [`OwnNodeLeavesExactly`, `ChildrenAreListedExactly`] for what they do to the agent tree;
- `ClashesDoNotAssociate` [`AssociativeExactly`] for the merging of layers.

One disagreement between code and comment: `recordsSkipped` is documented as the records excluded
by the limit, but counts every eligible entry after the limit, whether or not it would have become
a record (`SkipsAreExcludedRecords` says when the two agree).

`dafny verify dfyconfig.toml` verifies the whole project.

## Model

| member | source | states |
|---|---|---|
| `CharacterRanges.MergeIsExact` | src/privacy/redact.ts:1026-1043 | merging any proper ranges keeps exactly their code points and yields sorted ranges with a gap between neighbours |
| `CharacterRanges.MergeIsCanonical` | src/privacy/redact.ts:1026-1043 | two lists of ranges merge to the same result if and only if they denote the same code points |
| `CharacterRanges.CanonicalIsUnique` | src/privacy/redact.ts:1026-1043 | a set of code points has one canonical list of ranges |
| `CharacterRanges.MergeRanges` | src/privacy/redact.ts:1026-1043 | the merging loop, for every input, computes the merge the lemmas above are about |
| `CharacterRanges.DisjointnessIsExact` | src/privacy/redact.ts:1079-1090 | the disjointness test accepts two proper domains exactly when both are known and share no code point |
| `CharacterRanges.CaseExpansionIsExact` | src/privacy/redact.ts:1012-1024 | case expansion adds exactly the other-case ASCII letters, and gives up exactly when a range leaves ASCII |
| `CharacterRanges.CaseExpansionIsIdempotent` | src/privacy/redact.ts:1012-1024 | expanding an expanded domain changes nothing |
| `CharacterRanges.ComputeAsciiCaseVariants` | src/privacy/redact.ts:1012-1024 | the expansion loop computes the expansion the lemmas are about |
| `RegexTree.CanMatchEmptyIsExact` | src/privacy/redact.ts:1045-1055 | nullability holds exactly when the tree denotes the empty word, for every tree whose minimum counts do not exceed the maximum |
| `RegexTree.FirstDomainSound` | src/privacy/redact.ts:1057-1077 | the first domain contains the first character of every non-empty word the tree denotes |
| `RegexTree.FirstDomainComplete` | src/privacy/redact.ts:1057-1077 | in a tree whose every part can match, each character of the first domain starts some word of the tree, which is constructed |
| `RegexTree.FirstDomainIsExact` | src/privacy/redact.ts:1057-1077 | in such a tree the first domain is exactly the set of first characters |
| `RegexAmbiguity.ParseMatches` | src/privacy/redact.ts:1092-1199 | the yield of every parse is a word of the tree: parses are ways of matching |
| `RegexAmbiguity.MatchHasParse` | src/privacy/redact.ts:1092-1199 | every word a tree denotes has a parse |
| `RegexAmbiguity.NarrowedMatches` | src/privacy/redact.ts:1057-1077 | replacing unknown domains by any single-character sets only removes words |
| `RegexAmbiguity.NarrowedParses` | src/privacy/redact.ts:1057-1077 | and only removes ways of matching, so that uniqueness proved for unknown domains holds for every actual character set |
| `RegexAmbiguity.BodyIsPrefixFree` | src/privacy/redact.ts:1092-1153 | when nested repetition and ambiguous alternation are excluded, no word of a repeated body is a proper prefix of another |
| `RegexAmbiguity.OneDivision` | src/privacy/redact.ts:1092-1153 | a non-empty text divides into iterations of such a body in one way only, so the iteration count is determined |
| `RegexAmbiguity.SafeRepetitionsAreUnambiguous` | src/privacy/redact.ts:703-713 | in a tree that passes all checks, every repetition matches any non-empty text in exactly one way |
| `RegexAmbiguity.OneSharing` | src/privacy/redact.ts:1155-1199 | adjacent repetitions with pairwise disjoint starts share any text out among them in one way |
| `RegexAmbiguity.SafeRunsAreUnambiguous` | src/privacy/redact.ts:1155-1199 | in a tree that passes all checks, every run of adjacent variable repetitions shares any text out in one way |
| `RegexAmbiguity.BranchOverlapIsExact` | src/privacy/redact.ts:1143-1153 | branches are judged to overlap exactly when one can be empty or two can start with the same character |
| `RegexAmbiguity.SafeIsNotUnambiguous` | src/privacy/redact.ts:703-713 | passing the checks does not make a whole pattern unambiguous: a starred letter, a two-letter class and another starred letter pass, and one text has two parses |
| `RegexVerdicts.VerdictIsExact` | src/privacy/redact.ts:703-713 | the verdict is the first that applies of: a repetition inside a repetition; inside a repetition an alternation with a branch that can be empty or two that may start alike; in two members of a sequence variable repetitions, outermost there, that may start alike; and safe exactly if none applies |
| `RegexUnambiguity.SettledPatternsAreUnambiguous` | src/privacy/redact.ts:703-713 | a pattern that passes the checks matches every text in one way as a whole, up to empty iterations, if besides the branches of every alternation start differently and what can follow a variable repetition never starts like its body |
| `RegexUnambiguity.SettledPatternsHaveOneParse` | src/privacy/redact.ts:703-713 | if no repeated body can be empty either, it has exactly one parse |
| `RegexUnambiguity.AmbiguousStarsAreNotSettled` | src/privacy/redact.ts:703-713 | the ambiguous pattern that passes the checks fails that further condition |
| `RegexParser.Parser.ParseAlternation` | src/privacy/redact.ts:722-730 | the recursive-descent routine ends on every text, stays in bounds and reads what the grammar function says |
| `RegexParser.Parser.ParseSequence` | src/privacy/redact.ts:732-742 | likewise for sequences |
| `RegexParser.Parser.ParseQuantifiedAtom` | src/privacy/redact.ts:744-761 | likewise for quantified atoms, with the simplifications of zero and one repetitions |
| `RegexParser.Parser.ParseAtom` | src/privacy/redact.ts:763-788 | likewise for atoms |
| `RegexParser.Parser.ParseGroup` | src/privacy/redact.ts:790-801 | likewise for groups |
| `RegexParser.ReadClass` | src/privacy/redact.ts:866-894 | the character-class loop reads the union of its tokens and ranges, or gives up, as the class grammar says |
| `RegexParser.Parse` | src/privacy/redact.ts:715-720 | a tree is returned exactly when the whole source was consumed without failure |
| `RegexSyntax.ShorthandEscapes` | src/privacy/redact.ts:943-968 | in and outside classes `\d`, `\w` and `\s` stand for exactly the ten digits, the letters, digits and underscore, and the white space, whatever the mode, and cannot end a range |
| `RegexSyntax.ControlEscapes` | src/privacy/redact.ts:977-986 | the letter escapes for control characters stand for their one character |
| `RegexSyntax.BoundaryEscapes` | src/privacy/redact.ts:916-918 | `\b` and `\B` are assertions outside classes; inside they are a backspace and a letter |
| `RegexSyntax.ByteEscapes` | src/privacy/redact.ts:987 | two hexadecimal digits in either case give their value |
| `RegexSyntax.UnitEscapes` | src/privacy/redact.ts:992 | four hexadecimal digits likewise, unless read as half of a pair |
| `RegexSyntax.BracedEscapes` | src/privacy/redact.ts:933-936 | a braced escape takes everything up to the next closing brace and gives the value of its hexadecimal digits, or is unknown without them |
| `RegexSyntax.PairEscapes` | src/privacy/redact.ts:617-622 | read as meant under the u flag, an escaped lead and trail surrogate are the one code point they encode |
| `RegexSyntax.CaretEscapes` | src/privacy/redact.ts:993-996 | a control escape stands for the code point of its letter modulo 32 |
| `RegexSyntax.IdentityEscapes` | src/privacy/redact.ts:998 | every other character after a backslash stands for itself, in both cases if case is ignored |
| `RegexSyntax.UnknownEscapes` | src/privacy/redact.ts:997 | the undecoded escapes take two characters and stand for an unknown set, in and outside classes |
| `RegexSyntax.PropertyEscapes` | src/privacy/redact.ts:929-932 | property escapes take everything up to the closing brace and stand for an unknown set |
| `RegexSyntax.BrokenEscapes` | src/privacy/redact.ts:927-941 | escapes that end early or lack their digits stand for an unknown set |
| `RegexSyntax.SimpleAtoms` | src/privacy/redact.ts:768-779 | the dot is an unknown set, the anchors match nothing, and a quantifier, brace or closing parenthesis where an atom should start is refused |
| `RegexSyntax.CapturingGroups` | src/privacy/redact.ts:790-801 | a capturing group is read as what it contains |
| `RegexSyntax.UnclosedAtoms` | src/privacy/redact.ts:790-808 | an unclosed group or class is refused |
| `RegexSyntax.QuantifiersTakeEffect` | src/privacy/redact.ts:744-761 | a quantifier, lazy or not, takes effect on the atom before it: never is nothing, once is the atom, everything else a repetition, variable unless the counts are equal |
| `RegexSyntax.BracesAreExact` | src/privacy/redact.ts:834-847 | braces are a quantifier exactly if they hold a number, or a number, a comma and possibly another |
| `RegexSyntax.NegatedClasses` | src/privacy/redact.ts:872 | a class that begins with a caret stands for an unknown set |
| `RegexSyntax.PlainTokens` | src/privacy/redact.ts:902-905 | a plain character in a class stands for itself, a surrogate pair for its code point |
| `RegexSyntax.ClassTurns` | src/privacy/redact.ts:876-890 | a token is added, or two with a dash between them as the range from one to the other; an unknown token, an end that is no single character or ends in the wrong order make the class unknown |
| `RegexSyntax.ClassesAreUnions` | src/privacy/redact.ts:866-894 | a class holds exactly what its tokens and ranges hold |
| `RegexSyntax.ClassEndIs` | src/privacy/redact.ts:850-864 | a class is closed by the first bracket that no backslash escapes |
| `RegexRoundTrip.ParseRecoversEveryTree` | src/privacy/redact.ts:715-848 | every tree the parser can build is recovered, case-folded if asked, from its fully parenthesised text |
| `RegexRoundTrip.ParserImageIsExact` | src/privacy/redact.ts:715-848 | the trees the parser can build are exactly the printable ones, when case is ignored those all of whose sets are unknown, the white-space shorthand, or ASCII with both cases of every letter |
| `RegexFolding.WidenedIsWhatMatches` | src/privacy/redact.ts:617-622 | a set in a tree read with case ignored, widened by the Kelvin sign and the long s where it has k and s, contains exactly the characters that fold like one of the set, which the compiled expression matches there |
| `RegexFolding.WidenedRepetitionsAreUnambiguous` | src/privacy/redact.ts:703-713 | widening takes no uniqueness away: if the tree passes the checks, every repetition of the widened tree matches any non-empty text in one way |
| `RegexFolding.WidenedSettledIsUnambiguous` | src/privacy/redact.ts:703-713 | and if it is settled besides, the widened tree matches every text in one way as a whole |
| `RegexSurrogates.ReadingsAgreeExactly` | src/privacy/redact.ts:908-999 | the analysis reads a pattern text as it is meant under the u flag, an escaped lead surrogate directly before an escaped trail surrogate being one code point, if and only if no such pair shows: outside a class, or changing the set of one, in a part not repeated zero times |
| `RegexSurrogates.UnpairedSourcesAreReadAsMeant` | src/privacy/redact.ts:908-999 | in particular they agree for every text in which no such pair is adjacent |
| `RegexSurrogates.NegatedClassesHidePairs` | src/privacy/redact.ts:866-894 | a pair inside a negated class does not show |
| `RegexSurrogates.UnobjectedSourceIsUnambiguous` | src/privacy/redact.ts:617-713 | if the analysis does not object to a pattern text and no pair shows in it, every repetition of the compiled expression, widened when case is ignored, matches any non-empty text in one way |
| `RegexSurrogates.SettledSourceIsUnambiguous` | src/privacy/redact.ts:617-713 | if it is settled besides, the compiled expression matches every text in one way |
| `RegexSurrogates.PairsHideAmbiguity` | src/privacy/redact.ts:617-713 | a starred alternation of one character written as a pair of escapes and as itself passes the analysis, and the compiled expression matches one character in two ways |
| `PatternValidation.HasUnsupportedConstruct` | src/privacy/redact.ts:670-691 | the scan finds exactly the backreferences and special groups outside classes |
| `PatternValidation.UnsupportedIsExact` | src/privacy/redact.ts:670-691 | an unsupported construct is found exactly if some escaped position holds a digit from 1 to 9 or a named backreference, or some position neither escaped nor inside a class opens a group with a question mark and no colon |
| `PatternValidation.PrefixIsCutOff` | src/privacy/redact.ts:649-652 | the prefix `(?i)`, and nothing else, asks for case to be ignored and is cut off |
| `PatternValidation.AcceptedPatternsAreUnambiguous` | src/privacy/redact.ts:642-668 | a configured pattern that validation accepts has only repetitions that match any non-empty text in one way, unless a pair of surrogate escapes shows |
| `PatternValidation.AcceptedExactly` | src/privacy/redact.ts:638-668 | a pattern is accepted exactly if it has at most 256 characters, no unsupported construct, compiles without matching the empty text, and its tree, if it can be read, is open to none of the three objections |
| `Redaction.SelectNonOverlapping` | src/privacy/redact.ts:333-345 | the selection loop computes the greedy choice the next lemma is about |
| `Redaction.SortIsStable` | src/privacy/redact.ts:334-351 | the matches are sorted by start, longest first, then by kind; none is lost or doubled, and those alike keep the order they came in |
| `Redaction.SelectionIsGreedy` | src/privacy/redact.ts:333-351 | the selected matches are in bounds, ordered and disjoint, are among the given ones, and every rejected match starts inside a selected one |
| `Redaction.WeaveRestores` | src/privacy/redact.ts:319-331 | the text around and inside the spans, put together, is the input: nothing is lost or doubled |
| `Redaction.Splice` | src/privacy/redact.ts:319-331 | the splicing loop writes exactly the text around the spans and the replacements |
| `Redaction.ReplaceMatches` | src/privacy/redact.ts:319-331 | the output is the input with exactly the selected spans replaced; without a salt any match is an error |
| `Redaction.MarksStand` | src/privacy/redact.ts:319-331 | the i-th replacement is the mark of the i-th match: its kind and the twelve characters the salt gives for its value; the i-th gap is the text between its neighbours |
| `Redaction.RunIsExact` | src/privacy/redact.ts:573-615 | the successive matches are enumerated completely if and only if they fit the budget |
| `Redaction.ApplyPattern` | src/privacy/redact.ts:573-615 | for every matcher, one returning empty matches included, rewriting ends; it succeeds exactly when input, matches and output fit, and says which limit failed |
| `Redaction.ApplyWithSalt` | src/privacy/redact.ts:585-615 | the loop's tracked length is the real output length, and the shared counter ends it |
| `Redaction.ApplyWithoutSalt` | src/privacy/redact.ts:585-615 | without a salt the pattern succeeds exactly when it does not match |
| `Redaction.RunCustomRedactors` | src/privacy/redact.ts:268-280 | all patterns in order share one counter, and any failure stops the run |
| `Redaction.AppliedPatternsAreUnambiguous` | src/privacy/redact.ts:268-280 | patterns that are not rejected before a run are all accepted by validation, and so applied with that guarantee |
| `Redaction.CompletedRunIsBounded` | src/privacy/redact.ts:268-280 | a completed run made at most 4096 replacements in total and its output fits one million characters |
| `Redaction.PatternKeepsTheRest` | src/privacy/redact.ts:573-615 | outside the matches the text is kept, and each match is replaced by its own salted mark |
| `Redaction.RunMarksStand` | src/privacy/redact.ts:585-615 | each match of a pattern is replaced by the pattern's name and the salted text of that match |
| `Redaction.PatternSucceedsExactly` | src/privacy/redact.ts:573-615 | an accepted pattern succeeds on a text of at most a million characters exactly if it has no match, or there is a salt, its matches end and fit the shared count of 4096, and the marked text has at most a million characters |
| `Redaction.FailuresAreTold` | src/privacy/redact.ts:573-615 | why a pattern is given up: the length of the text counts first, then the validation; without a salt a first match that exceeds the budget counts before the salt that is missing |
| `Redaction.RejectedExactly` | src/privacy/redact.ts:624-640 | a run is rejected exactly for more than 16 patterns, one that validation refuses, or a name longer than 64 characters |
| `Redaction.RunsAreStages` | src/privacy/redact.ts:268-280 | a run completes exactly if its patterns succeed one after the other, each on the text and the count that the one before left, and the last of these is the result |
| `BoundedMaps.PutKeeps` | src/util/bounded-map.ts:42-46 | setting a key keeps the map well formed and within its limit; a new key over the limit evicts exactly one other entry, an existing key none |
| `BoundedMaps.DeleteKeeps` | src/util/bounded-map.ts:53-55 | deleting removes exactly that key and its entry |
| `BoundedMaps.DeleteKeepsOrder` | src/util/bounded-map.ts:53-55 | it cuts the key out of the insertion order and leaves the others as they stand |
| `BoundedMaps.OrderIsSize` | src/util/bounded-map.ts:30-32 | the number of entries is the length of the insertion order |
| `FailureAccounting.Ledger.RecordFailure` | src/pi/subagent-spawn.ts:871-891 | one report updates registry, archive and the two counters as specified |
| `FailureAccounting.Ledger.RecordArchivedFailure` | src/pi/subagent-spawn.ts:893-915 | a report about an archived child counts only what the archive does not already claim |
| `FailureAccounting.CountedAtMostOnce` | src/pi/subagent-spawn.ts:871-944 | over every run and for every hash function, evictions included, no child's failure and no recovery is counted twice |
| `FailureAccounting.CountedUnlessClaimed` | src/pi/subagent-spawn.ts:871-915 | a child's failure is ever counted if and only if, at its first report, the archive did not falsely claim it |
| `FailureAccounting.ExactArchiveIsFaithful` | src/pi/subagent-spawn.ts:871-944 | with an archive that answers like a set, failures and recoveries are counted exactly when reported, and every counted recovery has a counted failure |
| `FailureAccounting.FreshLedgerIsFaithful` | src/pi/subagent-spawn.ts:871-944 | the same over every run from an empty ledger |
| `FailureAccounting.CollisionLosesAFailure` | src/util/bounded-membership-filter.ts:22-33 | with colliding digests a recovery can be counted for a child whose failure is not |
| `FailureAccounting.RecoveryWithoutFailureExactly` | src/pi/subagent-spawn.ts:871-944 | that happens to a new child if and only if the archive claims its failure at its first report and some report confirms a recovery that the archive does not claim then |
| `FailureAccounting.RecoveriesHaveFailuresExactly` | src/pi/subagent-spawn.ts:871-944 | over a run of a new ledger every counted recovery has a counted failure if and only if that happens at no first report |
| `AgentTree.AgentTreeTracker.RegisterAgent` | src/pi/agent-tree-tracker.ts:77-93 | registration updates the tree as specified, parent retention, eviction and linking included |
| `AgentTree.AgentTreeTracker.DetachChildReference` | src/pi/agent-tree-tracker.ts:178-180 | the loop removes the evicted agent from every node's children and changes nothing else |
| `AgentTree.AgentTreeTracker.LinkParentToChild` | src/pi/agent-tree-tracker.ts:167-176 | the parent lists the child and its fan-out grows exactly for a new child |
| `AgentTree.AgentTreeTracker.UpdateStatus` | src/pi/agent-tree-tracker.ts:95-102 | a status changes exactly when the node is retained and the transition allowed |
| `AgentTree.AgentTreeTracker.Summarize` | src/pi/agent-tree-tracker.ts:116-142 | the summary loop computes counts, sums, the greatest depth and the greatest width over the nodes in scope |
| `AgentTree.RunsKeepTreesConsistent` | src/pi/agent-tree-tracker.ts:60-192 | every reachable tree is within capacity, files nodes under their identifiers, lists only retained children and never more than the fan-out, and orphan flags imply orphaned status |
| `AgentTree.RegistrationSparesTheParent` | src/pi/agent-tree-tracker.ts:77-93 | with capacity two or more, registering a child never evicts its retained parent, which then lists the child |
| `AgentTree.SingleNodeTreesEvictTheParent` | src/pi/agent-tree-tracker.ts:77-93 | with capacity one it always does |
| `AgentTree.NewChildOrder` | src/pi/agent-tree-tracker.ts:157-165 | a new child's registration moves the parent to the youngest place and evicts the then oldest node |
| `AgentTree.NewChildEvictsExactly` | src/pi/agent-tree-tracker.ts:77-93 | a new child drives a node out if and only if the tree is full and that node is the oldest, a retained parent apart |
| `AgentTree.StatusNeverGoesBack` | src/pi/agent-tree-tracker.ts:194-199 | while an agent stays retained, its status class never goes back from terminal to active to starting |
| `AgentTree.TerminalStatusIsFinal` | src/pi/agent-tree-tracker.ts:77-102 | a terminal status changes if and only if the same status is registered again with a lineage that is now an orphan's |
| `AgentTree.SummaryAddsUp` | src/pi/agent-tree-tracker.ts:116-142 | status counts add up to the nodes in scope, active children stay within the fan-out, orphan flags within orphaned statuses, the width within the nodes |
| `AgentTree.RegistrationTakesEffect` | src/pi/agent-tree-tracker.ts:77-93 | a registration the node's status does not allow changes nothing; every other files a new node, an orphan exactly if its lineage says so or its parent is not retained, drives out at most the one node next in line, and only for a new agent, lists the agent under its retained parent, whose fan-out grows by one exactly for a new child, and leaves every other node as it was but for the one driven out |
| `AgentTree.UpdateTakesEffect` | src/pi/agent-tree-tracker.ts:95-102 | an update changes the status of that node, if it is retained and may take it, and nothing else |
| `AgentTree.SummaryIsExact` | src/pi/agent-tree-tracker.ts:116-142 | every figure of a summary is that of the nodes of the tree with the given root: how many have a status, how many are flagged, how many active children and fan-outs they have in all, the greatest depth, and the most on one level |
| `SubagentOperations.EnterSpawnKeeps` | src/pi/subagent-spawn.ts:356-396 | filing a spawn, evicting the oldest if full, keeps spans, gauge, counters and durations consistent |
| `SubagentOperations.LeaveSpawnKeeps` | src/pi/subagent-spawn.ts:614-643 | ending a spawn keeps them consistent and gives it its one duration |
| `SubagentOperations.EnterWaitJoinKeeps` | src/pi/subagent-spawn.ts:658-692 | filing a wait or join keeps them consistent |
| `SubagentOperations.LeaveWaitJoinKeeps` | src/pi/subagent-spawn.ts:714-738 | ending a wait or join keeps them consistent and removes exactly that entry |
| `SubagentSession.OpensEmpty` | src/pi/handler-runtime.ts:335-348 | a session opens with empty registries of the sizes asked for, no span and nothing counted, and its own agent alone in a tree with room for one more than the spawns and at least two |
| `SubagentSession.RunsKeepSessionsSound` | src/pi/integration-api.ts:112-268 | every run of guarded calls keeps the whole session state sound |
| `SubagentSession.ReachableCounts` | src/pi/handler-internals.ts:927-1007 | in every reachable state spawns started are active, ended or evicted; the gauge is the size of the three registries and of the set of open spans; no span ended twice; active children distinct; at most one duration a spawn, exactly one once ended |
| `SubagentSession.StartKeeps` | src/pi/integration-api.ts:112-146 | an accepted start leaves its child retained with status starting and, unless the session's identifier is empty, listed under the session's own node |
| `SubagentSession.StartTakesEffect` | src/pi/integration-api.ts:112-146 | a start is accepted exactly for a new spawn and a child held by no node or active spawn; it files the spawn, not yet launched, under a new active span, evicting the oldest of a full registry, and registers the child as starting below the session's own agent |
| `SubagentSession.LaunchTakesEffect` | src/pi/subagent-spawn.ts:403-422 | each reason for refusing a launch, and its effect otherwise: the one duration is recorded and the starting child activated, unless the launch was complete already |
| `SubagentSession.StartOfWaitJoinTakesEffect` | src/pi/subagent-spawn.ts:658-692 | a wait or join is accepted exactly under a new identifier; it is filed with its options under a new active span, evicting the oldest of a full registry, and activates a retained starting child exactly if its options say active |
| `SubagentSession.CompletionTakesEffect` | src/pi/subagent-spawn.ts:424-444 | each reason for refusing a completion, and its effect otherwise: that spawn ends once with one duration, its own child takes the terminal status, and a failure is accounted for a failed child only |
| `SubagentSession.LaunchFailureTakesEffect` | src/pi/subagent-spawn.ts:446-481 | each reason for refusing a launch failure, and its effect otherwise: the child fails, a launch failure is counted for it and no child failure |
| `SubagentSession.LaunchCompletesOnce` | src/pi/subagent-spawn.ts:403-422 | completing a launch records the duration and activates the child once; repeating it changes nothing |
| `SubagentSession.EndOfWaitJoinTakesEffect` | src/pi/subagent-spawn.ts:694-738 | an end is accepted exactly for a filed entry that is not named otherwise, whose spawn and child are not contradicted, and whose child may take the status; a status, join status or propagation flag that is given takes effect, otherwise the filed one; it removes that entry, closes its span, moves the child of the entry to that status, and accounts a failed child of a join, recovered exactly if not propagated and completed |
| `SubagentSession.FailureIsCounted` | src/pi/subagent-spawn.ts:861-891 | after a report the failure is counted or was claimed by the archive, and likewise a confirmed recovery |
| `SubagentSession.InterruptedSpawnsEnd` | src/pi/subagent-spawn.ts:483-493 | every spawn found active by an interruption ends, not by eviction, with exactly one duration, and no recovery is counted |
| `SubagentSession.RefusalsChangeNothing` | src/pi/integration-api.ts:112-268 | a refused call leaves the whole state as it was |
| `SubagentSession.InterruptionEndsEverything` | src/pi/subagent-spawn.ts:483-493 | interruption empties the three registries, closes every span and returns the gauge to zero |
| `SubagentSession.InterruptionCancelsExactly` | src/pi/subagent-spawn.ts:483-493 | interruption cancels exactly the retained children of active spawns, waits and joins that are not terminal, and changes no other node and no account |
| `SubagentSession.StrandedForGood` | src/pi/subagent-spawn.ts:1047-1060 | a spawn whose child the tree has evicted can be neither completed nor failed by any sequence of calls; only eviction or interruption ends it |
| `SubagentSession.StrandedExactly` | src/pi/integration-api.ts:112-146 | a call takes the child of a spawn that stays active out of the tree if and only if it is an accepted start, the tree is full and that child is its oldest node, the session's own apart unless its identifier is empty |
| `SubagentSession.ChildrenStayExactly` | src/pi/integration-api.ts:112-268 | over any run the children of all active spawns stay retained throughout if and only if no call does that to one of them |
| `SubagentSession.OwnNodeLeavesExactly` | src/pi/agent-tree-tracker.ts:157-165 | the session's own node leaves the tree if and only if its identifier is empty, it is the oldest node of a full tree and a start is accepted |
| `SubagentSession.ChildrenAreListedExactly` | src/pi/agent-tree-tracker.ts:167-176 | an accepted start lists its child under the session's own node if and only if the session's identifier is not empty |
| `SubagentSession.StrandingIsReachable` | src/pi/handler-runtime.ts:335-348 | five ordinary calls with two spawn places lead to such a spawn |
| `SubagentTelemetry.Telemetry.StartActiveSpan` | src/pi/handler-internals.ts:927-933 | starting a span counts it once |
| `SubagentTelemetry.Telemetry.EndSpan` | src/pi/handler-internals.ts:945-957 | ending a span takes it off the gauge only if it was on it |
| `SubagentTelemetry.Telemetry.EvictSpan` | src/pi/handler-internals.ts:976-985 | eviction ends the span and marks it |
| `SubagentTelemetry.Telemetry.IsChildRetained` | src/pi/integration-api.ts:341-347 | the loop finds a child exactly when the tree or an active spawn holds it |
| `SubagentTelemetry.Telemetry.StartSubagent` | src/pi/integration-api.ts:112-146 | the guards and the steps of starting compute the specified transition |
| `SubagentTelemetry.Telemetry.CompleteSubagentLaunch` | src/pi/subagent-spawn.ts:403-422 | completing a launch computes the specified transition |
| `SubagentTelemetry.Telemetry.CompleteSubagent` | src/pi/subagent-spawn.ts:424-444 | completing a spawn computes the specified transition |
| `SubagentTelemetry.Telemetry.FailSubagent` | src/pi/subagent-spawn.ts:446-481 | failing a spawn computes the specified transition |
| `SubagentTelemetry.Telemetry.StartWaitOrJoin` | src/pi/subagent-spawn.ts:658-692 | starting a wait or join computes the specified transition |
| `SubagentTelemetry.Telemetry.EndWaitOrJoin` | src/pi/subagent-spawn.ts:694-738 | ending a wait or join computes the specified transition |
| `SubagentTelemetry.Telemetry.InterruptActiveOperations` | src/pi/subagent-spawn.ts:483-493 | the three loops compute the specified interruption |
| `OtelController.SdkController.Start` | src/otel/sdk.ts:84-129 | a start request does what its state allows, up to its first await |
| `OtelController.SdkController.HandleStartError` | src/otel/sdk.ts:98-129 | a failed start cleans up unless the error says it has done so |
| `OtelController.SdkController.RequestStop` | src/otel/sdk.ts:135-146 | a shutdown request starts, joins or repeats a shutdown as its state says |
| `OtelController.SdkController.ReturnShutdown` | src/otel/sdk.ts:148-194 | the bounded result decides between shut down, failed and pending |
| `OtelController.SdkController.Settle` | src/otel/sdk.ts:169-214 | a late settlement is applied once, by the observer of the operation it belongs to |
| `OtelController.PossibleStepsAre` | src/otel/sdk.ts:84-214 | which steps can come, told by the promises alone: a shutdown returns only to the request that waits for it, and only what has timed out settles |
| `OtelController.StartRequestTakesEffect` | src/otel/sdk.ts:84-111 | a start request calls the factory from idle only, and leaves the controller starting with the SDK, or failing |
| `OtelController.StartErrorTakesEffect` | src/otel/sdk.ts:98-129 | a plain start error has the SDK shut down once; one that reports its own cleanup is taken at its word, and no report means that nothing is left |
| `OtelController.StartSettlesTakesEffect` | src/otel/sdk.ts:98-111 | a start that resolves leaves the controller started with its SDK; one that rejects fails as said |
| `OtelController.CleanupTakesEffect` | src/otel/sdk.ts:113-129 | the cleanup of a failed start leaves the controller failed with its result, without an SDK exactly if it completed, and observed further exactly if it timed out |
| `OtelController.StopRequestTakesEffect` | src/otel/sdk.ts:135-146 | a shutdown request leaves the controller shutting down and calls the SDK once, unless all is cleaned up or an operation is still to settle or to return |
| `OtelController.ShutdownResultTakesEffect` | src/otel/sdk.ts:148-194 | a shutdown that completes leaves the controller shut down without an SDK, one that fails leaves it failed and one that times out pending, both with their SDK; only the last is observed further |
| `OtelController.SettlementTakesEffect` | src/otel/sdk.ts:169-214 | only the settlement of the pending operation decides anything: a cleanup after a failed start its result, a shutdown the state, and either gives up the SDK exactly if it completed |
| `OtelController.OrderlyRunsAreSound` | src/otel/sdk.ts:84-214 | over every run in which shutdown waits for start, state, promises and running operations agree |
| `OtelController.FreshRunsAreSafe` | src/otel/sdk.ts:84-214 | in such runs the factory is called at most once, at most one SDK shutdown is in flight, and the SDK is kept exactly from creation until a cleanup completes without error |
| `OtelController.ReleasedForGood` | src/otel/sdk.ts:135-214 | in such runs a controller that is shut down, or whose failed start is cleaned up, stays so and calls the SDK no more |
| `OtelController.CleanupIsFinal` | src/otel/sdk.ts:135-214 | in such runs no other SDK shutdown is begun after a cleanup has completed without error |
| `OtelController.CleanupIsRetried` | src/otel/sdk.ts:135-146 | until then a request with none running calls the SDK's shutdown again |
| `OtelController.RequestIsSafeExactly` | src/otel/sdk.ts:84-214 | from every state such a run can lead to, a shutdown request keeps at most one SDK shutdown in flight and state shutdown final over every continuation if and only if the controller is not starting |
| `OtelController.ShutdownDuringStartBreaksOwnership` | src/otel/sdk.ts:98-146 | whenever the SDK is being started, a shutdown request can lead to a started controller and two shutdowns in flight |
| `OtelController.ShutdownDuringStartIsNotFinal` | src/otel/sdk.ts:98-146 | and to leaving state shutdown |
| `OtelController.ShutdownDuringCleanupIsUnsafe` | src/otel/sdk.ts:98-146 | while a failed start is cleaned up, a request puts two shutdowns in flight at once, or without an SDK can lead to leaving state shutdown |
| `CompositeSdk.CompositeOtelSignalSdk.ListOwnedSignalSdks` | src/pi/handler-runtime.ts:782-788 | the owned SDKs are listed youngest first |
| `CompositeSdk.CompositeOtelSignalSdk.ReleaseSignalSdk` | src/pi/handler-runtime.ts:790-795 | the search loop releases exactly that SDK |
| `CompositeSdk.CompositeOtelSignalSdk.ResumeStart` | src/pi/handler-runtime.ts:714-718 | the resumed start begins the next SDK or is done |
| `CompositeSdk.CompositeOtelSignalSdk.SettleAttempt` | src/pi/handler-runtime.ts:747-780 | settled shutdowns release the fulfilled ones, set the state and report the first failure |
| `CompositeSdk.StartTakesEffect` | src/pi/handler-runtime.ts:708-731 | a start begins the first SDK from idle only; each that has started is followed by the next, the third by the composite being started |
| `CompositeSdk.FailureTakesEffect` | src/pi/handler-runtime.ts:716-731 | a failed start shuts down every owned SDK once, youngest first, and keeps the state until the bound or the cleanup is over |
| `CompositeSdk.RequestTakesEffect` | src/pi/handler-runtime.ts:733-745 | a shutdown request changes nothing once shut down or while one goes on; every other one shuts down every owned SDK once, youngest first |
| `CompositeSdk.SettlingTakesEffect` | src/pi/handler-runtime.ts:747-780 | when a round settles exactly the SDKs whose shutdown succeeded are released; a requested shutdown then decides the state and gives up its promise, a cleanup only while its bound lasts |
| `CompositeSdk.FirstFailureIs` | src/pi/handler-runtime.ts:764-780 | a failure is reported exactly when some shutdown failed, and it is the first listed |
| `CompositeSdk.ListOwnedIs` | src/pi/handler-runtime.ts:782-788 | every owned SDK is listed once, in the reverse of the starting order |
| `CompositeSdk.RunsHoldEverySdk` | src/pi/handler-runtime.ts:708-795 | over every run, whenever shutdown is asked for, no SDK whose start was begun is forgotten before its own shutdown has succeeded |
| `CompositeSdk.FreshRunsHoldEverySdk` | src/pi/handler-runtime.ts:708-795 | the same over every run of a new composite |
| `CompositeSdk.RunsKeepOwnership` | src/pi/handler-runtime.ts:708-795 | over every run in which no shutdown is asked for while a start goes on that will begin or receive an SDK, background cleanups included, ownership is exact |
| `CompositeSdk.FreshRunsKeepOwnership` | src/pi/handler-runtime.ts:708-795 | in such runs the owned SDKs are exactly those whose start was begun and whose shutdown has not succeeded, and a composite that is shut down owns nothing |
| `CompositeSdk.RequestKeepsOwnershipExactly` | src/pi/handler-runtime.ts:733-762 | from every state such a run can lead to, a shutdown request keeps ownership exact over every continuation if and only if at that moment no start goes on that will begin or receive an SDK |
| `CompositeSdk.ShutdownDuringStartIsNotFinal` | src/pi/handler-runtime.ts:716-762 | however far the start has come, a request can succeed before the awaited SDK has started: the composite is then shut down, takes that SDK back although it has been shut down, goes on to start the next, and shuts the one taken back down again |
| `CompositeSdk.RequestSparesStoppedExactly` | src/pi/handler-runtime.ts:733-795 | from every such state, no SDK that has been shut down is called again over any continuation of a request under exactly the same condition |
| `CompositeSdk.RequestBetweenStarts` | src/pi/handler-runtime.ts:708-762 | a request between two starts can succeed before the second begins: the composite is then shut down and owns the SDK it starts next |
| `CompositeSdk.CleanupTakesRequests` | src/pi/handler-runtime.ts:716-762 | state starting is not that condition: a request during the bounded cleanup of a failed start keeps ownership exact |
| `CompositeSdk.PartialShutdownKeepsTheFailing` | src/pi/handler-runtime.ts:764-780 | a settled shutdown leaves exactly the failing SDKs owned, is over exactly when none failed, and a retry calls exactly those |
| `CompositeSdk.StoppedIsNotCalledAgain` | src/pi/handler-runtime.ts:764-795 | while ownership is exact, no shutdown call goes to an SDK whose shutdown has succeeded |
| `OtelOwnership.ProcessOtelOperationOwnership.RetainOperation` | src/pi/otel-operation-ownership.ts:65-80 | an unfinished operation is retained as settling or retryable by its result |
| `OtelOwnership.RetainAddsExactly` | src/pi/otel-operation-ownership.ts:65-80 | retaining an unfinished result adds exactly one operation, under a new identifier and with the kind of the call, and keeps all others as they were; a completed one adds none |
| `OtelOwnership.OwnedAsGiven` | src/pi/otel-operation-ownership.ts:65-156 | over every run each owned operation has the kind given when it was retained |
| `OtelOwnership.ProcessOtelOperationOwnership.RetryUnresolvedOperations` | src/pi/otel-operation-ownership.ts:104-123 | the nested loops, resumed anywhere, find the next retry or the answer |
| `OtelOwnership.ProcessOtelOperationOwnership.ReturnRetry` | src/pi/otel-operation-ownership.ts:110-119 | a retry's result releases the operation and resumes, or ends the resolution |
| `OtelOwnership.ProcessOtelOperationOwnership.ApplyPendingSettlement` | src/pi/otel-operation-ownership.ts:136-149 | a settlement is applied only by the operation that still waits for it |
| `OtelOwnership.ProcessOtelOperationOwnership.TakeStartupDiagnostic` | src/pi/otel-operation-ownership.ts:90-94 | the diagnostic is given exactly when something is unresolved and none was given |
| `OtelOwnership.RunsKeepOwnership` | src/pi/otel-operation-ownership.ts:56-156 | over every run a settling operation has a settlement to come, and only an owned, non-settling operation is being retried |
| `OtelOwnership.AnswersAreTrue` | src/pi/otel-operation-ownership.ts:104-123 | the answer a resolution finds is true if and only if nothing is unresolved at that moment |
| `OtelOwnership.AnswersAgeExactly` | src/pi/otel-operation-ownership.ts:82-102 | until it is read, which joining calls share, it stays true over a step if and only if the step neither retains a first unfinished operation nor settles the last one |
| `OtelOwnership.CallersAreToldTheLastAnswer` | src/pi/otel-operation-ownership.ts:82-102 | what a call is told is the answer last found, or that a retry threw |
| `OtelOwnership.EveryCallIsToldOnce` | src/pi/otel-operation-ownership.ts:82-102 | over every run no call waits once no resolution is under way, and calls told and waiting are all the calls made |
| `OtelOwnership.ProcessOtelOperationOwnership.FinishResolution` | src/pi/otel-operation-ownership.ts:96-102 | finishing a resolution tells its verdict to every call that asked meanwhile |
| `OtelOwnership.LeavesOnlyCompleted` | src/pi/otel-operation-ownership.ts:104-156 | an operation leaves the set if and only if its own retry or settlement completed |
| `OtelOwnership.RetriesAreOrdered` | src/pi/otel-operation-ownership.ts:104-123 | a retry is begun only of an operation that is not settling, and a shutdown only from a moment at which no flush was owned |
| `OtelOwnership.RetriesFollowTheKindsGiven` | src/pi/otel-operation-ownership.ts:104-123 | over the kinds given when operations were retained: a retry is begun only of an operation that is not settling, and a shutdown only from a moment at which no flush was owned |
| `OtelOwnership.OneDiagnosticPerEpisode` | src/pi/otel-operation-ownership.ts:90-156 | while something stays unresolved the diagnostic is given at most once |
| `OtelOwnership.CompletedRetriesResolve` | src/pi/otel-operation-ownership.ts:104-123 | if nothing is settling and every retry completes, one resolution empties the set and answers true |
| `OtelOwnership.AllCanBeResolved` | src/pi/otel-operation-ownership.ts:104-156 | from every state a run leads to, some run of settlements and retries leaves nothing unresolved |
| `OtelOwnership.StuckForGood` | src/pi/otel-operation-ownership.ts:104-156 | an operation that settles without a settlement to come and is not being retried stays owned over every run, and every later answer is false |
| `OtelOwnership.RetainedForEverExactly` | src/pi/otel-operation-ownership.ts:65-80 | a retained operation is owned whatever happens afterwards if and only if its result timed out without a settlement |
| `OtelOwnership.RetriedForEverExactly` | src/pi/otel-operation-ownership.ts:110-119 | and likewise a retried one, by the result of the retry |
| `LineageText.TraceparentRoundTrip` | src/pi/agent-lineage.ts:242-268 | a header built from valid identifiers reads back as those identifiers in lower case with the low eight flag bits |
| `LineageText.ParsedHeadersAreCanonical` | src/pi/agent-lineage.ts:242-268 | every accepted header is, lower-cased, the header built from what was read |
| `LineageText.SplitIsExact` | src/pi/agent-lineage.ts:270-273 | splitting a trace state at commas loses nothing and leaves no comma |
| `LineageText.IsValidTracestate` | src/pi/agent-lineage.ts:270-302 | the loop accepts exactly well-formed members with distinct keys within the limits |
| `LineageText.TracestateIsExact` | src/pi/agent-lineage.ts:270-302 | a trace state is accepted exactly if it has at most 512 characters and 32 parts, each a member within white space, with pairwise different keys |
| `LineageText.MembersAre` | src/pi/agent-lineage.ts:275-302 | a member is exactly a key, an equals sign and a printable value that does not end in a space |
| `LineageText.KeysAre` | src/pi/agent-lineage.ts:287-289 | a key is exactly a simple key or a tenant, an at sign and a system, with their lengths and characters |
| `LineageText.TrimIs` | src/pi/agent-lineage.ts:277-278 | trimming cuts white space from both ends, and all of it |
| `LineageText.ParsedExactly` | src/pi/agent-lineage.ts:253-268 | a header is accepted exactly if it is version 00 with two identifiers that are not all zero and two hexadecimal digits, in either case |
| `LineageText.DecimalReadsBack` | src/pi/agent-lineage.ts:374 | the decimal text of a depth has its value and no leading zero |
| `Lineage.SanitizeEnvironment` | src/pi/agent-lineage.ts:402-408 | the loop removes exactly the propagation variables |
| `Lineage.ValidNamesAreSeparate` | src/config/validate.ts:489-502 | names that pass validation differ from each other and from the four headers |
| `Lineage.EncodedFields` | src/pi/subagent-spawn.ts:495-533 | every propagation variable of the encoded environment has exactly the value the parent gave it, or none |
| `Lineage.RoundTrip` | src/pi/agent-lineage.ts:134-159 | the child reads exactly what the parent encoded if and only if identifiers are lineage values, the depth is at most 64 and a trace state is well formed; otherwise the envelope is malformed |
| `Lineage.ChildOfEncoder` | src/pi/agent-lineage.ts:99-132 | the child keeps workflow and root, has the encoder as parent, lies one level deeper and carries spawn, session, descriptor and trace as sent, the parent's trace and span identifiers in lower case if a header is sent and none otherwise; role, display name and capability are those of the options, the descriptor or the default; otherwise it starts over as an orphaned root with the reason or fails with it |
| `Lineage.InheritedVariablesHaveNoSay` | src/pi/agent-lineage.ts:402-408 | the child's lineage does not depend on the environment the parent inherited |
| `Lineage.CreateReadsOnlyKeys` | src/pi/agent-lineage.ts:99-159 | a lineage depends on the propagation variables only |
| `Lineage.ReadFailsExactly` | src/pi/agent-lineage.ts:134-268 | whatever the environment, it cannot be read exactly for the first that applies of nine faults, each with its reason |
| `Lineage.CompletenessFailsExactly` | src/pi/agent-lineage.ts:214-240 | completeness finds a set agent identifier stale and a missing workflow, parent, root, depth or spawn partial, in any environment in which some propagation variable is set |
| `Lineage.CreationFailsExactly` | src/pi/agent-lineage.ts:99-212 | a lineage is refused, or starts over with that reason if it may fail open, exactly for the first of these faults |
| `Lineage.AcceptedLineageIs` | src/pi/agent-lineage.ts:99-159 | every field of an accepted lineage is the variable of its own name or its default; a header counts before the variables |
| `Lineage.NamesAreValidExactly` | src/config/validate.ts:489-502 | the names are in order exactly if each is a name and no two of them and of the two headers are the same but for their case |
| `Lineage.DisabledPropagationMakesRoots` | src/pi/subagent-spawn.ts:495-504 | with propagation disabled the child is a root of its own whatever it inherits |
| `Lineage.DepthIsBounded` | src/pi/agent-lineage.ts:467-470 | no lineage ever has a depth beyond 65 |
| `Lineage.ChainsKeepTheirRoot` | src/pi/agent-lineage.ts:99-132 | along any chain of spawns workflow and root stay fixed and the depth counts the spawns |
| `Lineage.ChainsEndAtTheLimit` | src/config/validate.ts:526-531 | beyond depth 64 no child accepts the envelope, and one that fails open starts over at depth 0 |
| `Lineage.EmptyAgentIdentifierExactly` | src/pi/agent-lineage.ts:99-159 | an agent gets the empty identifier if and only if it trusts an environment found in order in which the identifier is set but empty; with completeness required it takes no other identifier from its environment |
| `Lineage.CompletenessIgnoresEmptyIdentifiers` | src/pi/agent-lineage.ts:134-159 | whether an environment is in order, completeness required or not, does not depend on whether the identifier is set but empty or not set |
| `Lineage.EmptyAgentIdentifierIsAccepted` | src/pi/agent-lineage.ts:99-109 | an environment that sets nothing but an empty agent identifier is such a one |
| `Backfill.BuildRecords` | src/commands/obs-backfill.ts:285-328 | the builder's loop keeps the first conversions up to the limit and counts a skip for every eligible entry after it |
| `Backfill.BuildIsBounded` | src/commands/obs-backfill.ts:285-328 | records stay within the limit, records and skips within the eligible entries, skips occur only with exactly limit records, and without a skip nothing is left out |
| `Backfill.SkipsAreExcludedRecords` | src/commands/obs-backfill.ts:297-303 | the skip count is the number of excluded records if and only if every entry after the limit would have become a record |
| `Backfill.DeliveryProgress.EmitAndFlush` | src/commands/obs-backfill.ts:679-697 | emission stops at the first failing record, and flush and progress are as they must be there |
| `Backfill.ExportRecords` | src/commands/obs-backfill.ts:666-755 | the export as a whole, set-up, shutdown and the disposal of an exporter that arrives too late included, reports the first thing that stopped it |
| `Backfill.DeliveryAddsUp` | src/commands/obs-backfill.ts:812-837 | in every course confirmed, unknown and not attempted add up to the records selected, the exporter got exactly the first records attempted, a normal return means all confirmed, and an exporter that is obtained, even after a failed set-up, is shut down exactly once |
| `Backfill.DeliverySaysWhatHappened` | src/commands/obs-backfill.ts:812-837 | in every course the records not attempted are those never handed to the exporter, and those handed over are all confirmed if they were all flushed and all unknown otherwise |
| `Backfill.FailureReportsWhatStopped` | src/commands/obs-backfill.ts:706-755 | a failure reports what stopped the export first: an interruption with its own reason and flags, an abort as a cancellation, anything else as a failure of the operation under way |
| `Backfill.ReturnsExactlyUninterrupted` | src/commands/obs-backfill.ts:666-704 | the export returns normally if and only if no await threw and no check saw an abort |
| `Backfill.InterruptedAfterFlushIsConfirmed` | src/commands/obs-backfill.ts:688-703 | after a successful flush a failure reports every record confirmed |
| `ConfigMerge.DeepMergeObjects` | src/config/load-config.ts:686-700 | the recursive loop, in any key order, computes the overlay |
| `ConfigMerge.MergeConfigLayers` | src/config/load-config.ts:235-243 | the layers are laid over the defaults in order, absent ones skipped |
| `ConfigMerge.OverAtPath` | src/config/load-config.ts:686-700 | at every path the overlay of two values is the overlay of what they have there, unless the upper one hides the path |
| `ConfigMerge.HighestLayerWins` | src/config/load-config.ts:235-243 | where the highest layer touching a path puts a scalar or array, the merged value is that; where none does, it is the default |
| `ConfigMerge.ObjectsMergeInPlace` | src/config/load-config.ts:235-243 | merging commutes with looking at a path that no layer hides |
| `ConfigMerge.OverIsIdempotent` | src/config/load-config.ts:686-700 | laying a value over itself changes nothing |
| `ConfigMerge.AssociativeExactly` | src/config/load-config.ts:686-700 | merging three values is associative if and only if the middle one nowhere has a scalar or array between objects of which the last does not cover the first |
| `ConfigMerge.CoversIs` | src/config/load-config.ts:686-700 | laying one value over another gives it back exactly when it covers the other |
| `ConfigMerge.ClashesDoNotAssociate` | src/config/load-config.ts:686-700 | a section replaced by a scalar in one layer and set again in the next does not associate |

## Left out

- RegexTree.FirstDomainComplete: asks that every part of the tree can match some word; a part
  that matches nothing still contributes its first domain in the code.
- RegexUnambiguity.SettledPatternsAreUnambiguous: is a sufficient condition; some patterns are
  unambiguous without meeting it.
- RegexRoundTrip.ParseRecoversEveryTree: braced counts and hexadecimal escapes are exact
  integers; the rounding of numbers beyond 2^53 is not modelled.
- PatternValidation.AcceptedPatternsAreUnambiguous: that an expression compiles and does not match
  the empty text is a flag; speaks of patterns whose repetitions the analysis could read.
- Redaction.ApplyPattern: the compiled expression is any function that finds in-bounds matches at
  or after the position it is given.
- RegexFolding.WidenedIsWhatMatches: the case folding of Unicode is any function with the values
  stated at ASCII characters, at the two characters that fold to them, and at white space.
- Redaction.SelectNonOverlapping: the locale comparison that breaks ties is a parameter.
- Redaction.SortIsStable: takes that comparison for any total preorder.
- Redaction.ReplaceMatches: the salted digest is a function whose values have 12 characters.
- SubagentSession.RunsKeepSessionsSound: request validation (identifier shapes, lengths) and
  the derivation of identifiers come before the model; exceptions of tracers, meters and
  loggers are not modelled.
- SubagentSession.InterruptionEndsEverything: the clearing of registries at session end, which
  follows it, is not modelled.
- SubagentTelemetry.Telemetry.StartSubagent: the tree and the failure ledger are values updated
  by the functions that their own classes are proved to compute.
- OtelController.FreshRunsAreSafe: holds when shutdown is requested only once start has settled;
  `RequestIsSafeExactly` says that this is necessary.
- CompositeSdk.FreshRunsKeepOwnership: likewise holds when no shutdown is requested while a start goes
  on that will begin or receive an SDK; `RequestKeepsOwnershipExactly` says that this is necessary.
- CompositeSdk.CompositeOtelSignalSdk.SettleAttempt: releasing the SDKs, setting the state and
  forgetting the promise are one step; the calls that fall between those continuations, which find
  a shutdown under way or done, are not modelled.
- OtelOwnership.RunsKeepOwnership: takes results as the bounded runner returns them, with a
  settlement whenever timed out; `RetainedForEverExactly` says what happens otherwise.
- Lineage.RoundTrip: environment texts are sequences of Unicode scalar values, so lone
  surrogates do not occur; the conversion of a text to a number is any function that reads
  decimals up to 2^53 - 1 correctly; variable names are case-sensitive.
- Backfill.BuildRecords: which entries lie in the window and what they convert to is given.
- Backfill.DeliveryAddsUp: what each await throws and what each check of the signal sees is
  arbitrary, so causal links between a timeout and a later abort are not modelled.
- ConfigMerge.DeepMergeObjects: configuration objects are values, so the freshness of clones is
  not captured.
- Bounded maps are values rather than objects; their eviction callback is part of the operation
  that sets the key.
- Waits and joins recorded in one call, the runner that wraps a whole subagent, and the
  observation of foreign lineages are compositions of the operations modelled here.
- Attributes, labels, log records, durations in milliseconds and runtime hints.
- Built-in secret and personal-data detectors, path scrubbing, truncation and hashing stages.
- The serialized lifecycle queue, which only chains promises.
- Reading of configuration files and environments, schema validation, project trust.
- Exporters, network, dashboards, query commands and their rendering.
