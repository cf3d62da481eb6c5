# Models of the review and release tooling

Dafny models of the algorithms and protocols inside the repository's release tooling, with
proofs of what they are for.  Each file holds one module.

* **Streaming scanner** (`RegexSyntax`, `RegexAutomaton`, `RegexStops`, `RegexCompiler`,
  `RegexScanner`): the compiler from parsed regular expressions to a nondeterministic automaton,
  and the set-of-states simulation that scans a text in chunks.  The reference is the ordinary
  meaning of regular expressions as a relation on spans.
* **Streaming text** (`Splitter`, `PatchRender`, `PatchMeaning`, `DiffText`, `Masker`,
  `MaskerMeaning`, `MaskerLimits`, `TermSearch`): line splitting, patch rendering, fixture masking
  and term search over chunks, each against its whole-text form, and what is masked of every
  printed diff.
* **Bounded review** (`Utf8`, `PathQuoting`, `PathMeaning`, `DiffGrammar`, `DiffPrinter`,
  `DiffEdits`, `DiffShape`, `DiffInventory`, `Partition`, `PartitionLaws`, `GroupRanges`,
  `Coverage`, `CoverageEnds`, `CoverageInputs`, `Admission`, `Aggregation`): the diff parser with a
  printer that it inverts, the partition into review units, the coverage plan, the admission
  ledger and the final verdict.
* **Provider boundary** (`ResponseBudget`, `EventStream`, `EventWriter`): the spending ledger, the
  exchange that drives it, and the check of the event stream with a writer that it inverts.
* **Retry protocol** (`RetryElection`, `RetryProtocol`, `RetryDecisions`): racing scheduler runs on
  an append-only journal, as a state machine over every interleaving, crash and lost reply.
* **Inventories and archives** (`DispatchInventory`, `RecordFilter`, `Replay`, `JsonGuard`): paging
  below a clipped counter, a bounded-memory record filter, record and replay of adaptive reads, and
  the lexical JSON guard.

Loops and objects of the source are methods and classes here.  Each is proved against a
specification function or relation, and the laws are lemmas about that specification.  Lemmas
use `hide` to keep definitions they do not need out of the solver's way.

A SHA-256 digest is taken to be injective and stands for what it digests.  Times, API answers and
chunk boundaries are arbitrary arguments.  Python strings are sequences of code points, or of
bytes where the source works on bytes; a raised exception is the value `Err`, or a false `ok`.

Where the code does less than its description, the model follows the code, lemmas give inputs on
which it fails, and the condition is proved in both directions:

* `TermSearch`: a term that overlaps itself between word boundaries (such as `a_a`) can be hidden
  from the search by the end of a 65,536-character slice.  `HidesAt` says which overlaps hide, and
  `FoundUnlessHideable` that exactly those terms can be missed.
* `Masker`: the streaming form reads a diff line from its first 65,536 characters.  Whatever the
  text, the two forms never show it differently: where they differ, one of them refuses it.  Unless
  both refuse, they have the same result exactly under `ReadAlike`: each line that is reached is no
  longer than the prefix, or its name is refused both whole and cut or neither way, or its hunk
  header ends within the prefix or is refused (`SameRefusal`).  `MaskerLimits` holds diffs of both
  directions: refused by the streaming form alone are a quoted name that loses its closing quote, a
  plain name cut behind a slash, and a header, behind a form feed in a changed line, whose match is
  longer; refused by the whole-text form alone is a name with a space behind the prefix.  Without
  a manifest the whole-text form passes every diff on, and the streaming form exactly those of
  `AllPlain`, which leaves out the one that Git prints for a name with a space.
* `Replay`: a recording whose tip of main was not the release, or that read nothing, is refused;
  `MovedTipRefused` and `NothingReadRefused` are such recordings.
* `PathQuoting`: the two modules' safety rules differ on a lone dot.

`RecordFilter` decides from a prefix and a suffix of each record.  Its result is the path rule's
exactly under `SameOutcome`, which every listing that Git prints meets; `LateRecordDiffers` is a
listing that does not.

## Model

| member | source | states |
|---|---|---|
| RegexSyntax.SplitMatch | scripts/lit-push-ready.py:425-491 | a match of a concatenation of token lists is a match of the first list followed by one of the second |
| RegexSyntax.UnSnoc | scripts/lit-push-ready.py:427-490 | a match of a list with one more token ends with a match of that token |
| RegexSyntax.PowerSnoc | scripts/lit-push-ready.py:467-485 | one more repetition of a body adds one to the repetition count |
| RegexSyntax.AnchorsMatch | scripts/lit-push-ready.py:510-522 | at which places of a text each anchor matches |
| RegexSyntax.SetMatches | scripts/lit-push-ready.py:433-456 | a set matches a character that one of its items accepts, a negated set one that none does |
| RegexSyntax.GroupMatches | scripts/lit-push-ready.py:457-461 | inside a group hold the flags around it and its own, but not those that it removes |
| RegexAutomaton.SoundAppend | scripts/lit-push-ready.py:456-466 | attaching a sound fragment behind a sound one is sound for the outer labels |
| RegexAutomaton.ReachLoop | scripts/lit-push-ready.py:474-478 | the back edge of an unbounded repetition reaches every count from the minimum on |
| RegexAutomaton.CompleteSnoc | scripts/lit-push-ready.py:427-490 | handling one more token keeps every match reachable |
| RegexAutomaton.RepeatedLoop | scripts/lit-push-ready.py:474-478 | one more round of an unbounded repetition stays within its meaning |
| RegexCompiler.LinkCharacter | scripts/lit-push-ready.py:430-456 | a character or assertion edge links the two states of its token soundly and completely |
| RegexCompiler.StreamingPatterns.Build | scripts/lit-push-ready.py:425-491 | fails exactly on unsupported syntax; otherwise every path spells a match and every match has a path |
| RegexCompiler.StreamingPatterns.AddToken | scripts/lit-push-ready.py:427-490 | each kind of token links its two states soundly and completely |
| RegexCompiler.StreamingPatterns.AddSubpattern | scripts/lit-push-ready.py:457-461 | a group with its own flags means its body under those flags |
| RegexCompiler.StreamingPatterns.AddBranches | scripts/lit-push-ready.py:462-466 | alternatives link the same two states for each of their bodies |
| RegexCompiler.StreamingPatterns.AddRepeat | scripts/lit-push-ready.py:467-485 | a repetition accepts exactly the counts between its bounds |
| RegexCompiler.StreamingPatterns.Loop | scripts/lit-push-ready.py:474-478 | the loop of an unbounded repetition |
| RegexCompiler.StreamingPatterns.Options | scripts/lit-push-ready.py:480-485 | the optional copies of a bounded repetition |
| RegexCompiler.StreamingPatterns.AddPattern | scripts/lit-push-ready.py:493-497 | a pattern joins the automaton without disturbing the others |
| RegexCompiler.ImplementsMore | scripts/lit-push-ready.py:493-497 | the automaton of the earlier patterns still implements them beside the new one |
| RegexCompiler.HaltingMore | scripts/lit-push-ready.py:493-497 | and still waits on unknown anchors exactly where one of the patterns stops |
| RegexStops.StopsUnsnoc | scripts/lit-push-ready.py:427-490 | a token list stops where its front stops, or behind a match of its front where its last token does |
| RegexStops.LoopReached | scripts/lit-push-ready.py:474-478 | an unbounded repetition reaches every stop of its body after any number of matches |
| RegexStops.StopsSoundAppend | scripts/lit-push-ready.py:456-466 | an unknown anchor inside a nested fragment is a stop of the outer tokens |
| RegexStops.AnchoredGoesOn | scripts/lit-push-ready.py:507-525 | a pattern of known anchors never stops |
| RegexCompiler.Compile | scripts/lit-push-ready.py:412-498 | compilation fails exactly on unsupported syntax and otherwise implements all patterns |
| RegexScanner.ClosureLeast | scripts/lit-push-ready.py:501-525 | the worklist's result is the least set closed under passable empty edges |
| RegexScanner.Saturate | scripts/lit-push-ready.py:501-525 | the worklist computes that closure and its bits, or fails exactly on a refused assertion |
| RegexScanner.Step | scripts/lit-push-ready.py:500-532 | one step gives the closure's bits and the states after the character |
| RegexScanner.OccupiedJustified | scripts/lit-push-ready.py:500-532 | every occupied state is justified by a match of its label that ends there |
| RegexScanner.PathOccupied | scripts/lit-push-ready.py:500-532 | every configuration on a path is occupied by the simulation |
| RegexScanner.ScanIsSearch | scripts/lit-push-ready.py:538-555 | bit n is set exactly when pattern n matches some span of the whole text |
| RegexScanner.PatternScanner.Feed | scripts/lit-push-ready.py:546-551 | feeding a chunk continues the scan of the text so far |
| RegexScanner.PatternScanner.Finish | scripts/lit-push-ready.py:553-555 | the result holds exactly the numbers of the patterns that match somewhere |
| RegexScanner.StuckIsStop | scripts/lit-push-ready.py:507-525 | a step meets an unknown anchor exactly where a front of some pattern that ends at one matches a span |
| RegexScanner.ClearUnlessHalts | scripts/lit-push-ready.py:507-525 | a whole scan is refused exactly when such a span exists |
| RegexScanner.ScanChunks | scripts/lit-push-ready.py:706-710 | the answer depends on the concatenated text only: a failure exactly when a front of a pattern that ends at an unknown anchor matches a span, else the set of matching patterns; patterns of known anchors never fail |
| Utf8.ValidCut | scripts/bounded_review.py:64-74 | cutting valid text at a character start leaves two valid texts |
| Utf8.StartNearby | scripts/bounded_review.py:352-353 | a character start is at most three bytes behind any position |
| Partition.GreedyStep | scripts/bounded_review.py:356-370 | a unit that ends at the farthest legal position wastes nothing: feasibility is that of the rest with one unit less |
| Partition.FeasibleLater | scripts/bounded_review.py:357-360 | an earlier endpoint never needs fewer units for the rest |
| Partition.EnoughUnits | scripts/bounded_review.py:347-370 | with units of four bytes or more and groups that fit, only the number of units can fail |
| Partition.Farthest | scripts/bounded_review.py:347-354 | the farthest legal end within reach |
| Partition.Fits | scripts/bounded_review.py:356-370 | true exactly when some legal split of the tail has at most that many units |
| Partition.Cuts | scripts/bounded_review.py:345 | the increasing list of exactly the boundaries outside every group |
| Partition.BisectRight | scripts/bounded_review.py:377 | the insertion point after all entries not greater |
| Partition.PreferredCut | scripts/bounded_review.py:377-379 | found exactly when some preferred cut in reach leaves a feasible tail, and then the farthest preferred one |
| Partition.NewlineCut | scripts/bounded_review.py:380-386 | moves before an LF that would be parted from its CR exactly when that is legal and affordable |
| Partition.NextCut | scripts/bounded_review.py:375-386 | one unit's end by the rule, leaving a feasible tail |
| Partition.Partition | scripts/bounded_review.py:337-391 | fails exactly when no legal split exists; no later check can fail; the units concatenate to the payload, are within the limit and end by the rule |
| PartitionLaws.SplitUnique | scripts/bounded_review.py:373-391 | the rule determines the units |
| PartitionLaws.ChoicesSplit | scripts/bounded_review.py:373-391 | the chosen ends are a legal split |
| PartitionLaws.SameChoices | scripts/bounded_review.py:345-391 | groups that forbid the same cuts give the same units |
| PathQuoting.DecodeQuoted | scripts/bounded_review.py:163-194 | the index loop undoes the escapes, or fails on exactly the malformed ones |
| PathQuoting.EscapeInverts | scripts/lit-push-ready.py:2017-2037 | unescaping gives back every escaped byte string |
| PathQuoting.GitEscapeInverts | scripts/bounded_review.py:163-194 | the same for Git's richer escapes |
| PathQuoting.QuoteRoundTrip | scripts/lit-push-ready.py:2017-2103 | unquoting a quoted name gives it back exactly when it is safe and, if quoted, UTF-8; otherwise it is refused |
| PathQuoting.QuoteRoundTripText | scripts/lit-push-ready.py:2017-2103 | for UTF-8 names the safety rule alone decides |
| PathQuoting.PathValueReadsQuotes | scripts/bounded_review.py:148-200 | the other module reads the same quoting back exactly for valid paths within its length limit |
| PathQuoting.LoneDot | scripts/lit-push-ready.py:2094-2101 | the two safety rules differ on a lone dot |
| PathQuoting.CutPath | scripts/lit-push-ready.py:2041-2103 | a spelling and a shorter front of it never stand for the same name |
| PathQuoting.QuotedCut | scripts/lit-push-ready.py:2041-2103 | a quoted name is refused wherever its end is cut off |
| PathMeaning.Utf8Is | scripts/bounded_review.py:64-69 | text is accepted exactly if it encodes characters other than surrogates |
| PathMeaning.UnescapeIs | scripts/lit-push-ready.py:2047-2081 | a quoted text is read exactly as the bytes that its letters, octals and other bytes spell, and refused if it spells none |
| PathMeaning.QuoteShows | scripts/lit-push-ready.py:2017-2038 | a name is shown in printable ASCII or without anything that calls for quotes, so it never breaks a line |
| PathMeaning.ValidPathIs | scripts/bounded_review.py:148-160 | exactly UTF-8 without NUL of at most 32768 bytes, no part of which between slashes is empty, `.`, `..` or `.git` |
| PathMeaning.SafePathIs | scripts/lit-push-ready.py:2094-2103 | exactly such parts or a lone dot, and no control character or backslash |
| PathMeaning.PathValueIs | scripts/bounded_review.py:163-200 | a text of at most 32768 bytes is read as a name exactly if it is the prefix and the name, as they are or spelled in quotes, and the name is valid |
| PathMeaning.UnquoteIs | scripts/lit-push-ready.py:2041-2103 | a text is read as a name exactly if it is the side and the name, as they are without white space or spelled in quotes, and the name is safe |
| DiffGrammar.LinesConcat | scripts/bounded_review.py:207-208 | splitting a text that ends with LF loses nothing |
| DiffGrammar.ConcatLines | scripts/bounded_review.py:207-208 | joining lines and splitting again gives them back |
| DiffGrammar.BodyExact | scripts/bounded_review.py:290-301 | an accepted hunk body holds exactly the declared numbers of old and new lines, each with at most one mark |
| DiffGrammar.HunksExact | scripts/bounded_review.py:278-313 | accepted hunks are ordered and disjoint in the payload and in both files |
| DiffGrammar.FileIsExact | scripts/bounded_review.py:216-333 | what acceptance of one record says about its path, modes, blobs, hunks and offsets |
| DiffGrammar.AcceptedIsExact | scripts/bounded_review.py:203-334 | the records of every accepted payload tile it, name different paths and are exact |
| DiffPrinter.HeaderReads | scripts/bounded_review.py:29 | a printed hunk header is read back exactly if its numbers convert |
| DiffPrinter.PathLineReads | scripts/bounded_review.py:219-225 | the midpoint separates the two spellings of a printed path |
| DiffPrinter.MarkerReads | scripts/bounded_review.py:267-276 | a printed marker name fits, whether absent, quoted, or ended with a TAB |
| DiffPrinter.BodyReads | scripts/bounded_review.py:290-301 | a printed hunk body is consumed to its end |
| DiffPrinter.HunksRead | scripts/bounded_review.py:278-313 | printed hunks are read back with their offsets |
| DiffPrinter.ModesRead | scripts/bounded_review.py:228-250 | printed mode lines are read back |
| DiffPrinter.IndexReads | scripts/bounded_review.py:30 | a printed index line is read back |
| DiffPrinter.RecordReads | scripts/bounded_review.py:216-333 | a printed record is read back with its offsets |
| DiffPrinter.PrintedIsRead | scripts/bounded_review.py:203-334 | the parser inverts the printer on every list of valid records, and refuses only what exceeds the byte limit |
| DiffEdits.MarkedCounts | scripts/bounded_review.py:290-301 | a hunk made from steps between two lists of lines counts as many old and new lines as they have |
| DiffEdits.EditsAreRead | scripts/bounded_review.py:277-313 | the printed diff of edits to a file is accepted, and each edit is found where it stands in both files with its numbers of lines |
| DiffShape.RecordShape | scripts/bounded_review.py:216-333 | the lines of every accepted record are the format's words around its names, modes, blobs, starts and counts |
| DiffShape.AcceptedShape | scripts/bounded_review.py:203-334 | an accepted payload is a list of such records, end to end |
| DiffInventory.SplitLines | scripts/bounded_review.py:208 | the lines of the payload |
| DiffInventory.TakeBody | scripts/bounded_review.py:289-301 | the inner loop against its specification |
| DiffInventory.TakeHunks | scripts/bounded_review.py:277-313 | the hunk loop against its specification |
| DiffInventory.TakeModes | scripts/bounded_review.py:228-250 | the mode lines against their specification |
| DiffInventory.TakeFile | scripts/bounded_review.py:216-333 | one record against its specification |
| DiffInventory.Inventory | scripts/bounded_review.py:203-334 | the whole loop computes the specified inventory |
| GroupRanges.MergeRanges | scripts/bounded_review.py:405-418 | merged ranges are ordered, apart, hold every requested range, forbid exactly the same cuts and fit a unit; otherwise a stretch longer than a unit allows no cut |
| GroupRanges.NoSplitAcross | scripts/bounded_review.py:416 | across such a stretch no split is legal, so refusing loses nothing |
| Coverage.GroupHolds | scripts/bounded_review.py:407-411 | a group's range holds all its files |
| Coverage.MergedPreferred | scripts/bounded_review.py:412-418 | merged and requested group ends prefer the same cuts |
| Coverage.InventoryOnChars | scripts/bounded_review.py:399-404 | every record and hunk boundary is a character start |
| Coverage.RequestedRanges | scripts/bounded_review.py:405-411 | the range of every group, or an error for a missing path |
| Coverage.CutUnits | scripts/bounded_review.py:399-419 | the units of a payload, failing exactly for a missing path or when no legal split exists |
| Coverage.BuildSpans | scripts/bounded_review.py:426-437 | the spans of one unit |
| Coverage.BuildUnits | scripts/bounded_review.py:423-441 | the unit records |
| Coverage.MakePlan | scripts/bounded_review.py:393-452 | returns the plan of an input, and an error exactly when it has none |
| Coverage.PlanUnique | scripts/bounded_review.py:393-452 | an input has at most one plan |
| Coverage.PlanCovers | scripts/bounded_review.py:419-441 | the units are the payload and tile it; each unit's spans tile it in file order and name the right files and hunks |
| Coverage.EveryByteOnce | scripts/bounded_review.py:423-441 | every byte lies in exactly one span of one unit |
| Coverage.GroupsWhole | scripts/bounded_review.py:405-419 | no unit ends inside a semantic group |
| CoverageEnds.RangesSpan | scripts/bounded_review.py:407-411 | a group's range goes from the first start to the last end of its files |
| CoverageEnds.PlanEnds | scripts/bounded_review.py:399-419 | each unit ends at the farthest file end, hunk end of a file longer than a unit, or group edge in reach, whenever one in reach leaves a rest that fits |
| CoverageEnds.EndInSmallFile | scripts/bounded_review.py:399-404 | a unit that ends inside a file that would fit a unit ends at a group's edge, or no such position served |
| CoverageInputs.RepositoryIs | scripts/bounded_review.py:138-142 | a repository is two words with a slash between them |
| CoverageInputs.BindingIs | scripts/bounded_review.py:136-145 | a binding is admitted exactly with a repository and four object names of 40 hexadecimal digits |
| CoverageInputs.ApartIs | scripts/bounded_review.py:116-122 | no path stands in two places of the semantic groups |
| CoverageInputs.PolicyIs | scripts/bounded_review.py:97-122 | limits are admitted exactly between 1 and the policy's own, with groups of 1 to 128 valid paths that are apart |
| CoverageInputs.PromptIs | scripts/bounded_review.py:125-128 | the bounds of a prompt and of its version |
| Admission.Account.constructor | scripts/bounded_review.py:530-540 | the fresh ledger of a manifest |
| Admission.Account.Reserve | scripts/bounded_review.py:542-561 | the new ledger, failed exactly when a check fails |
| Admission.Account.Finish | scripts/bounded_review.py:563-574 | the new ledger, failed exactly when a check fails |
| Admission.FailedForGood | scripts/bounded_review.py:542-574 | nothing is accepted after a failure |
| Admission.HistoryIsSerial | scripts/bounded_review.py:523-574 | an accepted history alternates reserve and finish in order, in time, with reserved cost next times the per-review cost and never exceeded by the reported costs |
| Admission.StaticSuffices | scripts/bounded_review.py:420-422 | the admission test on the number of reviews is enough for a prompt run |
| Aggregation.Verify | scripts/bounded_review.py:455-472 | true exactly for the re-planned manifest and units |
| Aggregation.ValidateReview | scripts/bounded_review.py:505-520 | true exactly for the one receipt that the review must bring |
| Aggregation.Aggregate | scripts/bounded_review.py:475-502 | a receipt exactly for the re-planned manifest, a complete ledger and one passing review per unit plus the integration review, in order |
| Aggregation.PassMeans | scripts/bounded_review.py:475-502 | what a receipt means for coverage, reviews, cost and time |
| Aggregation.PlanRunsThrough | scripts/bounded_review.py:420-422 | once a plan is made, a prompt run of its reviews is never refused and completes the ledger |
| RetryElection.ElectedIsOwner | scripts/native_verifier_retry.py:383-407 | a successful election names the first eligible run of the true history |
| RetryElection.ElectionStable | scripts/native_verifier_retry.py:383-407 | two successful elections for one seed, cause and slot name the same run, even if the history grew between them |
| RetryElection.ElectionFails | scripts/native_verifier_retry.py:383-407 | it fails exactly on a gap or without an eligible run |
| RetryProtocol.DecisionLawful | scripts/native_verifier_retry.py:546-640 | a claim that the pass decides to write is valid and made by the elected run |
| RetryDecisions.VerifiedMeans | scripts/native_verifier_retry.py:546-606 | the run is closed as verified exactly when a retried attempt is over and succeeded |
| RetryDecisions.NonRetryableMeans | scripts/native_verifier_retry.py:546-614 | as not retryable, exactly when it failed with an attempt and the reserve left but lost no runner |
| RetryDecisions.ExhaustedMeans | scripts/native_verifier_retry.py:546-609 | as exhausted, exactly when the next retry would not fit, or it failed with no attempt or reserve left |
| RetryDecisions.DriftMeans | scripts/native_verifier_retry.py:531-600 | as drifted, exactly when something it relies on does not hold |
| RetryDecisions.ClaimMeans | scripts/native_verifier_retry.py:546-627 | a slot is claimed exactly by the elected run, once the wait is over, with the slot free and the reserve left |
| RetryDecisions.CrashMeans | scripts/native_verifier_retry.py:546-627 | the sweep stops exactly on a failed election for a due slot |
| RetryDecisions.TerminalEarned | scripts/native_verifier_retry.py:531-614 | in every reachable journal, a terminal record was decided by some pass from a live journal for the reason that it gives |
| RetryDecisions.ClaimsFit | scripts/native_verifier_retry.py:506-515 | every claim in a reachable journal is of the sealed contract, for its slot, after an attempt lost since the seal, and neither early nor late |
| RetryDecisions.RequestsConfirmed | scripts/native_verifier_retry.py:634-649 | before every request its run, owning the claim, found evidence, cause, election and claim again, no terminal record and the reserve left |
| RetryProtocol.StepInv | scripts/native_verifier_retry.py:531-654 | every event keeps the invariant |
| RetryProtocol.ExecutionInv | scripts/native_verifier_retry.py:531-654 | the invariant holds in every reachable state |
| RetryProtocol.PostEarned | scripts/native_verifier_retry.py:624-654 | before each request its run learned that its own create of that claim was applied, and then found every post-claim read in agreement |
| RetryProtocol.AtMostOneRequest | scripts/native_verifier_retry.py:624-654 | each slot gets at most one request, from the elected run whose valid claim stands, after its create was confirmed to it and its post-claim checks passed |
| RetryProtocol.ClaimsChain | scripts/native_verifier_retry.py:506-515 | the claims of every reachable journal keep both cooldowns and leave the runtime reserve before the one deadline |
| RetryProtocol.FourNeedsThree | scripts/native_verifier_retry.py:546-640 | slot 4 is claimed or asked for only under a valid claim of slot 3 |
| RetryProtocol.OneWrite | scripts/native_verifier_retry.py:438-440 | no run ever writes a second time |
| RetryProtocol.SilentUnconfirmed | scripts/native_verifier_retry.py:438-440 | a run that has not learned that its create was applied writes and requests nothing more, even if its record stands |
| RetryProtocol.SilentAfterGivingUp | scripts/native_verifier_retry.py:630-654 | from the state before it gives up, a run writes and requests nothing |
| RetryProtocol.JournalGrowsForever | scripts/native_verifier_retry.py:487-528 | records are never changed or removed |
| RetryProtocol.OneSeal | scripts/native_verifier_retry.py:447-484 | at most one helper ever reports a seal |
| RetryProtocol.ReceiverAccepts | scripts/native_verifier_retry.py:657-682 | for an attempt that exists, a receiver accepts exactly unless a terminal record stands, the deadline has passed, or something it reads is missing or changed: claims, owners and start times always agree |
| Splitter.BreaksAre | scripts/lit-push-ready.py:391 | the characters at which a text breaks |
| Splitter.SplitLinesJoin | scripts/lit-push-ready.py:377-378 | the lines with their ends are the text |
| Splitter.FirstLine | scripts/lit-push-ready.py:391-397 | where the first line of a text ends |
| Splitter.SplitChunk | scripts/lit-push-ready.py:390-399 | one chunk's fragments leave the rest of the text to be split |
| Splitter.SettleCr | scripts/lit-push-ready.py:383-389 | a CR at a chunk's end joins an LF at the next one's start |
| Splitter.SplitTextFragments | scripts/lit-push-ready.py:377-401 | regrouped, the fragments are the lines of the whole text for every chunking |
| PatchRender.RenderUntrackedPatch | scripts/lit-push-ready.py:2157-2189 | the patch of a whole text |
| PatchRender.CountLines | scripts/lit-push-ready.py:2120-2127 | the line count over fragments is that of the whole text |
| PatchRender.WriteFragments | scripts/lit-push-ready.py:2140-2152 | the fragments' body is that of the whole text |
| PatchRender.SpoolUntrackedPatch | scripts/lit-push-ready.py:2106-2154 | the spooled patch is the rendered one for every chunking of all three passes |
| PatchRender.PatchRestores | scripts/lit-push-ready.py:2177-2189 | applying the rendered body restores the text, whatever line breaks it holds |
| PatchMeaning.PatchLinesAre | scripts/lit-push-ready.py:2157-2189 | the lines of a patch are those of a printed diff that adds each line of the file, with what follows lines of other ends (spellings of names hold no line break, as quoting sees to) |
| PatchMeaning.PatchIsMasked | scripts/lit-push-ready.py:2649-2705 | the masker hides line k of a file in its patch exactly if the manifest documents it as line k of the file |
| Masker.MaskDiff | scripts/lit-push-ready.py:2649-2705 | the whole-text diff masker against its specification |
| Masker.Mask | scripts/lit-push-ready.py:2611-2634 | the whole-text masker against its specification |
| DiffText.EncodesPoint | scripts/lit-push-ready.py:2064 | a character is encoded by one well-formed sequence that stands for it |
| MaskerMeaning.HeadingReads | scripts/lit-push-ready.py:2673-2681 | a printed hunk heading is read as its two starts |
| MaskerMeaning.PrintedIsShown | scripts/lit-push-ready.py:2649-2705 | of every printed diff, a line is hidden exactly if the manifest documents its text at its line of the new or the old file, counted from the printed starts |
| MaskerMeaning.PrintedIsMasked | scripts/lit-push-ready.py:2611-2705 | so the whole-text masker |
| MaskerMeaning.PrintedIsStreamed | scripts/lit-push-ready.py:610-703 | and the streaming one, if no line is longer than its prefix |
| MaskerMeaning.FileIsShown | scripts/lit-push-ready.py:2620-2634 | in a file, a line is hidden exactly if it is documented at its number |
| MaskerMeaning.FileIsMasked | scripts/lit-push-ready.py:2611-2634 | a file of which the manifest documents no line is passed on as it is |
| DiffText.CutNames | scripts/lit-push-ready.py:2041-2103 | a name line and its front read alike only if both are refused |
| DiffText.HeaderCut | scripts/lit-push-ready.py:661-665 | the front of a line gives the line's header numbers exactly if the match does not go on behind it |
| Masker.SameDiffLine | scripts/lit-push-ready.py:646-681 | on one line, prefix and digest decide like the whole line exactly if the prefix suffices |
| Masker.AlikeLine | scripts/lit-push-ready.py:646-685 | a line that neither form refuses is shown alike, though a cut name differs, since no manifest lists a name so long |
| Masker.NeverDiffers | scripts/lit-push-ready.py:646-703 | on every diff, if neither form refuses, the outputs are the same |
| Masker.PlainLine | scripts/lit-push-ready.py:653-666 | without a manifest, exactly which lines the streaming form refuses |
| Masker.SameRefused | scripts/lit-push-ready.py:646-666 | on one line, the two forms refuse alike exactly under a condition on its length, its name and its header's end |
| Masker.SameDiff | scripts/lit-push-ready.py:646-703 | on a whole diff, unless both refuse it, they refuse alike exactly if every line reached meets that condition |
| Masker.PlainStream | scripts/lit-push-ready.py:653-703 | without a manifest, the streaming form passes on exactly the diffs without such a line, and refuses every other |
| Masker.StreamedIsMasked | scripts/lit-push-ready.py:610-703 | for every manifest and text, the streaming output is the masked text and a final line end unless one form refuses; unless both do, the results are the same exactly if the lines are read alike |
| Masker.FilteredOff | scripts/lit-push-ready.py:682-690 | the scans for secrets and packer lines refuse nothing, and change nothing when off |
| Masker.FilteredScanChunks | scripts/lit-push-ready.py:610-703 | the generator's loop with a bounded prefix computes the specified output for every chunking, and with both scans off compares with the whole-text masker as above |
| MaskerLimits.NameLine | scripts/lit-push-ready.py:638-658 | of a name line longer than the prefix, the streaming form refuses exactly what it refuses of the cut name |
| MaskerLimits.LongSpelling | scripts/lit-push-ready.py:638-658 | the streaming form refuses every quoted name that is longer than the prefix |
| MaskerLimits.QuotedNameDiffers | scripts/lit-push-ready.py:638-658 | a diff with such a name, which the whole-text form masks and the streaming form refuses |
| MaskerLimits.SlashNameDiffers | scripts/lit-push-ready.py:638-658 | a diff with a plain name that is cut behind a slash, likewise |
| MaskerLimits.LateSpaceDiffers | scripts/lit-push-ready.py:2662-2669 | a diff that the whole-text form refuses and the streaming form does not: a space in a name, behind the prefix |
| MaskerLimits.LongHeader | scripts/lit-push-ready.py:638-665 | the streaming form refuses every hunk header whose match is longer than the prefix |
| MaskerLimits.LongCountDiffers | scripts/lit-push-ready.py:638-665 | a diff with such a header behind a form feed, which only the streaming form refuses |
| MaskerLimits.SpacedNameDiffers | scripts/lit-push-ready.py:657-658 | without a manifest, a diff of a name with a space, which only the streaming form refuses |
| TermSearch.MatchIs | scripts/lit-push-ready.py:2332 | a match is the term itself, touched by no small letter or digit |
| TermSearch.MatchFound | scripts/lit-push-ready.py:2336 | a match is found unless an earlier one overlaps it |
| TermSearch.PlainTerms | scripts/lit-push-ready.py:1427 | no term without an underscore overlaps itself between word boundaries |
| TermSearch.LongestHides | scripts/lit-push-ready.py:2325 | a policy's longest term can be hidden exactly if it overlaps itself between word boundaries |
| TermSearch.SearchedIsThere | scripts/lit-push-ready.py:2325-2338 | what is found is there, and a term that cannot be hidden is found exactly when it is there, for every chunking |
| TermSearch.OverlapHides | scripts/lit-push-ready.py:2333-2338 | for every term that can be hidden, a patch that holds it and hides it: paths, slices of 65,536 characters and the last line end |
| TermSearch.FoundUnlessHideable | scripts/lit-push-ready.py:2325-2338 | a term is found in every stream that holds it exactly if it cannot be hidden |
| TermSearch.EveryMatchSettles | scripts/lit-push-ready.py:2328 | the final line end makes every bounded occurrence count |
| TermSearch.FindTerms | scripts/lit-push-ready.py:2324-2339 | the first term of the policy that the stream contains |
| Replay.Recorder.Add | scripts/normal_release_archive.py:186-191 | an entry is kept exactly within both bounds |
| Replay.Recorder.Read | scripts/normal_release_archive.py:193-225 | one recorded read, in scope and within bounds |
| Replay.Player.Take | scripts/normal_release_archive.py:259-270 | the next entry, exactly if kind and arguments agree |
| Replay.Player.Read | scripts/normal_release_archive.py:272-294 | one replayed read, with the tip of main replaced |
| Replay.Player.Finish | scripts/normal_release_archive.py:296-297 | every entry is consumed and the result is the recorded one |
| Replay.Recorder.Finish | scripts/normal_release_archive.py:227-237 | the archive, exactly if its text is within the byte limit |
| Replay.RecordingBounded | scripts/normal_release_archive.py:186-237 | a recording holds only reads of the bound repository that change nothing, at most 4096 of them, and is itself within the byte limit |
| Replay.ArtifactRecorded | scripts/normal_release_archive.py:145-160 | an artifact is recorded exactly if it is the only one of its name that has not expired, has a positive id and is not larger than 50 MiB |
| Replay.ArtifactReplayed | scripts/normal_release_archive.py:290-294 | and replayed exactly if what was recorded is such an artifact of the name that is asked for |
| Replay.InScopeIs | scripts/normal_release_archive.py:193-194 | a path is in scope exactly if it is something behind the bound repository's name |
| Replay.AcceptsExactly | scripts/normal_release_archive.py:259-297 | from any point, a replay accepts a reader exactly when it follows the recording |
| Replay.ReplayAcceptsExactly | scripts/normal_release_archive.py:240-297 | a whole replay accepts exactly a bound archive and a reader that follows it |
| Replay.RecordThenReplay | scripts/normal_release_archive.py:177-297 | recording then replaying with main at the release gives the same result exactly when something was read and each recorded tip was the release |
| Replay.MovedTipRefused | scripts/normal_release_archive.py:272-279 | a recording whose tip of main was not the release, which its own reader cannot replay |
| Replay.NothingReadRefused | scripts/normal_release_archive.py:253 | a recording without reads, likewise |
| Replay.OnlyTheTipDiffers | scripts/normal_release_archive.py:272-279 | with another main only the sha of the tip's answer differs |
| Replay.RecordRun | scripts/normal_release_archive.py:177-237 | a reader driven over the recorder |
| Replay.ReplayRun | scripts/normal_release_archive.py:240-297 | a reader driven over the player |
| JsonGuard.LexicalGuard | scripts/normal_release_archive.py:75-97 | the loop accepts exactly the texts whose every prefix stays bounded |
| JsonGuard.ScanLiteral | scripts/normal_release_archive.py:80-88 | a string passes unnoticed whatever it holds |
| JsonGuard.ScanText | scripts/normal_release_archive.py:79-97 | a value's text returns to its depth and counts its containers, commas and colons, if nesting and count fit |
| JsonGuard.GuardAgrees | scripts/normal_release_archive.py:75-97 | a canonical text is accepted exactly when nesting is at most 64 and that count at most 500000 |
| DispatchInventory.Inventory.Read | scripts/review-event-reconcile.py:104-120 | one request of the shared budget, its page of the exact length |
| DispatchInventory.Inventory.Pages | scripts/review-event-reconcile.py:138-143 | against a stable store, the whole listing of an unsaturated window |
| DispatchInventory.Inventory.Check | scripts/review-event-reconcile.py:144-160 | true exactly for positive, distinct, new ids bound to the window |
| DispatchInventory.Inventory.Window | scripts/review-event-reconcile.py:122-161 | a window's runs, exactly those of a stable store, exactly when its cost fits the budget |
| DispatchInventory.OrderProper | scripts/review-event-reconcile.py:144-160 | a stable listing passes every check |
| DispatchInventory.Dispatches | scripts/review-event-reconcile.py:88-163 | every run of the three workflows in seven days exactly once, within 256 requests, and a result exactly when no second is saturated and the requests suffice |
| ResponseBudget.Budget.Reserve | scripts/bounded_review_provider.py:180-238 | the new ledger and the normalized request |
| ResponseBudget.Budget.AdmitTokens | scripts/bounded_review_provider.py:240-260 | the new ledger, admitting only the reserved request |
| ResponseBudget.Budget.Complete | scripts/bounded_review_provider.py:262-300 | the new ledger, settled to the actual cost |
| ResponseBudget.Budget.Abandon | scripts/bounded_review_provider.py:302-304 | the failed ledger |
| ResponseBudget.CostIsLeast | scripts/bounded_review_provider.py:77-83 | the cost is the least that pays input and output tokens at their own prices |
| ResponseBudget.UsageFits | scripts/bounded_review_provider.py:285-290 | reported tokens fit exactly within the cap, the input limit and the context, and as their total; the bound on the total never decides |
| ResponseBudget.AlwaysConserved | scripts/bounded_review_provider.py:87-304 | charged is settled costs plus the held reservation, within the limit; forwarded requests are distinct and bounded; rounding costs less than one microusd per settlement |
| ResponseBudget.FailureFreezes | scripts/bounded_review_provider.py:87-304 | after a failure no call changes the ledger |
| ResponseBudget.OverrunUnreachable | scripts/bounded_review_provider.py:291-292 | the overrun check cannot fail |
| ResponseBudget.CompleteFailsExactly | scripts/bounded_review_provider.py:262-300 | completion fails exactly when another check does |
| ResponseBudget.Exchange | scripts/bounded_review_transport.py:304-352 | the payload is returned only after settlement; any failure is terminal and keeps a sent request's reservation; the model is asked only after a count that fits the input and context limits is admitted |
| EventStream.Separated | scripts/bounded_review_transport.py:75-84 | the pieces hold no delimiter and, joined by it, are the text |
| EventStream.ReadFields | scripts/bounded_review_transport.py:115-129 | the lines of a block against their specification |
| EventStream.FoldedReadsAlike | scripts/bounded_review_transport.py:106 | a stream with CR LF line ends reads like the same stream with LF |
| EventStream.TakeEvent | scripts/bounded_review_transport.py:133-157 | one event passes exactly if the events so far, with it, are still the start of a complete stream |
| EventStream.CompletedResponse | scripts/bounded_review_transport.py:87-160 | the response of a text whose blocks all read and make a complete stream (numbered, created first, one identity, completed last), and of no other |
| EventWriter.ItemReads | scripts/bounded_review_transport.py:117-129 | what a written comment, name or data line adds to the fields |
| EventWriter.BlocksBack | scripts/bounded_review_transport.py:75-84 | the blocks of a written stream are separated again |
| EventWriter.WrittenIsRead | scripts/bounded_review_transport.py:87-160 | a written stream is accepted exactly if its objects all read, are typed as named, and are complete: numbered, created first, completed last, one response; the last event's response is returned |
| EventWriter.EitherLineEnd | scripts/bounded_review_transport.py:106 | with either line end |
| EventWriter.EndedIs | scripts/bounded_review_transport.py:106-107 | a stream is taken up exactly if it ends with an empty line and each CR stands before LF |
| RecordFilter.InstructionIs | scripts/materialize-exact-revision-review.py:880-884 | the instruction files: AGENTS.md in any directory, Copilot's own file, and the files of its directory with its extension |
| RecordFilter.DecisionIsRule | scripts/materialize-exact-revision-review.py:875-890 | when the path starts early enough, prefix and suffix decide like the whole record |
| RecordFilter.DecisionElsewhere | scripts/materialize-exact-revision-review.py:875-890 | on every other record, exactly when they still agree |
| RecordFilter.ListingAgrees | scripts/materialize-exact-revision-review.py:865-899 | on a whole listing, exactly when filter and rule have the same result |
| RecordFilter.TreeListing | scripts/materialize-exact-revision-review.py:905-915 | on the listings that Git prints they always do |
| RecordFilter.LateRecordDiffers | scripts/materialize-exact-revision-review.py:875-890 | a listing on which they do not |
| RecordFilter.Filter.Feed | scripts/materialize-exact-revision-review.py:865-895 | a chunk's selection, storing at most the budget and one byte of prefix and 32 bytes of suffix |
| RecordFilter.Filter.Finish | scripts/materialize-exact-revision-review.py:897-899 | true exactly when no record is open |
| RecordFilter.FilterStream | scripts/materialize-exact-revision-review.py:852-899 | for every chunking, the result of filtering the whole listing, which is the path rule's exactly under that condition |

## Left out

- RegexCompiler.Compile: takes parsed patterns; the `re` parser, case folding and the tables of character classes are parameters, bit masks are sets of numbers and the step cache is left out, since it does not change results.
- RegexScanner.ScanChunks: the concrete governed patterns are a parameter.
- PathQuoting.QuoteRoundTrip: a name is its UTF-8 encoding; a lone surrogate inside a quoted path that no quoting produced is not told apart from the byte it stands for.
- Coverage.MakePlan: the fixed fields of a policy, the schema digest and the digest of the partitioner's own file are constants of a manifest and left out.
- Aggregation.Aggregate: receipts are already authenticated, as the source requires of its caller; the exact set of JSON keys is the record type.
- RetryProtocol.StepInv: annotations, reviews, pull requests and writer identities are one arbitrary observation per pass; attempts after the second start only on a request; one clock gives the times of attempts and bounds those of passes; the journal's storage is not part of this model, only that a record is created if absent and that the reply may be lost.
- PatchRender.SpoolUntrackedPatch: texts are already decoded; the refusal of files that are not UTF-8, and the digest that is returned, are left out.
- PatchRender.RenderUntrackedPatch: likewise takes decoded text.
- Masker.FilteredScanChunks: what the two further scans say of a line is a parameter, and the yields are joined; texts come from strict decoding, so no lone surrogate has to be refused; Python's tables of white space and digits beyond ASCII are parameters.
- TermSearch.FindTerms: chunks are already lower-cased; the profile and its reason are left out.
- Replay.RecordThenReplay: values are immutable here, so the source's deep copies have no counterpart; the two patterns on artifact names and digests are parameters.
- JsonGuard.GuardAgrees: speaks of canonical texts; parsing the guarded text is left out.
- DispatchInventory.Dispatches: timestamps are integers or malformed; the URL and the process call are left out.
- ResponseBudget.Budget.Reserve: the size and feature checks on a request are one flag; normalization keeps the content and sets the output cap.
- ResponseBudget.Budget.Complete: the checks on status, error, incomplete details and service tier are one flag.
- EventStream.CompletedResponse: takes decoded text of a streaming answer; the size bound, the answer without streaming and the JSON reader are left out or a parameter.
- ResponseBudget.Exchange: what the two isolated workers bring is an argument.
- File hardening, subprocesses, HTTP, signatures and the shapes of GitHub's API: foreign systems whose answers are arguments here.
- Release versions, SBOM enrichment, promotion and dispatch scripts: long conjunctions of field checks that one reading settles.
- The disabled agent review in scripts/lit-push-ready.py, argument parsing and messages.
