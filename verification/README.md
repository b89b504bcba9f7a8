# FlashGate release audit: a verified model

This project models the release-audit engine of FlashGate (`cmd/releaseaudit`), the product version parser it relies
on and the path guard of `internal/security`, and proves what they are for. `dafny verify dfyconfig.toml` checks it.

**Promotion.** `StageRename` is the ownership-checked, bounded-retry rename of a staged directory, under arbitrary
interference between its steps. `Promotion` is the transactional promotion above it: an immutable directory, a
`current` alias, a lock and a deferred rollback, over a map of names to nodes, where each injected rename or remove may
fail. The promotion is all or nothing.

**Publication and normalization.** `Provider` is an untrusted release provider: any answer is possible, and a write may
take effect and still report failure. `Readback` decides whether remote state is an expected inventory down to the
bytes. `Publication` is the one-shot publication run, `NormalizationPlan`, `Preparation`, `Family` and `Normalization`
the historical normalization with its upload and delete runs and its read-only reconciliation. Safety holds for every
provider. For an honest provider, which applies each write wholly or not at all and answers from its true state,
reconciliation accepts exactly the inventories the runs can leave behind. The provider's state changes only at
dispatches, so a run that is killed leaves a state of a run that stopped at its next step.

**Dependency assessment.** `SemVer` is version precedence against section 11 of Semantic Versioning 2.0.0,
`SemVerGrammar` states versions and their order on the text, `ProductVersion` is the product version parser and `Freeze`
the release-freeze rule that computes precedence a second time. `OsvRange` and `OsvSchema` relate the streaming
evaluation of OSV ranges to the Evaluation section of the OSV schema. `Evidence`, `Aliases` and `Consolidate` confirm
fixes and merge alias records; `ConsolidationLaws` says what comes out in terms of the records. `Capture` is the paged
capture of advisories, `Assessment` the assessment of a snapshot, `ModuleGraph` the classification of modules over a
possibly cyclic dependency graph.

**Inventories and paths.** `Inventory` is the walk that consumes its allow-set, `Archive` the collision check and the
exclusive creations of archive extraction, `Checksums` the SHA256SUMS printer and parser, `Paths` and `Guard` the
lexical confinement of user paths and the search for an existing parent.

`Text` and `Sorting` hold strings, sequences and sorting shared by the others.

## Form

Loops and updates in place are methods and classes; each is proved against a specification, and what the source
promises is proved about that specification. What a specification's own vocabulary means is pinned by laws that do
without it: on the inputs (`OsvSchema.VerdictIs`, `SemVerGrammar.ComparisonIs`, `Archive.AcceptedIs`), on the events of
a run (`Publication.WritePlaces`, `Normalization.CompletedDelete`, `StageRename.DisciplineIs`) or on the provider's
answers (`Capture.OrderlyStopsNothing`). A run that stops says for which of the reasons there are.

The environment's choices are schedules: functions from the number of the call to its answer, so a statement about all
schedules is a statement about all behaviours. Maps are walked in arbitrary order (`:|`). Constants such as 40/4/36
assets, the archive limit and the target count are parameters where the proofs allow it. Strings are `seq<char>` and
ordered by character.

## Assumptions

- Digests identify bytes where equality of contents is concluded from equality of digests (`DigestsIdentify` in
  `Promotion`); `Readback` compares sizes, digests and the digest of the downloaded bytes only.
- In `Promotion` the direct operating-system calls succeed, nobody else writes to the destination, and the names of the
  temporary files and the stage are unused (`ScratchUnused`), as creating them exclusively guarantees. So its stage
  rename is one answer (`stageRenamed`): by `StageRename.QuietRunIsDecided` a run that nobody disturbs ends with the
  stage at the target, or, since the content that verified before still verifies, in the prestate, which the cleanup
  removes. `StageRename` itself assumes nothing about other writers.
- A downloaded asset is determined by its id for the duration of one readback (`Downloads`).
- Names in the verified inventory are distinct and none is `SHA256SUMS`, and the projection contains the checksum asset,
  as the inventory walk and the distribution code establish (`ExecuteNormalization`, `Reconcile`).
- Entries of one directory have different names (`WellNamed`), and a filesystem identifies two names only if their
  lower-case forms are equal (`Finer`).
- Effective locations are absolute, cleaned paths (`Settled`).

## Findings

- The direct restore of a promotion writes the alias with its permission bits only (`candidate.go:567-570`). An alias
  with a set-user-id, set-group-id or sticky bit comes back without it when the backup cannot be renamed, or is gone
  because only the removal of the lock failed. `Promotion.Promote` fixes the final root of every run, `ExactLoss` says
  under which schedules a run that failed does not leave its prestate, and `ExactRollbackCondition` that there is none
  if and only if the run never gets to the alias switch or the alias has no such bit. `StickyAliasIsLost` is such a run.
- `retained` and `promoted` are never both set by one `rename` on a fresh binding. A second `rename` on a binding that
  has already promoted would set `retained` as well, so `RenameWithOps` states it for the flags as the call found them.
  The program never makes that call: `candidate.go:667` and `supplychain.go:683` each rename a fresh binding once, so
  the property holds on every call it makes.
- A `limit` event closes an interval in the code (`security_assessment.go:559-571`), which is not the schema's limit
  rule. `OsvSchema.LimitAgreement`: the two agree on every version if and only if limits stand only at the end of the
  list; `LimitInsideDisagrees` returns a version on which they differ, and `LimitInsideExample` is a list.

## Model

| member | source | states |
|---|---|---|
| SemVer.SubmatchComplete | cmd/releaseaudit/security_assessment.go:449 | every spelling of parts the grammar allows is matched, and the submatches are those parts |
| SemVer.SubmatchSound | cmd/releaseaudit/security_assessment.go:449 | whatever is matched is spelled by the submatches found, so matching is exactly the grammar |
| SemVer.CheckLeadingZeros | cmd/releaseaudit/security_assessment.go:458-462 | the loop accepts exactly the fields without a leading-zero number |
| SemVer.ParseVersion | cmd/releaseaudit/security_assessment.go:453-463 | returns the parts of exactly the accepted versions |
| SemVer.NumeralOrder | cmd/releaseaudit/security_assessment.go:464-472 | comparing digit strings without leading zeros by length, then text, is comparing the integers they denote |
| SemVer.CompareIdentIsOrder | cmd/releaseaudit/security_assessment.go:488-502 | two accepted fields compare as Semantic Versioning 2.0.0 section 11.4 says: numbers below words, numbers by value, words by bytes |
| SemVer.CompareCore | cmd/releaseaudit/security_assessment.go:473-477 | the loop over major, minor and patch returns their numeric order |
| SemVer.ComparePre | cmd/releaseaudit/security_assessment.go:478-503 | the loop over prerelease fields returns the order of section 11.4, absent prerelease highest, shorter list lower |
| SemVer.SecurityCompare | cmd/releaseaudit/security_assessment.go:452-504 | for all strings: an error exactly when one version is not accepted, else the precedence order of section 11 |
| SemVer.ComparePreorder | cmd/releaseaudit/security_assessment.go:452-504 | the comparison is reflexive, total and transitive on accepted versions, hence a total preorder |
| SemVer.CompareTransitive | cmd/releaseaudit/security_assessment.go:452-504 | strict comparisons compose |
| SemVer.CompareZero | cmd/releaseaudit/security_assessment.go:452-504 | two accepted versions compare equal exactly when they differ only in the v prefix or the build metadata |
| SemVerGrammar.AcceptedIs | cmd/releaseaudit/security_assessment.go:449-463 | the comparison evaluates exactly the texts of the grammar: an optional v, three numbers, optional prerelease and build fields, each spelled as sections 2, 9 and 10 say |
| SemVerGrammar.ComparisonIs | cmd/releaseaudit/security_assessment.go:452-504 | comparing two spelled versions: numbers by value, then the first differing prerelease field, numeric below alphanumeric, a release above its prereleases, build fields ignored |
| ProductVersion.ValidCoreNumber | internal/version/version.go:262-272 | true exactly for decimal numerals without a leading zero |
| ProductVersion.ValidIdentifierList | internal/version/version.go:274-296 | true exactly for nonempty dot-separated identifier lists, numbers without leading zeros when asked |
| ProductVersion.ParseSemVer | internal/version/version.go:223-260 | succeeds exactly on versions the assessment also accepts that carry no v prefix and have 16-bit core numbers, and returns those numbers |
| ProductVersion.ParsedIs | internal/version/version.go:223-260 | accepts exactly the texts of that grammar without a v whose three numbers are at most 65535, and returns them |
| ProductVersion.ParseCore | internal/version/version.go:242-259 | the core-number loop fails exactly when some component exceeds 65535 |
| ProductVersion.AcceptedHasNoSpace | internal/version/version.go:223-226 | no accepted version has surrounding space or other characters than version characters, so the trim test decides nothing |
| Freeze.AdvancesPrerelease | cmd/releaseaudit/source.go:370-397 | for valid versions of equal core: true exactly when the assessment's comparison is negative, so the two implementations of precedence agree |
| Freeze.PrereleaseAdvances | cmd/releaseaudit/source.go:375-396 | the field loop decides strict prerelease order |
| Freeze.FreezeIncrement | cmd/releaseaudit/source.go:343-367 | accepts exactly the next core version or a prerelease advance, and says when the step is a patch |
| Freeze.AcceptsIs | cmd/releaseaudit/source.go:343-367 | on the versions spelled: the next patch, the next minor with patch 0, the next major with both 0, or the same three numbers with a sooner prerelease before |
| Freeze.AcceptedStepRaises | cmd/releaseaudit/source.go:343-367 | every accepted step strictly raises precedence |
| Freeze.ChainNeverRecurs | cmd/releaseaudit/source.go:343-367 | along any chain of accepted freezes every later version is strictly above every earlier one, so no precedence class recurs |
| OsvRange.EventFits | cmd/releaseaudit/security_assessment.go:535-562 | one step of the shape check: the event may follow what has been read |
| OsvRange.Advance | cmd/releaseaudit/security_assessment.go:525-572 | one step of the streaming evaluation keeps the scan equal to the specification of the events read |
| OsvRange.SecurityRange | cmd/releaseaudit/security_assessment.go:515-575 | an error exactly on ranges that are not accepted; otherwise the schema's evaluation with limits closing intervals, and the fixes of the interval holding the version |
| OsvSchema.SchemaOnAccepted | cmd/releaseaudit/security_assessment.go:515-575 | on an accepted event list the left-to-right evaluation within the limits is the sorted evaluation of the OSV schema, section Evaluation, both directions |
| OsvSchema.PassIsSchema | cmd/releaseaudit/security_assessment.go:515-575 | the verdict on a limit-free accepted range is the answer the schema defines |
| OsvSchema.VerdictIs | cmd/releaseaudit/security_assessment.go:515-575 | on the events themselves: a verdict exactly for introductions and closings in turn at strictly later versions; affected exactly when the version lies in some interval; the fixes are those that close such an interval |
| OsvSchema.SortedIsUnique | cmd/releaseaudit/security_assessment.go:538-551 | an accepted list is the only sorted arrangement of its events |
| OsvSchema.AtMostOneFix | cmd/releaseaudit/security_assessment.go:553-575 | at most one fix is reported |
| OsvSchema.FixIsLaterAndUnaffected | cmd/releaseaudit/security_assessment.go:553-575 | a reported fix is strictly later than the installed version and judged unaffected by the same range |
| OsvSchema.LimitLastAgrees | cmd/releaseaudit/security_assessment.go:553-575 | when limits only end the list the code agrees with the schema's limit rule for every version |
| OsvSchema.LimitInsideDisagrees | cmd/releaseaudit/security_assessment.go:553-575 | when a limit stands inside the list there is a version on which the two differ, and the lemma returns it |
| OsvSchema.LimitInsideExample | cmd/releaseaudit/security_assessment.go:553-575 | introduced at 0, a limit at 1.0.0, introduced at 2.0.0 is an accepted list on which the pass and the schema differ at 2.0.0 |
| OsvSchema.LimitAgreement | cmd/releaseaudit/security_assessment.go:553-575 | treating a limit as a closing boundary agrees with the schema for all versions if and only if limits occur only at the end |
| Evidence.Union | cmd/releaseaudit/security_assessment.go:213-224 | the union of two lists, strictly ascending |
| Evidence.UnionCanonical | cmd/releaseaudit/security_assessment.go:213-224 | strictly ascending lists with the same elements are equal, so map iteration order cannot show |
| Evidence.CardinalityMeansOverlap | cmd/releaseaudit/security_assessment.go:225-227 | the cardinality test is set intersection |
| Evidence.ReadEntry | cmd/releaseaudit/security_assessment.go:413-435 | what one affected entry contributes: match, validity, conclusiveness and fixes |
| Evidence.EntryIs | cmd/releaseaudit/security_assessment.go:413-435 | what an entry says of a version, on its version list and the events of its ranges: match, invalidity and conclusiveness |
| Evidence.SecurityVersionEvidence | cmd/releaseaudit/security_assessment.go:406-447 | the loop over entries returns the specified evidence: status, canonical fixes, raised severity, conclusiveness |
| Evidence.ProposedFixes | cmd/releaseaudit/security_assessment.go:406-447 | a fix is proposed exactly when every entry for the module can be evaluated and a range of one matches the version and reports it |
| Evidence.GravestSeverity | cmd/releaseaudit/security_assessment.go:406-447 | the severity is the gravest of the record's own and those of the entries that match |
| Evidence.SecurityValidateFixes | cmd/releaseaudit/security_assessment.go:231-261 | keeps exactly the fixes the record confirms at the fix itself and returns exactly the conflict and unknown codes |
| Evidence.ValidatedFixesConfirmed | cmd/releaseaudit/security_assessment.go:231-261 | a fix survives validation exactly when it was proposed and the record's entries for the module, evaluated at the fix itself, none matching, invalid or empty and one conclusive, confirm it |
| Evidence.FixIsRead | cmd/releaseaudit/security_assessment.go:236-246 | the evidence at a proposed fix is what the record's entries for the module say of the fix itself, with or without its v |
| Aliases.GrowGroup | cmd/releaseaudit/security_assessment.go:284-294 | the worklist loop collects the connected component of its start among the unseen findings |
| Aliases.FormGroups | cmd/releaseaudit/security_assessment.go:275-299 | groups are exactly the connected components of the reciprocal-alias relation, each finding in one group |
| Aliases.NamingEachOther | cmd/releaseaudit/security_assessment.go:264-266 | two records that name each other with the same status and disposition are in one group |
| Aliases.NamedByAnother | cmd/releaseaudit/security_assessment.go:264-294 | whoever shares a group with another finding names some other record and is named by it, with the same status and disposition |
| Aliases.ComponentIs | cmd/releaseaudit/security_assessment.go:284-294 | a closed set all of whose members reach the start is that component |
| Aliases.AliasOverlapIsIntersection | cmd/releaseaudit/security_assessment.go:225-227 | the overlap test of two findings is intersection of their identifier sets |
| Aliases.OverlapCodes | cmd/releaseaudit/security_assessment.go:300-306 | the ambiguity code exactly when two different components share an identifier, and no other code |
| Consolidate.CheckFix | cmd/releaseaudit/security_assessment.go:321-327 | one fix against every record of the group: conflict and doubt exactly when some record contradicts it, or cannot evaluate it, at the fix itself |
| Consolidate.CrossCheck | cmd/releaseaudit/security_assessment.go:320-328 | conflict exactly when some record contradicts some proposed fix, doubt exactly when some record cannot evaluate one |
| Consolidate.JudgeGroup | cmd/releaseaudit/security_assessment.go:314-329 | conflict exactly when a record of the group contradicts a fix some member proposes, doubt exactly when a member is unconfirmed or a record cannot evaluate a proposed fix |
| Consolidate.ConflictingIsClash | cmd/releaseaudit/security_assessment.go:314-330 | a group conflicts exactly when the record of one member contradicts a fix that another still proposes |
| Consolidate.DoubtfulIsMurky | cmd/releaseaudit/security_assessment.go:314-330 | a group is in doubt exactly when a member is unconfirmed or the record of one cannot be evaluated at a fix that another still proposes |
| Consolidate.MergeGroup | cmd/releaseaudit/security_assessment.go:342-354 | the merge loop computes the specified merged finding |
| Consolidate.MergeCarries | cmd/releaseaudit/security_assessment.go:343-347 | a merged finding carries exactly the records, fixes and aliases of its members, and otherwise is its first member |
| Consolidate.MergeHighest | cmd/releaseaudit/security_assessment.go:348-350 | its severity is one of the members' and of maximal rank, with the matching priority |
| Consolidate.ResolveGroup | cmd/releaseaudit/security_assessment.go:309-355 | a group is merged exactly when no record contradicts or fails to evaluate a proposed fix and no member is blocked or unconfirmed, with exactly the codes for conflict and doubt; else its findings pass through one by one |
| Consolidate.ResolveAll | cmd/releaseaudit/security_assessment.go:308-356 | every part comes from its group as ResolveGroup decides it, the parts cover every finding once, and the codes are exactly the groups' codes |
| Consolidate.SecurityConsolidateAliases | cmd/releaseaudit/security_assessment.go:263-358 | a component is reported finding by finding exactly when a member is blocked or two members clash or leave doubt, else as one merged finding; the codes are, sorted and once each, exactly those with a cause |
| Consolidate.ReportedFixesConfirmed | cmd/releaseaudit/security_assessment.go:231-261 | every fix in any output finding is confirmed by every record the finding carries: at the fix itself no entry for the module matches or fails, and one is conclusive |
| Consolidate.ConfirmedFixesReported | cmd/releaseaudit/security_assessment.go:231-358 | the converse: a proposed fix that its own record confirms is reported in whatever finding carries that record |
| Consolidate.ReportedSeverity | cmd/releaseaudit/security_assessment.go:348-350 | an output's severity rank is the maximum over its members and its priority matches its severity |
| Consolidate.EveryRecordOnce | cmd/releaseaudit/security_assessment.go:308-356 | every input record is in exactly one output finding |
| Consolidate.CleanOutputsAreDisjointComponents | cmd/releaseaudit/security_assessment.go:300-306 | when no quality code is emitted distinct outputs have disjoint identifier sets and are whole components |
| ConsolidationLaws.CodesAre | cmd/releaseaudit/security_assessment.go:231-356 | exactly when each of the five codes is emitted, on the findings that go in and their records, and that there is no other code |
| ConsolidationLaws.PartsAre | cmd/releaseaudit/security_assessment.go:308-356 | an output is a single finding when a finding connected to it, or two of them, oppose or obscure some fix, and else the whole connected component |
| Capture.Run.TakeHit | cmd/releaseaudit/security_osv.go:209-247 | one hit is taken exactly when it is well formed, new, its record can be had under the same date and the snapshot stays in bounds; else the run stops with the first objection, its code and a determined snapshot |
| Capture.Run.TakeResult | cmd/releaseaudit/security_osv.go:203-260 | one result is taken, extending exactly the page chain of its module, or the run stops for one of three reasons: it is out of bounds, a hit is refused, or its token names a page of the module again |
| Capture.Run.RequestPage | cmd/releaseaudit/security_osv.go:178-261 | one batch request: exactly the due modules are asked for with their tokens, positions are matched to them, exactly the unfinished ones stay pending; or the run stops with the reason and the snapshot left |
| Capture.Run.CaptureBatch | cmd/releaseaudit/security_osv.go:164-262 | at most 16 requests complete the up to 16 modules of a batch and touch no other, or the run stops with the reason and the snapshot left |
| Capture.Run.CaptureAll | cmd/releaseaudit/security_osv.go:152-269 | without errors: every query complete with exactly the ids of its module's pages, advisories exactly those referred to, every hit well formed and dated as its record; with an error: exactly which answer was objected to and what snapshot is left; no error on orderly answers; at most 16 batch requests for 16 modules and 256 detail requests |
| Capture.OrderlyStopsNothing | cmd/releaseaudit/security_osv.go:152-269 | nothing is objected to when there are 1 to 128 modules, each request is answered with one result in bounds per module, no module's hits or tokens repeat, its pages end within 16, every record is had under its id and date, at most 256 are referred to and no snapshot on the way is oversized |
| Capture.PageRead | cmd/releaseaudit/security_osv.go:203-259 | one more page keeps the module's ids, tokens and completion in step with the pages read |
| Capture.TrackedStep | cmd/releaseaudit/security_osv.go:203-260 | processing one position tracks that module further and leaves the others |
| Capture.FetchedHit | cmd/releaseaudit/security_osv.go:215-231 | a newly fetched record keeps the catalogue listed once and referred to |
| Capture.BatchesStep | cmd/releaseaudit/security_osv.go:162-163 | the outer loop runs once for every started batch of 16 |
| Capture.CatalogSorted | cmd/releaseaudit/security_osv.go:264-267 | the final sort keeps the advisories and orders them strictly by id |
| Assessment.IndexAdvisories | cmd/releaseaudit/security_assessment.go:80-91 | refused exactly when some record is invalid or an id repeats; the codes are exactly that one and the time conflict of a record taken |
| Assessment.CollectFindings | cmd/releaseaudit/security_assessment.go:112-134 | findings of exactly the known ids of the query; the codes say exactly whether an id is unknown or repeats and whether some version is unconfirmed |
| Assessment.FindingIs | cmd/releaseaudit/security_assessment.go:120-133 | what a finding says of its record: its id, aliases and withdrawal, affected exactly when the record holds at the module's version and can be evaluated, at least the record's own severity, advice that goes with the fixes |
| Assessment.AssessQuery | cmd/releaseaudit/security_assessment.go:94-142 | exactly the codes of one module's turn, the records it uses, and its findings as one consolidation of them |
| Assessment.AssessModules | cmd/releaseaudit/security_assessment.go:92-143 | the loop over modules: the codes are exactly those of some turn, the used ids exactly those of the assessed queries |
| Assessment.AssessSecurity | cmd/releaseaudit/security_assessment.go:54-146 | the codes are exactly those with a cause, among them an integrity code exactly when the snapshot is not coherent with the inventory; freshness and findings are determined |
| Assessment.CoherentIs | cmd/releaseaudit/security_assessment.go:54-146 | what coherence is on the snapshot's fields: schema, provider, identity, no errors, one complete query per module listing known records once, valid records under distinct ids, each referred to |
| Assessment.CapturedIsCoherent | cmd/releaseaudit/security_osv.go:152-269 | whatever the provider answered, a capture without errors is coherent with its identity and modules, so none of those codes is raised on it |
| Assessment.AllMentioned | cmd/releaseaudit/security_assessment.go:144-146 | comparing the two counts decides whether some record is referred to by no query |
| Assessment.AssessedFixesConfirmed | cmd/releaseaudit/security_assessment.go:137-142 | in the whole assessment every reported fix is confirmed at the fix itself by every record its finding carries, and the priority goes with the severity |
| Assessment.AssessedAdvice | cmd/releaseaudit/security_assessment.go:249-354 | after validation and merging the advice still says to upgrade exactly when a fix is reported |
| ModuleGraph.BindIds | cmd/releaseaudit/security_inventory.go:120-138 | succeeds exactly when packages and modules are one to one with matching versions and distinct ids |
| ModuleGraph.TableCounts | cmd/releaseaudit/security_inventory.go:136-138 | comparing counts decides whether every module has its package |
| ModuleGraph.ReadRelationships | cmd/releaseaudit/security_inventory.go:139-160 | edges are exactly the declared dependencies, exposure sets exactly what the product relations say |
| ModuleGraph.Closure.Visit | cmd/releaseaudit/security_inventory.go:161-170 | the recursion terminates on cycles, marks only what is reachable and leaves nothing marked with unmarked children |
| ModuleGraph.Closure.VisitAll | cmd/releaseaudit/security_inventory.go:171-175 | in whatever order the roots are taken, exactly the modules reachable by a nonempty path from a DIRECT module are marked |
| ModuleGraph.ClassifySecurityModules | cmd/releaseaudit/security_inventory.go:120-192 | accepted exactly when each module has one package of its version under an id of its own, a chain of declared dependencies leads from a DIRECT module to every INDIRECT one and to no DIRECT one; lists each module once, by name, with the exposure its relations give |
| ModuleGraph.ClosedContains | cmd/releaseaudit/security_inventory.go:161-170 | a closed set with a node's children contains every walk from it |
| StageRename.StageRename.PreState | cmd/releaseaudit/stage_rename.go:105-124 | true exactly when ancestors and stage hold their bound identities and the target is absent |
| StageRename.StageRename.VerifiedPreState | cmd/releaseaudit/stage_rename.go:105-124 | succeeds exactly when the prestate holds, the content verifies and the prestate still holds; verifies only in the prestate |
| StageRename.StageRename.OwnedTarget | cmd/releaseaudit/stage_rename.go:126-134 | true exactly when the bound identity is at the target, the stage is gone and the ancestors are unchanged |
| StageRename.StageRename.RenameWithOps | cmd/releaseaudit/stage_rename.go:153-208 | under any interference: nil exactly after a successful rename that left the identity at the target; no act exactly without verifier, budget or prestate; attempt, sleep of 20 ms more each time, and verification take turns in the bound state and inside the window by the clock readings; the run stops only in doubt (exactly then retained) or with no attempt left |
| StageRename.StageRename.DisciplineIs | cmd/releaseaudit/stage_rename.go:167-208 | the discipline every step keeps is exactly this turn-taking, act by act, and it counts the attempts |
| StageRename.StageRename.RunAttempt | cmd/releaseaudit/stage_rename.go:167-190 | one attempt ends the run exactly on success, an ambiguous state, a permanent error or a spent budget |
| StageRename.StageRename.PrepareRetry | cmd/releaseaudit/stage_rename.go:191-207 | sleeps only when the backoff ends inside the window, by the clock reading after the attempt; gives up exactly when it does not |
| StageRename.StageRename.Reverify | cmd/releaseaudit/stage_rename.go:197-206 | another attempt exactly when the clock is inside the window before and behind a verification that passes in a prestate that still holds |
| StageRename.StageRename.Cleanup | cmd/releaseaudit/stage_rename.go:136-147 | removes the stage exactly while it is neither retained nor promoted and the prestate holds; the result is the removal's |
| StageRename.StageRename.QuietRunIsDecided | cmd/releaseaudit/stage_rename.go:136-208 | when nobody else writes and the content still verifies, a run ends promoted or in the prestate, in which nothing is retained and the cleanup removes the stage |
| StageRename.BindStageRename | cmd/releaseaudit/stage_rename.go:37-68 | binds exactly distinct siblings with real directories on every prefix above, a real stage and an absent target, and records the identities of the prefixes, nearest first |
| Promotion.Promotion.SameCandidateFiles | cmd/releaseaudit/candidate.go:454-484 | true exactly when the directory holds the promoted names with the source bytes and nothing else |
| Promotion.Promotion.Preflight | cmd/releaseaudit/candidate.go:609-623 | passes exactly when the alias is absent, not asked for or a regular file, whose bytes and mode it remembers |
| Promotion.Promotion.CopyCandidate | cmd/releaseaudit/candidate.go:640-666 | fills the stage with exactly the source bytes, and succeeds exactly when every source is there |
| Promotion.Promotion.PublishImmutable | cmd/releaseaudit/candidate.go:624-688 | succeeds exactly when an identical verified directory is reused, or a complete one passes every check and the rename; then the directory holds exactly the source bytes |
| Promotion.Promotion.SwitchAlias | cmd/releaseaudit/candidate.go:689-723 | succeeds exactly when no scheduled call fails; else the alias is untouched or stands aside, and the flags say which |
| Promotion.Promotion.RollbackNewCandidate | cmd/releaseaudit/candidate.go:727-741 | removes a directory this run created, completely |
| Promotion.Promotion.RestoreAlias | cmd/releaseaudit/candidate.go:559-587 | puts the original alias back from the backup or, failing that, from the remembered bytes |
| Promotion.Promotion.Rollback | cmd/releaseaudit/candidate.go:549-608 | after any failure the root is the prestate with the alias restored as computed |
| Promotion.Promotion.FinishSuccess | cmd/releaseaudit/candidate.go:549-557 | removes temp, backup and lock in this order; the promotion stays a success exactly when all that apply succeed |
| Promotion.Promotion.Settle | cmd/releaseaudit/candidate.go:549-608 | the whole deferred settlement: exactly which schedules turn success into failure, and the rollback behind them |
| Promotion.Promotion.Promote | cmd/releaseaudit/candidate.go:497-725 | for every fault schedule the result and the whole final root are determined: on success the directory holds exactly the names, the manifest its own bytes and every other name its source's, the alias names the identity, all else is as before; on failure all is as before up to special alias bits |
| Promotion.Promotion.SucceedsIs | cmd/releaseaudit/candidate.go:497-725 | exactly when a promotion succeeds: no lock, an absent or regular alias, every name with its source, the directory in place holding exactly those or the new one passing its checks, and no failing call it depends on |
| Promotion.Promotion.ExactLoss | cmd/releaseaudit/candidate.go:549-599 | exactly the schedules under which a failed run does not leave its prestate |
| Promotion.Promotion.ExactRollbackCondition | cmd/releaseaudit/candidate.go:566-573 | every failed run leaves its prestate, whatever fails, if and only if the run never gets to the alias switch or the alias it replaces has no special bits |
| Promotion.StickyAliasIsLost | cmd/releaseaudit/candidate.go:566-573 | a concrete run: a sticky alias, only the lock removal fails, and the alias comes back without its sticky bit |
| Readback.IndexAssets | cmd/releaseaudit/publication.go:449-457 | accepts exactly positive distinct ids, distinct names and uploaded assets |
| Readback.ReadbackState | cmd/releaseaudit/publication.go:411-477 | accepts exactly matching metadata with an inventory that holds every expected asset by size, digest and downloaded bytes, and no more |
| Readback.AcceptsIs | cmd/releaseaudit/publication.go:411-477 | acceptance field by field: the tagged prerelease of the plan, not the latest, with as many uploaded assets of distinct ids and names as expected, each expected one matched in size, digest and downloaded bytes |
| Readback.CheckPin | cmd/releaseaudit/publication_normalization.go:190-202 | accepts exactly the recorded publication time and ids |
| Readback.AcceptsIsBijection | cmd/releaseaudit/publication.go:435-477 | an accepted inventory is in bijection with the expected assets |
| Provider.ReleaseService.ReadRelease | cmd/releaseaudit/publication.go:411-477 | a readback of any answer; an honest provider may fail but does not lie |
| Provider.ReleaseService.DispatchUpload | cmd/releaseaudit/publication.go:321-331 | an upload is applied wholly or not at all, whatever it reports |
| Provider.ReleaseService.DispatchDelete | cmd/releaseaudit/publication_normalization.go:49-52 | a deletion is applied wholly or not at all, whatever it reports |
| Publication.Begin | cmd/releaseaudit/publication.go:532-566 | preflight, exclusive journal and intent come before the draft is created or continued |
| Publication.TransferOne | cmd/releaseaudit/publication.go:569-590 | readback of what was transferred, local bytes, intent, upload, stopping at the first failure |
| Publication.TransferAll | cmd/releaseaudit/publication.go:567-591 | the assets in plan order |
| Publication.CloseRelease | cmd/releaseaudit/publication.go:592-603 | publishing follows a readback of the complete draft and its intent |
| Publication.ReadAllPublic | cmd/releaseaudit/publication.go:604-613 | every asset is downloaded without credentials and compared, in order; a completed readback holds one successful download of each |
| Publication.ExecutePublicationTarget | cmd/releaseaudit/publication.go:512-618 | for every provider the run follows the publication script and stops at its first failure; a run that returns ok downloaded every planned asset after its last write |
| Publication.ConformingWrites | cmd/releaseaudit/publication.go:512-618 | a run's dispatched writes are a prefix of its script's |
| Publication.ScriptIs | cmd/releaseaudit/publication.go:555-618 | the script creates unless continuing, uploads each asset in plan order and publishes, each write right behind its intent |
| Publication.WritePlaces | cmd/releaseaudit/publication.go:512-618 | in any run, whatever the provider does: the only writes are the draft, the i-th asset behind the readback of those before it, its bytes and its intent, and the publication behind the complete draft and its intent, each at its own step |
| Publication.CompletedRun | cmd/releaseaudit/publication.go:512-618 | every step of a run that returns ok: opened once, every asset uploaded in plan order, published, every asset downloaded publicly and the release read back again |
| Publication.EveryRunIsOneShot | cmd/releaseaudit/publication.go:512-618 | for every provider: writes are a prefix of the one-shot sequence, each with its own synced intent directly before it, nothing follows an error, publishing follows an accepting readback |
| Publication.PublishNeedsBijection | cmd/releaseaudit/publication.go:592-600 | publishing is dispatched only when the remote assets are in bijection with the planned ones |
| Publication.WritingOpensJournal | cmd/releaseaudit/publication.go:550-562 | a run that dispatched any write created the journal |
| Publication.OneSequencePerJournal | cmd/releaseaudit/publication.go:481-488 | runs sharing a journal path dispatch at most one one-shot sequence among them |
| NormalizationPlan.CheckOriginals | cmd/releaseaudit/publication_normalization.go:133-143 | accepts exactly strictly ascending names with distinct positive ids |
| NormalizationPlan.SplitLegacy | cmd/releaseaudit/publication_normalization.go:156-167 | finds every legacy asset among the originals and splits them by name, or fails exactly when one is missing or changed |
| NormalizationPlan.NothingMissing | cmd/releaseaudit/publication_normalization.go:157-167 | as many legacy assets as originals and all found: they are the same |
| NormalizationPlan.ValidateNormalization | cmd/releaseaudit/publication_normalization.go:125-174 | accepts exactly plans whose originals are the legacy inventory in canonical order, split by the projected archive names |
| NormalizationPlan.ValidIs | cmd/releaseaudit/publication_normalization.go:125-174 | validity on the lists themselves: originals in name order under distinct positive ids and equal to the legacy assets, those of a projected archive's name retained and the others deleted, in name order, the last projected checksum asset bound |
| NormalizationPlan.ValidPartitions | cmd/releaseaudit/publication_normalization.go:125-174 | a valid plan partitions the originals into Retain and Delete without repeated id or name |
| Preparation.PrepareNormalization | cmd/releaseaudit/publication_normalization.go:86-123 | succeeds exactly when the release reads back and the split has the expected sizes; the prepared plan always validates, with the ids and the publication time of the release |
| Family.RemoveId | cmd/releaseaudit/publication_normalization.go:300-305 | the slice edit removes the first asset with the id |
| Family.RemainingIs | cmd/releaseaudit/publication_normalization.go:283-305 | at every loop head the remaining assets are exactly the originals minus the deleted prefix, in order |
| Family.RemainingIsRetain | cmd/releaseaudit/publication_normalization.go:283-322 | after the loop they equal the plan's Retain as a sequence |
| Family.UploadKeeps | cmd/releaseaudit/publication_normalization.go:256-262 | an applied upload turns the original inventory into the original plus checksum |
| Family.DeleteKeeps | cmd/releaseaudit/publication_normalization.go:294-309 | an applied deletion turns an exact inventory into the exact next one |
| Family.NamesTell | cmd/releaseaudit/publication_normalization.go:361-381 | the names in an accepted inventory tell whether the checksum is there and how many deletions were made |
| Family.ExactlyIs | cmd/releaseaudit/publication_normalization.go:178-203 | an inventory is accepted after n deletions exactly when the release is the plan's public one and its assets are the originals without those n, under their recorded ids, and the checksum asset, byte for byte and no more |
| Family.FamilyIs | cmd/releaseaudit/publication_normalization.go:353-382 | the family is exactly all originals, or the originals without some first deletions beside the checksum asset |
| Normalization.ReadbackInventory | cmd/releaseaudit/publication_normalization.go:178-203 | accepts exactly the expected assets under their recorded ids and publication time |
| Normalization.Prepare | cmd/releaseaudit/publication_normalization.go:228-241 | prestate readback, approval of that prestate and exclusive journal come first |
| Normalization.UploadChecksum | cmd/releaseaudit/publication_normalization.go:242-267 | the upload run follows its script and leaves an honest provider in the family |
| Normalization.PublicParity | cmd/releaseaudit/publication_normalization.go:277-282 | every projected asset is read publicly before the intent that precedes any deletion |
| Normalization.DeleteNext | cmd/releaseaudit/publication_normalization.go:284-315 | one deletion between two readbacks leaves an honest provider in the family |
| Normalization.DeleteAll | cmd/releaseaudit/publication_normalization.go:283-315 | the deletions in plan order, stopping at the first failure |
| Normalization.Finish | cmd/releaseaudit/publication_normalization.go:316-328 | public reads again, then a readback of exactly Retain plus checksum, then the closing intent |
| Normalization.ExecuteNormalization | cmd/releaseaudit/publication_normalization.go:218-328 | for every provider the run follows its script and stops at its first failure; a delete run that returns ok downloaded every projected asset after its last deletion; an honest provider whose state changed is left in the family |
| Normalization.EveryUploadRun | cmd/releaseaudit/publication_normalization.go:242-267 | at most the one upload, at its step, announced, after the original inventory was proved |
| Normalization.CompletedUpload | cmd/releaseaudit/publication_normalization.go:242-267 | every step of an upload run that returns ok: originals proved, journal, bytes, intent, upload, originals and checksum proved, closing intent |
| Normalization.EveryDeleteRun | cmd/releaseaudit/publication_normalization.go:268-328 | for every provider: a prefix of the planned deletions, in order, each at its step and announced, after every projected asset was downloaded publicly and that was noted, right after a readback of exactly what then remains |
| Normalization.CompletedDelete | cmd/releaseaudit/publication_normalization.go:268-328 | every step of a delete run that returns ok: prestate proved, journal, every projected asset downloaded and noted, every deletion between two proofs, every projected asset downloaded again, Retain and checksum proved and noted |
| Normalization.EachDeletedOnce | cmd/releaseaudit/publication_normalization.go:283-315 | no id is deleted twice in a run |
| Normalization.Walk | cmd/releaseaudit/publication_normalization.go:366-381 | follows the deletions whose names are gone and fails exactly when one is gone without the checksum |
| Normalization.WalkFinds | cmd/releaseaudit/publication_normalization.go:361-381 | on any member of the family the walk arrives at that member |
| Normalization.Reconcile | cmd/releaseaudit/publication_normalization.go:353-382 | accepts only the original set, that plus checksum, or that minus a prefix of Delete, whatever the provider answers; on an honest provider that answers it accepts all of them |
| Inventory.Walker.Walk | cmd/releaseaudit/supplychain.go:382-425 | succeeds exactly when everything below fits the initial allow-set, and has then removed exactly the files it met |
| Inventory.VerifyInventory | cmd/releaseaudit/supplychain.go:531-536 | accepted exactly when whatever a chain of names leads to fits, an allowed file in its bound under a portable name or a directory above one, and every allowed path leads to a file |
| Inventory.AllFitIs | cmd/releaseaudit/supplychain.go:387-423 | a tree fits exactly when each of its entries does |
| Inventory.UnderIsPrefix | cmd/releaseaudit/supplychain.go:394-399 | the string prefix test with a trailing slash is containment of paths |
| Archive.Precheck.Admit | cmd/releaseaudit/publication_github.go:740-753 | an entry is admitted exactly when it is compatible with every earlier one |
| Archive.TablesDecide | cmd/releaseaudit/publication_github.go:740-753 | the two lookup tables decide compatibility with everything seen |
| Archive.CheckEntries | cmd/releaseaudit/publication_github.go:732-758 | accepted exactly when entries are safe and bounded, folded names distinct, no folded file a folded directory and every folded directory spelled one way |
| Archive.AcceptedIs | cmd/releaseaudit/publication_github.go:732-758 | acceptance entry by entry: at most 128 regular files under safe names within the limit and five times it in all, and any two names go on and are spelled alike wherever folding confuses them |
| Archive.AcceptedPermuted | cmd/releaseaudit/publication_github.go:732-758 | acceptance depends only on which entries there are, not on their order |
| Archive.MkdirParents | cmd/releaseaudit/publication_github.go:683-703 | the exclusive directory creations of an accepted archive all succeed |
| Archive.Extract | cmd/releaseaudit/publication_github.go:719-780 | in a fresh root on any filesystem at most as coarse as the folding, extraction succeeds exactly on accepted archives and makes exactly the named files and their directories |
| Paths.StaysAbove | internal/security/path.go:333-343 | a walk that never goes below its start cleans to as many plain components as its depth |
| Paths.StaysBelow | internal/security/path.go:333-343 | a walk that does keeps a leading ".." |
| Paths.WalkLaws | internal/security/path.go:333-343 | what cleaning does component by component: a plain one is appended, ".." takes back the last plain one, "." and "" change nothing, ".." with nothing to take back is kept |
| Paths.TraversalIsFirst | internal/security/path.go:341-343 | the string test asks whether the first component is ".." |
| Paths.TraversalIsBelow | internal/security/path.go:341-343 | a relative path fails the traversal test exactly when some prefix of its walk goes below depth zero |
| Paths.JoinedIsBelow | internal/security/path.go:224-227 | joining an accepted path gives the root followed by its cleaned components |
| Paths.CleanRendered | internal/security/path.go:237 | cleaning an absolute path of plain components changes nothing |
| Paths.InsideIsPrefix | internal/security/path.go:363-370 | the containment test is being below the root component by component |
| Guard.ResolveLexical | internal/security/path.go:205-234 | admits exactly the paths that never go below the root and break no lexical policy, resolves them to root plus walk, gives the first reason that applies otherwise, and its last containment test never rejects |
| Guard.PlainPathLeads | internal/security/path.go:205-234 | a path of plain components leads to exactly these components below the root |
| Guard.DetourLeadsBack | internal/security/path.go:205-234 | entering a plain directory and leaving it again changes neither the decision nor the place |
| Guard.ValidateExistingPathPolicy | internal/security/path.go:304-331 | returns the first objection along the path below the root |
| Guard.PassesIs | internal/security/path.go:304-331 | a path passes exactly when no prefix below the root is objected to |
| Guard.PolicyIs | internal/security/path.go:304-331 | the policy answers with the first prefix below the root that is hidden or has objectionable metadata, and with nothing exactly when there is none |
| Guard.ResolveExistingParent | internal/security/path.go:236-269 | terminates and returns the nearest ancestor that exists inside the lexical root, or the reason there is none |
| Guard.ResolveExisting | internal/security/path.go:141-163 | succeeds exactly for admissible paths that pass the policy and exist inside the effective root; else the first objection in the order of the checks |
| Guard.ResolveForCreate | internal/security/path.go:166-203 | succeeds exactly when the path, or its nearest existing ancestor, lies inside the effective root; else the objection to the path or to that ancestor |
| Guard.CreatableIs | internal/security/path.go:166-203 | what may be created: what exists in order inside the effective root, or what is nowhere below a parent that does, everything between them missing |
| Checksums.PublicationChecksumBytes | cmd/releaseaudit/publication_distribution.go:68-82 | prints exactly valid hashes of strictly ascending printable names; each line is a hash, two spaces and a name, and ends with a line feed |
| Checksums.PrintedSoFarIs | cmd/releaseaudit/publication_distribution.go:68-82 | what is printable: 64 lower-case hexadecimal digits, a name without separators, colons or white space that ends in .zip or .tar.gz, names strictly ascending |
| Checksums.PrintedSplits | cmd/releaseaudit/publication_distribution.go:68-82 | printed text splits back into its records and one empty rest |
| Checksums.ParseChecksums | cmd/releaseaudit/publication_distribution.go:136-147 | accepts exactly the texts the printer emits for some tuple of valid hashes, and recovers that tuple |
| Checksums.CanonicalIsPrintable | cmd/releaseaudit/candidate.go:74-78 | for every product version the canonical names are in the printer's order and shape |
| Checksums.CanonicalAre | cmd/releaseaudit/candidate.go:74-78 | the four names a version is published under, in the order of the checksum file |
| Checksums.SortedNames | cmd/releaseaudit/publication_distribution.go:130-135 | sorting the target names gives the canonical order |
| Checksums.TargetFor | cmd/releaseaudit/candidate.go:65-72 | finds the target of the platform and architecture if there is one |
| Checksums.VerifySelectedPublication | cmd/releaseaudit/publication_distribution.go:113-158 | accepts exactly a valid version and known target whose archive digest is the hash printed for it |
| Checksums.AttestedMeans | cmd/releaseaudit/publication_distribution.go:136-158 | a digest is attested exactly when the data are four lines, each a hash, two spaces and its canonical name, and an empty rest, and the selected line holds this digest |
| Checksums.PrinterMeetsVerifier | cmd/releaseaudit/publication_distribution.go:68-147 | what the printer writes for the canonical archives attests exactly their digests |

## Left out

- The HTTP transport, redirects, credentials, workflow-run checks, and zip, tar and gzip decoding: network or library
  code; the provider is abstract.
- SHA-256, JSON encoding and decoding, and time parsing: functions with the assumptions above.
- Identifier and module-name patterns, timestamp and advisory validation, and the snapshot size limit in `Capture`:
  predicates that the proofs hold for whatever they are.
- Lists that are null rather than empty in a decoded snapshot, and the codes raised only for them.
- Triage exceptions, the final ordering of findings and report writing in `assessSecurity`: they change neither the
  records nor the fixes of a finding.
- Parsing go.mod lines and SPDX JSON: `ClassifySecurityModules` starts from the requirements by name.
- The changelog and git checks around the freeze rule: text plumbing.
- Authorization files, approvals and notes of publication and normalization: one opaque boolean (`bound`) and, for the
  approved prestate, one predicate on states.
- Identity checks of the evidence root between extraction steps, and copying of file contents: every write that can
  succeed does.
- Windows volumes, UNC forms, hidden attributes and reparse points: one platform test and one metadata function; paths
  are slash-separated.
- Symbolic-link resolution: a function from locations to effective locations.
- `AllowListEntry` in the path guard: the tests of `Guard` once more on a single entry.
- MCP tools, the registry, transports, benchmarks, icons and the documentation checker: separate programs or one-branch
  checks.
- Archive.Extract: does not model failing writes or changed directory identities, because the property is that nothing
  in the archive itself can make a creation collide.
- Archive.MkdirParents: does not model the directory-identity checks between creations, as for `Extract`.
- Normalization.Prepare: does not compute the prestate digest, because the approval may bind any property of the state.
