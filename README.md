# knit, modelled in Dafny

knit builds a patched release of a git repository. It reads a patch catalogue: a
`starting-versions.yml` per minor release, listing versions, their base refs, their
patches, their submodule changes and their hotfixes. It then replays what a requested
version needs on a checkout of the repository, one git command at a time.

This project models the core of knit and proves properties of that model:

- **Resolving a version** (`patch_set.dfy`, module `PatchSet`).
  - `parseVersion` splits `major.minor.patch[+hotfix]`.
  - `VersionsToApplyFor` replays the catalogue in declaration order. Where the hotfix
    applies, it merges the hotfix in. It expands patch names into paths and collects the
    submodule bumps, patches, additions and removals. It remembers the effective entry:
    the last entry whose version is at most the requested patch. It then keeps the
    entries that share the effective entry's ref and are not newer than it.
- **Building the checkpoint** (`versions_parser.dfy`, module `VersionsParser`).
  `GetCheckpoint` turns the resolved versions into changesets, plus a checkout ref, a
  final branch and a resulting version.
- **Applying a checkpoint** (`apply.dfy`, module `Apply`). `Apply.Checkpoint` issues
  calls against the `repository` interface:
  - first the committer, the checkout and the branch;
  - then, for each changeset, the patches, the submodule additions and removals, the
    bumps and the submodule patches.
  - Bumps and submodule patches go in path order (`sortSubmodules`,
    `sortSubmodulePatches`). The first error stops the run.
  - The interface is modelled by `Repository`, which records every call in a trace and
    answers call number n from a fixed script of outcomes.
- **The git command sequences of `Repo`** (`repo.dfy`, module `Repo`). Each operation
  issues a fixed list of git commands through a runner and stops at the first failure.
  - `PatchSubmodule` has a recovery branch. When `git add` refuses a path inside a nested
    submodule, it commits inside that submodule and then goes on.
  - `CheckoutBranch` refuses a branch that already exists.
  - `CleanSubmodules` runs `git clean -ffd` in every submodule that `.gitmodules` lists
    and that exists on disk.
  - The runner is modelled by `Runner`: a trace of issued commands, a script of
    outcomes, and a script of combined outputs.
- **The command line** (`knit.dfy`, module `Knit`). It covers the required-flag check
  and `checkGitVersion`.

Supporting modules:

- `fail_fast.dfy` (`FailFast`) defines `Run(script, log, plan)`. This fail-fast fold
  specifies every loop above: issue the plan's calls in order, and stop at the first
  call answered with an error.
- `go_strings.dfy` (`GoStrings`) models the Go library functions the core uses:
  `strings.Split`, `TrimSpace`, `HasPrefix`, `TrimPrefix`, `strconv.Atoi` and `Itoa`,
  and `filepath.Join` without path cleaning.
- `ordering.dfy` (`Ordering`) models `sort.Strings` and the byte order of Go string
  comparison.
- `errors.dfy` and `wrappers.dfy` hold the error values and `Result`/`Option`.

Inputs that come from the outside world are parameters:

- the answer of the release-directory lookup and of the YAML loader
  (`releaseDir`, `startingVersions`);
- the content of `.gitmodules`;
- whether a path exists (`notExist`);
- the outcomes and outputs of the commands;
- the text `git --version` prints.

Where the source behaves in ways a reader may not expect, the model follows the source:

- `VersionsToApplyFor` drops a submodule's `Add` and `Remove` whenever a hotfix overlays
  that submodule (patch_set.go:111-114). The model does the same.
- When no catalogue entry is at most the requested patch, the Go zero value
  `Version{}` is the effective version. Then only entries with ref `""` and patch `<= 0`
  are selected, and the model does the same (`PatchSet.Effective`).
- `strconv.Atoi` accepts a sign, so `-1.2.3` parses. `ParseVersion` keeps this.
- main.go:74 calls `NewRepo` with four arguments, but patcher/repo.go:29 takes six. The
  model follows patcher/repo.go.

## Model

| member | source | states |
|---|---|---|
| PatchSet.ParseVersion | patcher/patch_set.go:170-195 | it succeeds exactly when the part before the first `+` has at least three dot-separated parts and the first three parse as Go ints; the hotfix never contains `+`; a failure is the Atoi error or the index panic |
| PatchSet.ParseFormatRoundTrip | patcher/patch_set.go:170-195 | any version with int64 components and a `+`-free hotfix, once formatted, parses back to itself |
| PatchSet.SecondPlusIgnored | patcher/patch_set.go:171-192 | text after a second `+` does not change the result |
| PatchSet.TwoPartVersionPanics | patcher/patch_set.go:173-184 | a two-part version such as `1.9` indexes past the parts and fails with the index panic |
| PatchSet.ParsePlainVersion | patcher/patch_set.go:170-195 | `1.9.2` parses to 1, 9, 2 and no hotfix |
| PatchSet.ParseHotfixVersion | patcher/patch_set.go:170-195 | `3.2.1+something.else` keeps the dot-containing hotfix `something.else` |
| PatchSet.ParseShortVersion | patcher/patch_set.go:173-179 | `1.9` fails with the index panic |
| PatchSet.ParseGarbage | patcher/patch_set.go:174-177 | `%$#` fails with Atoi's syntax error on the whole text |
| PatchSet.MergedSubmodules | patcher/patch_set.go:97-115 | an overlaid path takes the hotfix ref if non-empty (else the entry's), the entry's patches followed by the hotfix's, and no addition or removal; other paths stay as they were; the key set is the union |
| PatchSet.MergeHotfix | patcher/patch_set.go:97-115 | the loop over the hotfix submodules builds exactly MergedSubmodules |
| PatchSet.Prepared | patcher/patch_set.go:93-119 | the entry is unchanged unless it is the target patch with a hotfix; a missing hotfix is exactly the failure, with that hotfix's name; otherwise the hotfix patches are appended and its submodules merged |
| PatchSet.Expand | patcher/patch_set.go:121-134 | each patch name becomes root/releaseDir/name, in order |
| PatchSet.ExpandPatches | patcher/patch_set.go:121-123 | the patch loop returns Expand of the names |
| PatchSet.ExpandAppend | patcher/patch_set.go:121-123 | expanding a concatenation is concatenating the expansions |
| PatchSet.Bumps | patcher/patch_set.go:125-128 | a path has a bump iff its submodule has a non-empty ref, and the bump is that ref |
| PatchSet.SubmodulePatchPaths | patcher/patch_set.go:130-138 | a path has patches iff its submodule lists at least one, expanded like the release patches |
| PatchSet.Additions | patcher/patch_set.go:140-146 | a path is added iff its submodule has an addition URL, with that addition |
| PatchSet.Removals | patcher/patch_set.go:148-150 | a path is removed iff its submodule is marked remove |
| PatchSet.MissingRefs | patcher/patch_set.go:140-143 | the paths with an addition URL and no addition ref |
| PatchSet.CollectStep | patcher/patch_set.go:125-151 | one iteration of the submodule loop keeps the four collections equal to their definitions over the submodules seen so far |
| PatchSet.CollectSubmodules | patcher/patch_set.go:125-151 | the loop over the submodules fails iff some addition lacks a ref, naming such a path; otherwise it builds the bumps, submodule patches and additions as defined, and lists each removal once |
| PatchSet.MaterializeEntry | patcher/patch_set.go:82-151 | it fails iff some addition lacks a ref, naming such a path; otherwise the version has the target's major and minor, the entry's patch and ref, the expanded patches, and the bumps, submodule patches and additions as defined, with the removals listing the removal set once each |
| PatchSet.EntryFaults | patcher/patch_set.go:93-143 | the errors an entry can raise: the missing hotfix, or else one missing-ref error per addition without a ref |
| PatchSet.FirstFaulty | patcher/patch_set.go:81-158 | the index of the first entry that can raise an error, every earlier entry being fault-free |
| PatchSet.FirstFaultyAt | patcher/patch_set.go:81-158 | any index with fault-free entries before it and a faulty entry at it is FirstFaulty |
| PatchSet.FaultFreeCatalog | patcher/patch_set.go:93-143 | in a fault-free catalogue the hotfix is present wherever it applies, and every entry prepares and materialises |
| PatchSet.ResolveEntry | patcher/patch_set.go:93-151 | one pass of the replay fails iff the entry is faulty, with one of its errors; otherwise the entry is prepared and its version is the materialised entry |
| PatchSet.ReplayCatalog | patcher/patch_set.go:79-158 | the replay fails iff some entry is faulty, with an error of the first faulty entry; on success it materialises every entry in order and yields the effective entry |
| PatchSet.EffectiveIndex | patcher/patch_set.go:153-155 | the index of the last version at most the target patch, or -1 when every version is newer |
| PatchSet.EffectiveAppend | patcher/patch_set.go:153-155 | a new last entry becomes the effective version iff its version is at most the target |
| PatchSet.Filter | patcher/patch_set.go:160-165 | the versions kept by the final loop are exactly those with the given ref and a patch at most the bound |
| PatchSet.FilterVersions | patcher/patch_set.go:160-165 | the final loop returns Filter against the effective version |
| PatchSet.FilterAppend | patcher/patch_set.go:160-165 | filtering distributes over concatenation, so the relative order is kept |
| PatchSet.Select | patcher/patch_set.go:153-165 | a version is selected iff it shares the effective ref and is not newer than the effective version |
| PatchSet.SelectEndsWithEffective | patcher/patch_set.go:153-165 | when some entry is eligible, the selection is non-empty and ends with the effective version |
| PatchSet.FilterKeepsLast | patcher/patch_set.go:160-165 | filtering by an entry's own ref and patch keeps that entry at the end |
| PatchSet.FilterNone | patcher/patch_set.go:160-165 | no version passes a bound below every patch |
| PatchSet.NothingEligible | patcher/patch_set.go:80-165 | if every entry is newer than a non-negative target, nothing is selected: the zero-value effective version matches nothing |
| PatchSet.BaselineReset | patcher/patch_set.go:153-165 | a later entry with a new ref supersedes all earlier entries |
| PatchSet.SharedRefAccumulates | patcher/patch_set.go:153-165 | entries sharing the effective ref accumulate up to the target and stop there |
| PatchSet.DeclarationOrderDecides | patcher/patch_set.go:153-155 | the effective version is the last eligible one in declaration order, not the highest |
| PatchSet.RelatedEffectiveIndex | patcher/patch_set.go:153-155 | versions that differ only in the order of their removals have the same effective index |
| PatchSet.RelatedFilter | patcher/patch_set.go:160-165 | such versions filter to lists that still differ only in removal order |
| PatchSet.SelectRelated | patcher/patch_set.go:153-165 | such versions select to lists that still differ only in removal order |
| PatchSet.MaterializedUnique | patcher/patch_set.go:82-151 | two materialisations of one entry differ at most in the order of the removals |
| PatchSet.ResolvesRelated | patcher/patch_set.go:79-158 | two replays of one catalogue differ at most in removal order |
| PatchSet.VersionsToApplyFor | patcher/patch_set.go:63-168 | a parse, release-directory or loader error is returned as is; otherwise it fails iff some entry is faulty, with an error of the first faulty entry, and on success returns the selection over the replayed catalogue |
| PatchSet.ResolutionDeterministic | patcher/patch_set.go:63-168 | whatever order the maps are ranged in, the selected versions agree up to the order of each version's removals |
| VersionsParser.GetCheckpoint | patcher/versions_parser.go:36-63 | a resolver error passes through; an empty resolution fails with the missing-starting-version error for the requested version; otherwise there is one changeset per version with its five fields, the checkout ref is the first version's ref, the final branch is the requested version, and the resulting version is `<ref>-<version>` |
| FailFast.Run | patcher/apply.go:43-48 | the issued calls are a prefix of the plan after the log; all outcomes before the last issued call succeeded; no error means the whole plan was issued; an error is the last issued call's outcome |
| FailFast.RunStep | patcher/repo.go:46-55 | one step: a failing first call stops with its error, otherwise the rest runs |
| FailFast.RunAppend | patcher/apply.go:42-84 | running two plans in sequence is running the first and, only if it succeeded, the second |
| FailFast.RunFirstError | patcher/repo.go:46-55 | when the first failing outcome is at plan index k, exactly the first k+1 calls are issued and the result is that error |
| FailFast.RunNoError | patcher/repo.go:46-57 | when no outcome fails, the whole plan is issued and the result is no error |
| Apply.Repository.CommitterFailureStops | patcher/apply.go:27-30 | a failing ConfigureCommitter is the only call issued, and its error is returned |
| Apply.Repository.CheckoutFailureStops | patcher/apply.go:32-35 | a failing Checkout after a successful ConfigureCommitter stops the run with only those two calls |
| Apply.Repository.ConfigureCommitter | patcher/apply.go:27 | the call is recorded and answered from the script |
| Apply.Repository.Checkout | patcher/apply.go:32 | the call is recorded with the ref and answered from the script |
| Apply.Repository.CheckoutBranch | patcher/apply.go:37 | the call is recorded with the branch and answered from the script |
| Apply.Repository.ApplyPatch | patcher/apply.go:44 | the call is recorded with the patch and answered from the script |
| Apply.Repository.AddSubmodule | patcher/apply.go:51 | the call is recorded with path, URL, ref and branch and answered from the script |
| Apply.Repository.RemoveSubmodule | patcher/apply.go:58 | the call is recorded with the path and answered from the script |
| Apply.Repository.BumpSubmodule | patcher/apply.go:68 | the call is recorded with path and sha and answered from the script |
| Apply.Repository.PatchSubmodule | patcher/apply.go:78 | the call is recorded with path and patch and answered from the script |
| Apply.PatchCalls | patcher/apply.go:43-48 | one ApplyPatch call per patch, in order |
| Apply.AdditionCalls | patcher/apply.go:50-55 | one AddSubmodule call per path in the given order, carrying that path's URL, ref and branch |
| Apply.RemovalCalls | patcher/apply.go:57-62 | one RemoveSubmodule call per listed path, in order |
| Apply.BumpCalls | patcher/apply.go:66-72 | one BumpSubmodule call per path in the given order, with that path's sha |
| Apply.PathPatchCalls | patcher/apply.go:77-82 | one PatchSubmodule call per patch of one submodule, in order |
| Apply.SubmodulePatchCalls | patcher/apply.go:76-83 | every call is a PatchSubmodule of one of the listed paths |
| Apply.DefaultOrders | patcher/apply.go:50 | for every changeset there is some enumeration of its additions |
| Apply.ChangesetsPlanAppend | patcher/apply.go:42-84 | the plan of consecutive changesets is the concatenation of their plans |
| Apply.OfPhase | patcher/apply.go:42-84 | a selection of at most as many calls, each of the requested kind |
| Apply.OfPhaseAppend | patcher/apply.go:42-84 | selecting one kind distributes over concatenation |
| Apply.ChangesetPhasesAscend | patcher/apply.go:43-83 | within a changeset, all patches come before all additions, then removals, then bumps, then submodule patches |
| Apply.ChangesetPhases | patcher/apply.go:43-83 | a changeset's calls of each kind are exactly its patches, its additions in the chosen order, its listed removals, its bumps in path order and its submodule patches in path order |
| Apply.AllPatches | patcher/apply.go:42-48 | a patch is listed iff some changeset has it |
| Apply.PatchCallsAppend | patcher/apply.go:43-48 | patch calls of a concatenation are concatenated patch calls |
| Apply.ChangesetsPatches | patcher/apply.go:42-48 | across changesets, the ApplyPatch calls are exactly one per patch of every changeset, in changeset order |
| Apply.CheckpointPatches | patcher/apply.go:26-84 | in a checkpoint's plan the ApplyPatch calls are all the patches in order, and the only set-up calls are committer, checkout and branch |
| Apply.ChangesetsPhaseZero | patcher/apply.go:42-84 | changesets issue no set-up calls |
| Apply.BumpOrderOfTwo | patcher/apply.go:64-99 | two bumps are issued in ascending path order, whatever order the map holds them in |
| Apply.BumpOrderExample | patcher/apply.go:64-99 | bumps declared as `src/b`, `src/a` are issued for `src/a` first |
| Apply.CollectKeys | patcher/apply.go:90-94 | ranging over a map lists every key exactly once |
| Apply.SortedKeys | patcher/apply.go:89-111 | the sorted key list is ascending and lists every key once, hence is the unique sorted enumeration |
| Apply.Apply.ApplyPatches | patcher/apply.go:43-48 | the calls issued and the error are the fail-fast run of the patch calls |
| Apply.Apply.AddSubmodules | patcher/apply.go:50-55 | for some enumeration of the additions, the calls and error are the fail-fast run of the addition calls in that order |
| Apply.Apply.RemoveSubmodules | patcher/apply.go:57-62 | the fail-fast run of the removal calls |
| Apply.Apply.BumpSubmodules | patcher/apply.go:64-72 | the fail-fast run of the bump calls in sorted path order |
| Apply.Apply.PatchOneSubmodule | patcher/apply.go:77-82 | the fail-fast run of one submodule's patch calls |
| Apply.Apply.PatchSubmodules | patcher/apply.go:74-83 | the fail-fast run of all submodule patch calls, submodules in sorted path order |
| Apply.Apply.ApplyChangeset | patcher/apply.go:43-83 | the fail-fast run of the changeset's five call groups in order |
| Apply.Apply.ApplyChangesets | patcher/apply.go:42-84 | the fail-fast run of every changeset's plan in turn |
| Apply.Apply.Checkpoint | patcher/apply.go:26-87 | the calls issued and the error are the fail-fast run of committer, checkout, branch and then every changeset's plan |
| Ordering.SortStrings | patcher/apply.go:96-108 | the result is sorted and a permutation of the input |
| Ordering.SortedSeq | patcher/apply.go:89-111 | the sorted enumeration of a key set |
| Ordering.AscendingEnumerationUnique | patcher/apply.go:96-108 | two sorted enumerations of one set are equal |
| Ordering.SortedEnumeration | patcher/apply.go:92-96 | sorting any enumeration of a key set gives the sorted enumeration, whatever the map order |
| Ordering.EnumerationsArePermutations | patcher/apply.go:92-93 | two enumerations of one key set are permutations of each other |
| GoStrings.Split | patcher/patch_set.go:171-173 | at least one part, none containing the separator |
| GoStrings.JoinSplit | patcher/repo.go:229 | joining the parts with the separator gives back the text |
| GoStrings.SplitJoin | patcher/repo.go:229 | splitting separator-free parts joined by the separator gives the parts |
| GoStrings.TrimSpace | patcher/repo.go:232 | the result is the input without leading and trailing Unicode white space |
| GoStrings.TrimSpacePadded | patcher/repo.go:232 | padding a non-blank-ended text with white space does not change what TrimSpace returns |
| GoStrings.TrimPrefix | patcher/repo.go:234 | the prefix is removed when present, otherwise the text is unchanged |
| GoStrings.Atoi | patcher/patch_set.go:174-184 | a success is a signed decimal numeral within int64; a failure is a numeric error on the whole input; a non-numeral shorter than 20 characters is a syntax error |
| GoStrings.AtoiItoa | patcher/patch_set.go:174 | every int64 survives formatting and parsing back |
| GoStrings.Join | patcher/patch_set.go:122 | an empty element is dropped, otherwise the two are joined by `/` |
| GoStrings.SplitAround | patcher/patch_set.go:122 | a separator between two texts splits into the pieces of the first followed by those of the second |
| GoStrings.JoinSplitsAtSlash | patcher/patch_set.go:122 | the `/`-separated components of a joined path are those of the first element followed by those of the second |
| GoStrings.Join3SplitsAtSlash | patcher/patch_set.go:122 | a patch path `join(root, releaseDir, name)` has the components of root, then of the release directory, then of the name |
| Repo.Runner.Run | patcher/repo.go:52 | the command is recorded and answered from the script |
| Repo.Runner.CombinedOutput | patcher/repo.go:158 | the command is recorded and answered from the script, and its output comes from the output script |
| Repo.Repo.CleanCommands | patcher/repo.go:87-91 | one `git clean -ffd` per submodule, run in that submodule's directory |
| Repo.Repo.RunCommands | patcher/repo.go:46-57 | the issued commands and the error are the fail-fast run of the list |
| Repo.Repo.ConfigureCommitter | patcher/repo.go:40-58 | the fail-fast run of the two `git config --global` commands for name and email |
| Repo.Repo.Checkout | patcher/repo.go:60-79 | the fail-fast run of checkout, `clean -ffd` and the recursive forced submodule update |
| Repo.Repo.ApplyPatch | patcher/repo.go:107-120 | exactly one `git am <patch>` in the repository, whose outcome is the result |
| Repo.Repo.BumpSubmodule | patcher/repo.go:122-143 | the fail-fast run of checkout, update and clean inside the submodule, then add and commit in the repository |
| Repo.Repo.PatchSubmodule | patcher/repo.go:145-196 | the issued commands and the error are those of the patch sequence with its nested-submodule recovery |
| Repo.Repo.PatchAmFailureStops | patcher/repo.go:146-154 | a failing `git am` is the only command issued, and its error is returned |
| Repo.Repo.PatchSuccessEndsWithCommit | patcher/repo.go:145-196 | a successful patch issued `am` and `add` first and ended with the repository-level add and commit |
| Repo.Repo.PatchRecovery | patcher/repo.go:156-195 | when `git add` fails, names a nested submodule and everything after succeeds, the nested add and commit run before the repository-level add and commit |
| Repo.Repo.PatchRecoveryFailureStops | patcher/repo.go:162-176 | a failing nested add or commit stops the patch with that error, and the repository-level commit is not issued |
| Repo.Repo.PatchUnmatchedOutput | patcher/repo.go:158-160 | when `git add` fails with output that does not name a submodule, the index panic follows the two issued commands |
| Repo.Repo.CheckoutBranch | patcher/repo.go:198-220 | the issued commands and the error are CheckoutBranchRun |
| Repo.Repo.CheckoutBranchOutcome | patcher/repo.go:198-220 | `rev-parse --verify` runs first; `checkout -b` is issued iff the verify failed; a successful verify gives the branch-exists error, otherwise the checkout's outcome is the result |
| Repo.Repo.Submodules | patcher/repo.go:222-250 | a read error is returned; otherwise the result is the existing submodule directories named by the `path = ` lines |
| Repo.Repo.CleanSubmodules | patcher/repo.go:81-105 | a read error issues nothing and is returned; otherwise it is the fail-fast run of a clean in every existing submodule |
| Repo.ReadModulePaths | patcher/repo.go:228-236 | the first loop returns ModulePaths of the file content |
| Repo.KeepExisting | patcher/repo.go:238-247 | the second loop returns ExistingPaths |
| Repo.LinePathsFromLines | patcher/repo.go:231-236 | every path found comes from some `path = ` line |
| Repo.LinePathsHaveLines | patcher/repo.go:231-236 | every `path = ` line contributes its path |
| Repo.LinePathsAppend | patcher/repo.go:231-236 | the paths of concatenated lines are the concatenated paths |
| Repo.ExistingPathsMembers | patcher/repo.go:238-247 | a directory is kept iff it is the repository joined with some module path and does not fail to exist |
| Repo.ExistingPathsAll | patcher/repo.go:238-247 | when every submodule exists, all are kept in declaration order |
| Repo.EntryPaths | patcher/repo.go:222-250 | the declared paths of the entries, in order |
| Repo.PathLineHasPath | patcher/repo.go:232-234 | a tab-indented `path = x` line yields x |
| Repo.HeaderLineHasNoPath | patcher/repo.go:233 | a `[submodule "…"]` header yields no path |
| Repo.UrlLineHasNoPath | patcher/repo.go:233 | a `url = ` line yields no path |
| Repo.EntryLinePaths | patcher/repo.go:229-236 | an entry's three lines yield exactly its path |
| Repo.GitmodulesLinePaths | patcher/repo.go:229-236 | the lines of a `.gitmodules` yield exactly the declared paths |
| Repo.ModulePathsRoundTrip | patcher/repo.go:223-236 | parsing a `.gitmodules` written from well-formed entries gives back their paths, in order |
| Knit.FirstEmpty | main.go:45-52 | the index of the first empty value, all earlier ones being non-empty |
| Knit.MissingFlagMessage | main.go:44-56 | the message is empty iff all three flags are set |
| Knit.MissingFlagIsFirst | main.go:44-52 | the message names the first missing flag in the order repository-to-patch, patch-repository, version |
| Knit.CheckGitVersion | main.go:93-120 | version unknown iff nothing matched or fewer than three parts; unparsable with the first failing Atoi's error; otherwise accepted iff major > 2, or major is 2 and minor at least 9, else too old |
| Knit.CheckNumericVersion | main.go:97-120 | for numeric components the check rejects exactly the versions below 2.9 |
| Knit.RejectsGit280 | main.go:116-118 | 2.8.0 is too old |
| Knit.AcceptsGit290 | main.go:112-120 | 2.9.0 is accepted |
| Knit.RejectsNonNumeric | main.go:102-105 | `x.9.0` fails with Atoi's syntax error on `x` |
| Knit.LastWindowBelow | main.go:92 | the start of the rightmost single-digit `d.d.d` window before a position, or none iff there is no such window |
| Knit.RegexCapture | main.go:92-95 | the regex captures nothing iff no line has a single-digit `d.d.d` window; otherwise the capture is the rightmost window of the first line that has one |
| Knit.CapturedAtNext | main.go:92 | a window-free first line passes the leftmost match on to the following lines |
| Knit.LastWindowAtEnd | main.go:92 | whatever precedes it, a line ending in a single-digit `d.d.d` has its rightmost window there, so `1.2.3 x 2.9.0` captures `2.9.0` |
| Knit.SingleDigitCapture | main.go:92 | on the output of a release with single-digit components, the regex captures the whole version |
| Knit.AsWrittenAgreesOnSingleDigits | main.go:92-120 | on such releases the check as written gives the corrected check's answer: accepted iff at least 2.9 |
| Knit.TwoDigitMinorLineHasNoWindow | main.go:92 | the line `git version M.m.p` has no single-digit `d.d.d` window when the minor version has two digits or more |
| Knit.TwoDigitMinorHasNoMatch | main.go:92 | the regex matches nothing in the output of any git release whose minor version has two digits or more |
| Knit.AsWrittenRejectsTwoDigitMinor | main.go:92-95 | the check as written reports every such release's version as unknown |
| Knit.ReleaseOutputLines | main.go:92 | `git --version`'s output splits into its version line and an empty last piece |
| Knit.AsWrittenRejectsGit2100 | main.go:92-95 | the check as written reports git 2.10.0's version as unknown |
| Knit.VersionToken | main.go:92 | the corrected extraction returns a token without spaces |
| Knit.VersionTokenOfRelease | main.go:92 | the corrected extraction returns `major.minor.patch` from `git version major.minor.patch` |
| Knit.CheckAcceptsRelease | main.go:92-120 | with the corrected extraction, any released git is accepted iff it is at least 2.9 |
| Knit.CheckAcceptsGit2100 | main.go:92-120 | with the corrected extraction, git 2.10.0 is accepted |

## Left out

- `releaseDirName` and `parseStartingVersionsFile` (patch_set.go:197-226) read the file
  system and parse YAML. Their answers are the parameters `releaseDir` and
  `startingVersions` of `PatchSet.VersionsToApplyFor`.
- `filepath.Join` cleans `..` and doubled separators. `GoStrings.Join` only joins with
  `/`, so paths with `.`, `..` or a trailing `/` are not normalised.
- `os.Stat` in `submodules` is the predicate `notExist`. An error other than "does not
  exist" keeps the path, as in the source; the model does not distinguish such errors
  further.
- `ioutil.ReadFile` of `.gitmodules` is the parameter `gitmodules` of
  `Repo.Repo.Submodules` and `Repo.Repo.CleanSubmodules`.
- The `debug` flag of `Repo` only wires the commands' stdout and stderr to the process.
  It does not change which commands run, so it is left out.
- `Repo.Runner` stands for the `runner` interface. The real command runner
  (command_runner.go, runner.go) and process execution are not part of this model.
- Repo.Repo.PatchSubmodule: the regex `^.*is in submodule '(.*)'` is the abstract
  function `submoduleIn`, so what it extracts from `git add`'s output is not modelled.
  A non-match still panics, modelled as the index-out-of-range error.
- The Go `Repo` type has no `AddSubmodule` or `RemoveSubmodule` in this version
  of patcher/repo.go. `Apply.Repository` therefore models the `repository` interface
  that `Apply` calls, not `Repo`.
- Apply.Apply.AddSubmodules: Go map ranging has no defined order. The contract holds
  for the order chosen, returned as a ghost value, and no particular order is claimed.
- Apply.SubmodulePatchCalls: its own contract states only the kind and path of each
  call. The exact calls are pinned down by the tail lemma and the methods.
- Panics are errors: a version with fewer than three dot parts and an unmatched
  submodule regex give `IndexOutOfRange`, not a crash.
- `main` apart from the required-flag switch and `checkGitVersion`: `--version`,
  `exec.LookPath`, `log.Fatal` and the wiring of the parser, runner and `Apply`. These
  are process handling with no logic beyond calling the modelled operations.
- Knit.CheckGitVersion: the error values stand for the messages. The messages' exact
  texts and the `%s` formatting of the Atoi error are not modelled.
- Knit.RegexCapture models `.*(\d\.\d\.\d).*` by hand, with Go's leftmost-first
  semantics and `.` not matching a newline. The model is a definition, not a regex
  engine.
- The fakes and the test files are not modelled. patcher/repo_test.go targets a newer
  `Repo` than the one in patcher/repo.go.
- Integers are Go `int`, taken as 64 bits: `strconv.Atoi` range errors are modelled at
  int64. Arithmetic on versions never overflows in the source.

## Findings

| source | as written | input that shows it | evidently intended | confidence | as-written member | corrected member |
|---|---|---|---|---|---|---|
| main.go:92 | The pattern `.*(\d\.\d\.\d).*` needs a single digit in each component. With a two-digit minor nothing matches, and the check reports "could not determine `git` version". | `git --version` printing `git version 2.10.0` | every git at or above 2.9.0 is accepted, as the message "knit requires a version of git >= 2.9.0" says | high, not executed | Knit.AsWrittenRejectsGit2100 | Knit.CheckAcceptsRelease |
