# Verified models of nix-strix-halo's updaters, benchmark driver and reference checks

This Dafny project models the scripts of the repository that hold real algorithms, and proves what they are
relied on for. `dafny verify dfyconfig.toml` checks all of it.

- **TheRock source tree.** `GitModules` reads `.gitmodules` from what git prints (`RepeatedSections`: with section
  names that come twice). `SourceGraph` is the walk over submodules, nested and deep-nested submodules that records
  which commits are fetched (a class with the dictionaries the script fills, proved equal to a function of the
  fetched commits). `GraphJustification` says why every entry is there, that none is missing, and when no error is
  raised. `FetchArgs` reads the nested specifications. `InputNames` are the names of the generated flake inputs and
  `NixStrings` the literals they are written as. `FlakeInputs` is the generated block and its splicing into the
  flake, `TreeFile` the tree file and what is read back from both. `SourceAssembly` is the build that replays the
  list with destructive installs. `LockedTree` joins them: the graph, sorted, named, written to both files, read
  back and replayed, yields the longest-prefix overlay.
- **Release selection.** `Versions` is the version key and the two series filters, `SuffixOrder` says how any two
  versions rank, and `ReleaseSelection` is the choice of the common ROCm version, of one distribution per project,
  and of the tarball.
- **Benchmark driver.** `TransportMatrix` is the plan, the main loop as a state machine, and any sequence of
  interrupted and resumed runs. `StreamClient` consumes one event stream and aggregates the concurrent ones, with
  `Statistics` for means and percentiles; `StreamLaws` says what each column holds. `ToolCalls` assembles a streamed
  chat message.
- **Numeric references.** `Hadamard` is the doubling loop and the rotation, `PooledSelection` the top-k selection
  of pooled groups, `MatrixBalance` the alternating normalisation, `PromptSearch` the galloping search.

`Orders`, `Strings`, `TextLines`, `Arithmetic` and `Wrappers` hold what several modules share.

## How things are represented

- Git is a map from a commit (url and revision) to the variables of its `.gitmodules` (none if git cannot read the
  file) and its gitlinks; a commit outside the map cannot be fetched. SHA-1 is an arbitrary function to eight
  hexadecimal digits.
- A file tree is a map from path components to contents (`IsFileTree` says which maps are one). Directories are not
  recorded; what matters of them is that `mkdir -p` fails when an ancestor is a file.
- A Nix string literal is read as the Nix language reference has it: a backslash gives `n`, `r` and `t` their
  meaning and any other character itself, and an unpaired dollar before a brace opens an interpolation.
- Errors raised by the scripts are `Result` or `Option` values, with a constructor for each kind of error.
- What the outside world decides (a server start, a client's exit, the order in which requests complete, clock
  readings, a random sample, the order in which Python lists a set) is a parameter about which nothing is assumed.
- Floats are exact reals. Characters are Unicode scalar values, and ASCII where a script uses `\d`, `isdigit` or
  `lower`. A streamed text that is no such string (it has a lone surrogate, or is no string) is a value of its own.

## Where the code does not do what one might expect

- Reading `.gitmodules` cuts each printed line at its first white space and its key at the dots, so a file is read
  as written exactly when no section name contains a dot or white space (and no name repeats, no value is empty,
  begins with white space or spans lines: `SectionsReadExactly`). Otherwise a section can be dropped, or its path
  paired with another's url (`DottedNameMixesSections`, `SpacedNameIsDropped`, `SpacedNameMixesSections`, with
  inputs in `MisreadDotted` and `MisreadSpaced`).
- A root path that is only the *name* of a submodule takes that submodule's url, although its revision is the
  gitlink at the path (`RootSelectorIsPath`, with an input in `RootSelectorMixesSubmodules`).
- `choose_distribution` may pick a distribution without any ROCm tag although a tagged one exists; `ChosenIsTagged`
  says exactly when it does not, `UntaggedCanWin` gives the family where it does. The pin is recorded under the
  chosen version either way.
- The two series filters differ outside dotted-numeric series and on versions with a newline (`SeriesFiltersAgree`,
  `SeriesFiltersAgreeFor`, with an input in `SeriesFiltersDiffer`).
- `nix_string` writes JSON literals, which Nix reads as they were written exactly when the string has no character
  but printable ASCII, newline, return and tab, and no brace behind an odd number of dollars (`QuotedReadsBack`,
  with inputs in `MisreadStrings`).
- Splicing the flake inputs rewrites every line end of the file as a newline (`SpliceTextKeeps`).

## Model

| member | source | states |
|---|---|---|
| SourceAssembly.Builder.InstallSource | pkgs/therock/default.nix:183-192 | an install fails exactly when an ancestor of the destination is a file, and otherwise replaces all at or under the destination by the source |
| SourceAssembly.Builder.MkLockedSource | pkgs/therock/default.nix:171-214 | the build script leaves the tree that replaying the list over the root gives, or stops at the first install that fails |
| SourceAssembly.OverwriteAt | pkgs/therock/default.nix:187-190 | remove-then-copy changes exactly the files at or under the destination |
| SourceAssembly.ReplayContents | pkgs/therock/default.nix:174-214 | in any order, each file of the result comes from the last install at or above it, else from the root |
| SourceAssembly.ReplaySucceeds | pkgs/therock/default.nix:187-189 | in any order, the build succeeds exactly when no step finds a file among the ancestors of its destination |
| SourceAssembly.RightOrders | pkgs/therock/default.nix:174-176 | the last writer of every file is its deepest submodule exactly for the orders in which no submodule follows one below it |
| SourceAssembly.AssembleIsOverlay | pkgs/therock/default.nix:171-214 | with parents first, the build succeeds exactly when no file of the longest-prefix overlay stands where a directory is needed, and then builds that overlay |
| SourceAssembly.DepthOrderIrrelevant | pkgs/therock/scripts/update-source-tree.py:326 | every depth-nondecreasing order of the same submodules builds the same tree |
| SourceAssembly.ReducedTreeAgrees | pkgs/therock/default.nix:165-169 | dropping whole subtrees of submodules from a list that builds leaves one that builds, with the same files outside the dropped ones |
| SourceAssembly.AssembleKeepsFileTrees | pkgs/therock/default.nix:183-192 | when in the root and all sources no file stands above another, none does in the built tree |
| GitModules.ReadConfigBlob | pkgs/therock/scripts/update-source-tree.py:137-149 | the loop over the printed lines builds the dictionary that the lines determine, or raises on one without two parts |
| GitModules.ReadSubmodules | pkgs/therock/scripts/update-source-tree.py:152-168 | the loop over the paths builds the submodules that both dictionaries determine, or raises |
| GitModules.ReadIsClean | pkgs/therock/scripts/update-source-tree.py:144-168 | whatever the file, every submodule read has a name without dots and white space and a non-empty path and url of one line, and no name comes twice |
| GitModules.SectionsReadExactly | pkgs/therock/scripts/update-source-tree.py:137-168 | a file is read back as written exactly when its section names are distinct and free of dots and white space, and its paths and urls are non-empty single lines that do not begin with white space |
| RepeatedSections.SectionBehind | pkgs/therock/scripts/update-source-tree.py:144-168 | a clean section behind any others takes the place of the submodule of its name, path and url together, and stands last when there is none |
| GitModules.DottedNameMixesSections | pkgs/therock/scripts/update-source-tree.py:157-165 | a section `a.b` behind a section `a` leaves one submodule, with the path of the second and the url of the first |
| GitModules.MisreadDotted | pkgs/therock/scripts/update-source-tree.py:157-165 | a concrete file for which this happens |
| GitModules.SpacedNameIsDropped | pkgs/therock/scripts/update-source-tree.py:147-160 | a section whose name has white space is dropped when it stands alone |
| GitModules.SpacedNameMixesSections | pkgs/therock/scripts/update-source-tree.py:147-165 | behind a section named like its first word it replaces that one's path by a text that is no path in the file |
| GitModules.MisreadSpaced | pkgs/therock/scripts/update-source-tree.py:147-165 | concrete files for which both happen |
| SourceGraph.RootSelectorIsPath | pkgs/therock/scripts/update-source-tree.py:291-294 | the entry of a root selector stands at the selector with the gitlink there; its url is that of a submodule configured at that path exactly when there is one, else that of a submodule only named so |
| SourceGraph.RootSelectorMixesSubmodules | pkgs/therock/scripts/update-source-tree.py:291-294 | a concrete root whose entry has the url of the submodule at one path and the gitlink of another |
| SourceGraph.NestedSelectorPrefersName | pkgs/therock/scripts/update-source-tree.py:243-256 | a selector resolves exactly when it is some submodule's name or path, and a nested one prefers the name |
| SourceGraph.SelectorTakesLast | pkgs/therock/scripts/update-source-tree.py:152-168 | of several submodules at one path the last counts, and so it does for a name given by a nested selector |
| SourceGraph.GraphBuilder.RepoFor | pkgs/therock/scripts/update-source-tree.py:272-277 | the memo returns the commit asked for and fetches only what it has not fetched, never the root |
| SourceGraph.GraphBuilder.AddEntry | pkgs/therock/scripts/update-source-tree.py:279-289 | the first entry written for a path stays, and no entry changes |
| SourceGraph.GraphBuilder.AddBelowParent | pkgs/therock/scripts/update-source-tree.py:302-309 | resolving through the memo adds what resolving in the parent's own commit adds, or raises the same error |
| SourceGraph.GraphBuilder.BuildGraph | pkgs/therock/scripts/update-source-tree.py:259-327 | the memoised walk computes the graph defined on the commits alone, sorted; no repository is fetched twice and only repositories of entries are |
| SourceGraph.SortedEntriesUnique | pkgs/therock/scripts/update-source-tree.py:326 | the generated order does not depend on the order of the dictionary |
| SourceGraph.SortedByDepthThenPath | pkgs/therock/scripts/update-source-tree.py:326 | of any two generated entries the earlier has fewer slashes, or as many and a path that comes first in the dictionary |
| Orders.CompareStringIsDictionary | pkgs/therock/scripts/update-source-tree.py:326 | one string is less than another exactly when it is a proper prefix or has the smaller character at the first difference |
| GraphJustification.GraphSound | pkgs/therock/scripts/update-source-tree.py:279-324 | paths are pairwise distinct; every entry is a root path that was asked for, or what a selector listed below an earlier entry's path resolves to in that entry's pinned commit, with the url and the gitlink found there |
| GraphJustification.GraphChains | pkgs/therock/scripts/update-source-tree.py:291-324 | every returned entry ends a chain of gitlinks through returned entries that starts at the pinned root |
| GraphJustification.GraphComplete | pkgs/therock/scripts/update-source-tree.py:291-324 | every enabled root path, every nested path whose parent is an enabled root path, and every deep path has its entry |
| GraphJustification.GraphSucceeds | pkgs/therock/scripts/update-source-tree.py:243-324 | no error is raised exactly when root paths resolve and are gitlinks, parents of nested specifications resolve, parents of deep items are entries by then, and for every parent that is one its commit can be fetched and its selectors resolve to gitlinks |
| FetchArgs.NestedSpecs | pkgs/therock/scripts/update-source-tree.py:200-217 | the specifications are those of the non-flag arguments whose latest preceding flag is the nested one, in order; the first without a colon raises |
| FetchArgs.ReadScope | pkgs/therock/scripts/update-source-tree.py:208-216 | the inner loop takes every argument up to the next flag |
| FetchArgs.SpecShape | pkgs/therock/scripts/update-source-tree.py:209-215 | the project ends at the first colon; paths are trimmed, non-empty and free of commas |
| FetchArgs.SpecExactly | pkgs/therock/scripts/update-source-tree.py:209-215 | the project is all before the first colon; the paths are, in order, what trimming leaves of exactly those comma-separated pieces that are not blank |
| InputNames.InputNamesCoincide | pkgs/therock/scripts/update-source-tree.py:220-227 | two input names are equal exactly when both are the root's or both slug and digest agree |
| InputNames.SlugShape | pkgs/therock/scripts/update-source-tree.py:223-226 | truncated or not, a slug has lower-case words with single inner dashes, at most 64 characters |
| InputNames.SlugKeepsLetters | pkgs/therock/scripts/update-source-tree.py:223-226 | its letters and digits are those of the path in lower case, all of them unless cut short |
| InputNames.SlugExactly | pkgs/therock/scripts/update-source-tree.py:223-226 | a slug is the path's words of letters and digits in lower case with dashes between them, cut behind 64 characters, or behind 63 where the last would be a dash |
| InputNames.InputNameParts | pkgs/therock/scripts/update-source-tree.py:220-227 | split at its dashes, a name lists `therock`, `src`, the components of the series, the target, and then `root` or the slug's words and the digest |
| InputNames.InputNameDots | pkgs/therock/scripts/update-source-tree.py:220-227 | a name has a dot only where the target has one |
| NixStrings.QuotedShape | pkgs/therock/scripts/update-source-tree.py:60-61 | a literal is one line of printable ASCII that opens with a quote |
| NixStrings.QuotedReadsBack | pkgs/therock/scripts/update-source-tree.py:60-61 | Nix reads the literal as the string that was written exactly when each character is printable ASCII, newline, return or tab, and no brace stands behind an odd number of dollars |
| NixStrings.MisreadStrings | pkgs/therock/scripts/update-source-tree.py:60-61 | a letter outside ASCII and a brace behind one dollar are read differently, a brace behind two is not |
| FlakeInputs.InputLinesAreBlock | pkgs/therock/scripts/update-source-tree.py:330-345 | the generated block opens and closes with the markers and contains no other marker |
| TreeFile.BlockLayout | pkgs/therock/scripts/update-source-tree.py:330-345 | the block declares root and submodules in order, each in five lines with its own name and the url of its own commit, between the two markers |
| TreeFile.BlockReadsBack | pkgs/therock/scripts/update-source-tree.py:330-345 | names and urls read back from the block as the list of root and submodules exactly when all of them are readable |
| FlakeInputs.SpliceSucceeds | pkgs/therock/scripts/update-source-tree.py:348-356 | splicing succeeds exactly when the first begin marker stands before the first end marker |
| FlakeInputs.SpliceKeepsOutside | pkgs/therock/scripts/update-source-tree.py:348-358 | the region between the markers becomes the block, and the lines before and after it are kept |
| FlakeInputs.SpliceOverrides | pkgs/therock/scripts/update-source-tree.py:348-358 | a second splice fully overrides the first, and splicing the same block again changes nothing |
| FlakeInputs.SpliceSame | pkgs/therock/scripts/update-source-tree.py:348-358 | splicing in the region that is already there changes nothing |
| FlakeInputs.SpliceTextKeeps | pkgs/therock/scripts/update-source-tree.py:348-358 | on the contents of the file, what stands before and after the markers is kept character for character exactly when each line there ends in a newline |
| FlakeInputs.SpliceTextOverrides | pkgs/therock/scripts/update-source-tree.py:348-358 | on the contents of the file, a second splice overrides the first, and the same one again changes nothing |
| TextLines.SplitLinesExactly | pkgs/therock/scripts/update-source-tree.py:349 | a text is cut into lines at ten single characters and at a return with its newline, and its last line need not be ended |
| FlakeInputs.InputLinesAreLines | pkgs/therock/scripts/update-source-tree.py:330-345 | no line of the generated block contains a line end |
| TreeFile.ReferencesDeclared | pkgs/therock/scripts/update-source-tree.py:361-383 | every input the tree file refers to is declared in the block |
| TreeFile.TreeLayout | pkgs/therock/scripts/update-source-tree.py:361-383 | the file has 10 lines and four for each submodule, in order, with its own path and the input of its own name |
| TreeFile.TreeReadsBack | pkgs/therock/scripts/update-source-tree.py:361-383 | target, version, root input and the list of paths and inputs read back as they were written exactly when all of them are readable |
| TreeFile.FlakeReadsBack | pkgs/therock/scripts/update-source-tree.py:330-358 | whatever flake with markers is updated, what its block declares reads back as root and submodules |
| TreeFile.NameReadable | pkgs/therock/scripts/update-source-tree.py:220-227 | an input name is readable exactly when series and target are |
| TreeFile.PinsExactly | pkgs/therock/scripts/update-source-tree.py:336-343 | no name is declared twice exactly when names are distinct, and then every one is pinned to its own url |
| LockedTree.SortedPlacements | pkgs/therock/scripts/update-source-tree.py:326 | sorting by slash count orders the destinations by number of components, parents first |
| LockedTree.GroundedPathsNormal | pkgs/therock/scripts/update-source-tree.py:305-309 | when gitlinks have no empty, `.` or `..` components, neither have the joined paths of nested entries |
| LockedTree.InputNamesDistinct | pkgs/therock/scripts/update-source-tree.py:220-227 | names are pairwise distinct, the root's included, exactly when slugs and digests together tell the paths apart |
| LockedTree.LockedTreeIsOverlay | pkgs/therock/default.nix:171-221 | end to end, from the texts of the updated flake and the written tree file: the build replays exactly the graph's submodules, each at its own path and pinned url, and yields the overlay in which every file comes from the deepest submodule above it; it fails exactly when a file of that overlay is in the way |
| LockedTree.CompilerTreeIsOverlay | pkgs/therock/default.nix:165-222 | the compiler's tree, read from the same texts, is the overlay of exactly the submodules whose path does not begin with `rocm-systems/projects/rocprofiler-` |
| LockedTree.FilterDropsSubtrees | pkgs/therock/default.nix:165-169 | the string-prefix filter never drops a submodule and keeps one below it |
| LockedTree.CompilerTreeAgrees | pkgs/therock/default.nix:165-222 | if the full tree builds, so does the compiler's, and both agree on every file not at or under a dropped submodule |
| Versions.ReleaseLongest | pkgs/therock/scripts/update-python-wheels.py:169-173 | the greedy match is the longest dotted-numeric prefix |
| Versions.SeriesFiltersAgree | pkgs/therock/scripts/update-rocm.py:44-46 | the lookahead pattern and the component prefix accept the same versions of a dotted series, with a condition for any version and series |
| Versions.SeriesFiltersAgreeFor | pkgs/therock/scripts/update-rocm.py:44-46 | they agree on every version without a newline exactly when the series is dotted, or has a newline itself |
| Versions.SeriesExactly | pkgs/therock/scripts/update-python-wheels.py:196-211 | a version is in a series exactly when the series is dotted-numeric and the version, free of newlines, is the series itself or continues it with anything but a digit |
| Versions.SeriesFiltersDiffer | pkgs/therock/scripts/update-python-wheels.py:204-206 | a concrete prerelease given as the series, which the pattern accepts and the component prefix rejects |
| Versions.VersionLeqIsPreorder | pkgs/therock/scripts/update-python-wheels.py:165-179 | versions are totally preordered by their keys, without ever comparing a number with a word |
| Versions.CompareKeyIsComparison | pkgs/therock/scripts/update-rocm.py:53-67 | keys are totally ordered |
| Versions.ReleaseAboveSuffixed | pkgs/therock/scripts/update-python-wheels.py:168-179 | a release ranks strictly above itself with any suffix that does not continue it |
| Versions.ReleasesRankNumerically | pkgs/therock/scripts/update-rocm.py:56-61 | releases rank by the numeric value of their first differing component |
| Versions.ReleasesRankByDigits | pkgs/therock/scripts/update-rocm.py:56-61 | without leading zeros, the first differing component decides by its number of digits, then as a string |
| SuffixOrder.PrereleasesRankNumerically | pkgs/therock/scripts/update-rocm.py:62-67 | prereleases of one release and kind rank by the value of their number |
| SuffixOrder.PrereleasesRankByWord | pkgs/therock/scripts/update-python-wheels.py:174-179 | prereleases of one release rank by their words, as in a dictionary without regard to case, whatever numbers follow |
| SuffixOrder.FirstRunDecides | pkgs/therock/scripts/update-python-wheels.py:174-179 | the first differing run of a suffix decides: a word before a number, words by the dictionary, numbers by value |
| SuffixOrder.FurtherRunRanksAbove | pkgs/therock/scripts/update-python-wheels.py:174-179 | a suffix that goes on with a further run ranks strictly above the same suffix without it |
| SuffixOrder.SeparatorsAreIgnored | pkgs/therock/scripts/update-python-wheels.py:174-178 | characters other than letters and digits between two runs have no say |
| SuffixOrder.CaseIsIgnored | pkgs/therock/scripts/update-python-wheels.py:174-178 | words that differ only in case rank alike |
| SuffixOrder.ReleaseDecides | pkgs/therock/scripts/update-python-wheels.py:173-179 | whatever the suffixes, the release with the smaller first differing component, or the one that ends first, ranks strictly below |
| SuffixOrder.ReleaseRanksAbove | pkgs/therock/scripts/update-python-wheels.py:169-171 | a string without a release ranks strictly below every one that has one |
| SuffixOrder.OthersRankAsStrings | pkgs/therock/scripts/update-python-wheels.py:170-171 | two strings without a release rank as in a dictionary without regard to case |
| ReleaseSelection.OfferedVersions | pkgs/therock/scripts/update-python-wheels.py:223-231 | collects exactly the in-series versions of usable distributions |
| ReleaseSelection.CommonVersions | pkgs/therock/scripts/update-python-wheels.py:221-239 | the loop holds the intersection over the tagged projects, or names a tagged project that offers nothing |
| ReleaseSelection.ChooseRocmVersion | pkgs/therock/scripts/update-python-wheels.py:214-248 | succeeds exactly when a project is tagged and the tagged ones share a version in the series, with one no shared version outranks, in any project order; otherwise which error |
| ReleaseSelection.ChoiceSucceeds | pkgs/therock/scripts/update-python-wheels.py:258-269 | a distribution is chosen exactly when there is a candidate |
| ReleaseSelection.ChosenIsLastBest | pkgs/therock/scripts/update-python-wheels.py:251-276 | the choice is the last candidate that none outranks |
| ReleaseSelection.ChoiceExactly | pkgs/therock/scripts/update-python-wheels.py:258-276 | the choice is a wheel exactly when some candidate is, and no candidate of its kind has a newer public version; without a candidate an empty project fails differently from any other |
| ReleaseSelection.UsableExactly | pkgs/therock/scripts/update-python-wheels.py:151-193 | a distribution is usable exactly when its Python and platform tags fit and its public version is the one configured for the project, up to case and underscores, if any is |
| ReleaseSelection.ChosenIsTagged | pkgs/therock/scripts/update-python-wheels.py:258-276 | exactly when the chosen distribution carries a ROCm tag |
| ReleaseSelection.UntaggedCanWin | pkgs/therock/scripts/update-python-wheels.py:261 | an untagged wheel beats a tagged source distribution |
| ReleaseSelection.SharedVersionChoosable | pkgs/therock/scripts/update-python-wheels.py:419-438 | after a shared version is chosen, every tagged project is pinned, and under that version |
| ReleaseSelection.PinRecordsChosenVersion | pkgs/therock/scripts/update-python-wheels.py:428-438 | a project can be pinned exactly when it has a candidate, and is recorded under the one chosen version |
| ReleaseSelection.PinPackages | pkgs/therock/scripts/update-python-wheels.py:419-438 | the pin loop pins every project, or stops with the error of one that cannot be |
| ReleaseSelection.FindVersionIsLatest | pkgs/therock/scripts/update-rocm.py:40-50 | for any series, and for none, a tarball is found exactly when a version passes the filter, and then no version that passes outranks it |
| ReleaseSelection.FindVersionOfSeries | pkgs/therock/scripts/update-rocm.py:44-50 | for a dotted series this is a version that the wheel updater's filter accepts, outranked by none it accepts |
| TransportMatrix.PlanProperties | lib/bench/vllm-transport-matrix.sh:344-356 | sampled or not, the plan has the right number of cases, all open, none more often than it is open, grouped by transport and model |
| TransportMatrix.Driver.DrivePlan | lib/bench/vllm-transport-matrix.sh:659-687 | the script's loop over its globals computes the run of the state machine |
| TransportMatrix.RunProperties | lib/bench/vllm-transport-matrix.sh:659-687 | every run: no pair is started twice and each once if the plan is exhausted; clients run only on their own, latest, successfully started server; processed cases are a prefix of the plan |
| TransportMatrix.RowsMatchTrace | lib/bench/vllm-transport-matrix.sh:675-686 | the rows added are the recorded outcomes in order, and the script exits early exactly after a failing command |
| TransportMatrix.ResumedPlanIsOpenProduct | lib/bench/vllm-transport-matrix.sh:326-349 | unsampled, the plan of a resumed run is the product minus the cases with an ok or skipped row |
| TransportMatrix.PlannedExactly | lib/bench/vllm-transport-matrix.sh:326-349 | a case is planned on resuming exactly when it is one of the configuration and no row about it is ok or skipped |
| TransportMatrix.NextPlanExactly | lib/bench/vllm-transport-matrix.sh:326-349 | over a run, a case stands in the next plan exactly when it stood in this one and no event of the run recorded it as ok or skipped |
| TransportMatrix.PlanOrdered | lib/bench/vllm-transport-matrix.sh:354-356 | the plan is sorted by the given order of transports, then of models, then by concurrency |
| TransportMatrix.ResumedRun | lib/bench/vllm-transport-matrix.sh:326-356 | a run only appends; done cases stay done; the next plan is contained in this one, strictly if an ok or skipped row was written |
| TransportMatrix.DoneStaysDone | lib/bench/vllm-transport-matrix.sh:326-349 | over any sequence of interrupted runs the done set grows and a done case is never planned again |
| TransportMatrix.ProductiveRunsBounded | lib/bench/vllm-transport-matrix.sh:326-356 | there are at most as many productive runs as open cases to begin with |
| StreamClient.ConsumeStream | lib/bench/vllm-stream-client.py:174-257 | the loop yields the row determined by the lines before the one at which it stops |
| StreamClient.OkExactly | lib/bench/vllm-stream-client.py:188-254 | a stream is ok exactly when a done marker comes, nothing before it is malformed, an error or a text that cannot be encoded, and the last usage before it, if any, is an object |
| StreamClient.CutStream | lib/bench/vllm-stream-client.py:193-238 | cut before its done marker an ok stream fails; what follows the marker has no effect |
| StreamClient.TimesAddUp | lib/bench/vllm-stream-client.py:241-254 | with a clock that never steps back, time to first token plus decode time is the duration, exactly when the row counts bytes of text |
| StreamLaws.OkRowExactly | lib/bench/vllm-stream-client.py:188-254 | an ok row has the duration, the bytes of all texts in UTF-8, and the token counts of the last usage before the done marker |
| StreamLaws.OkRowTimes | lib/bench/vllm-stream-client.py:206-246 | its two times run from the start to the first line that brings text, and from there to the end |
| StreamLaws.FailureExactly | lib/bench/vllm-stream-client.py:188-238 | why a stream fails: what stands on the first line that stops it, or that none does, with the bytes received |
| StreamLaws.EncodedDecodes | lib/bench/vllm-stream-client.py:234-255 | the bytes counted for a character are an encoding from which its code point is read back |
| StreamClient.Aggregate | lib/bench/vllm-stream-client.py:290-355 | the loops compute the summary of the completed requests |
| StreamClient.EveryRequestCounted | lib/bench/vllm-stream-client.py:294-295 | ok plus failed requests are all requests |
| StreamClient.CompletionOrderIrrelevant | lib/bench/vllm-stream-client.py:290-355 | in any completion order all columns but the order of the errors are the same |
| StreamClient.FailedContributeNothing | lib/bench/vllm-stream-client.py:294-331 | failed requests change only their count, the status and the errors |
| StreamLaws.SingleOkRow | lib/bench/vllm-stream-client.py:290-355 | of a single ok request every column is its own value |
| StreamLaws.SingleBadRow | lib/bench/vllm-stream-client.py:290-355 | a single failed request leaves every column empty but its count and its error |
| StreamLaws.TotalsAdd | lib/bench/vllm-stream-client.py:294-331 | over two groups of requests the counts and both totals add up, and the total rate is that of the completion tokens |
| StreamLaws.StatusExactly | lib/bench/vllm-stream-client.py:338-339 | ok without failures, partial with some of both, failed without an ok request |
| StreamLaws.MeansExactly | lib/bench/vllm-stream-client.py:300-350 | each of the four means is that of its own times or rates over the ok requests that have one |
| StreamLaws.PercentilesOrdered | lib/bench/vllm-stream-client.py:346-347 | the 50th percentile of the first-token times is their median, and the 95th is not below it |
| StreamLaws.PercentilesOfTwentyOne | lib/bench/vllm-stream-client.py:346-347 | of 21 first-token times the 95th percentile is the 20th in ascending order and the 50th the 11th |
| StreamLaws.PromptMedian | lib/bench/vllm-stream-client.py:336 | the prompt tokens per request are the median of those of the ok requests |
| Statistics.PercentileBetween | lib/bench/vllm-stream-client.py:67-78 | a percentile lies between the least and the greatest value |
| Statistics.PercentilePermutation | lib/bench/vllm-stream-client.py:67-78 | it does not depend on the order of the values |
| Statistics.PercentileMonotone | lib/bench/vllm-stream-client.py:73-78 | it never decreases with the percentage, within or across ranks |
| Statistics.PercentilePointwise | lib/bench/vllm-stream-client.py:67-78 | raising values never lowers it |
| Statistics.PercentileFiftyIsMedian | lib/bench/vllm-stream-client.py:67-78 | at 50 it is the median |
| Statistics.PercentileExactly | lib/bench/vllm-stream-client.py:67-78 | at the share of `k + w` among the steps of the sorted values a percentile lies at weight `w` between the values at `k` and `k + 1` |
| Statistics.PercentileHundred | lib/bench/vllm-stream-client.py:67-78 | the 100th percentile is the greatest value |
| Statistics.MeanExactly | lib/bench/vllm-stream-client.py:345-350 | a mean times the number of values is their sum |
| ToolCalls.Chat | lib/bench/glm53-api-check.py:34-64 | the loops build the message of the lines before the done marker, a broken one among them raising |
| ToolCalls.CallsInIndexOrder | lib/bench/glm53-api-check.py:62-63 | one call per occurring index, by strictly increasing index, absent when no fragment came |
| ToolCalls.OwnSubsequencesSuffice | lib/bench/glm53-api-check.py:51-59 | tool calls depend only on each index's own subsequence of fragments |
| ToolCalls.AnswerDetermined | lib/bench/glm53-api-check.py:44-64 | the whole answer depends only on the joined texts, the last finish reason and usage, and each index's own subsequence of fragments, however events and choices divide them |
| ToolCalls.SwappedAnswer | lib/bench/glm53-api-check.py:44-64 | adjacent fragments of different calls may be swapped, across choices and events, without changing the answer |
| ToolCalls.SplitAnswer | lib/bench/glm53-api-check.py:44-64 | a fragment may be split in two, across choices and events, without changing the answer |
| ToolCalls.SwapFragments | lib/bench/glm53-api-check.py:51-59 | adjacent fragments of different calls may be swapped |
| ToolCalls.SplitFragment | lib/bench/glm53-api-check.py:51-59 | a fragment may be split in two |
| ToolCalls.AnswerStops | lib/bench/glm53-api-check.py:39-41 | lines after the done marker have no effect, and the marker itself may be missing |
| ToolCalls.EmptyAnswer | lib/bench/glm53-api-check.py:34-64 | without a line the message has no text, no call, no finish reason and no usage |
| ToolCalls.EventExtends | lib/bench/glm53-api-check.py:42-64 | an event with one choice extends content and reasoning by that choice's own and the calls by its fragments; its finish reason and usage win where it has them |
| ToolCalls.EventDivides | lib/bench/glm53-api-check.py:42-50 | several choices count the same in one event as in two |
| ToolCalls.LinesWithoutChoice | lib/bench/glm53-api-check.py:36-43 | an event without a choice brings its usage at most, any other line nothing, and a broken one raises |
| ToolCalls.FragmentExtends | lib/bench/glm53-api-check.py:51-59 | a fragment extends the three fields of its own call, each by its own, and no other call |
| Hadamard.BuildHadamard | lib/bench/glm53-kpool-state-check.py:14-18 | the loop stops at the smallest power of two reaching the threshold, with a symmetric matrix of signs whose square is n times the identity |
| Hadamard.SylvesterIsHadamard | lib/bench/glm53-kpool-state-check.py:14-18 | this holds at every step of the doubling |
| Hadamard.Butterfly | lib/bench/glm53-kpool-state-check.py:16-18 | rotating by the doubled matrix rotates the sum and the difference of the halves |
| Hadamard.InnerProductsKept | lib/bench/glm53-kpool-state-check.py:22 | the product with the matrix keeps inner products up to the factor n |
| Hadamard.RotatedTwice | lib/bench/glm53-kpool-state-check.py:22 | applying it twice multiplies by n |
| Hadamard.RotationIsInvolution | lib/bench/glm53-kpool-state-check.py:22 | divided by the root of n, the rotation keeps inner products and undoes itself |
| Hadamard.SylvesterEntry | lib/bench/glm53-kpool-state-check.py:14-18 | the entry of row `i` and column `j` is negative exactly when `i` and `j` have an odd number of binary ones in common |
| Hadamard.RotateExactly | lib/bench/glm53-kpool-state-check.py:22 | the root times entry `j` of the rotation is the product of the vector with the signs of column `j` |
| PooledSelection.SelectedAreTop | lib/bench/glm53-kpool-state-check.py:39-43 | min(k, length) groups in the window, strictly increasing, each beating every unselected one by score, then index |
| PooledSelection.TopSelectionUnique | lib/bench/glm53-kpool-state-check.py:39-43 | no other list of groups is such a selection |
| PooledSelection.OutsideScoresIrrelevant | lib/bench/glm53-kpool-state-check.py:30-43 | scores outside the row's window have no effect |
| PooledSelection.TokensAre | lib/bench/glm53-kpool-state-check.py:44-45 | tokens strictly increase inside the sequence and number min(k, length) pools plus the tail |
| PooledSelection.TokensExactly | lib/bench/glm53-kpool-state-check.py:39-45 | for whatever groups are the top selection, a token is listed exactly when its group is among them or it belongs to the tail |
| PooledSelection.TokensFit | lib/bench/glm53-kpool-state-check.py:37-51 | with a tail shorter than a pool they fit k pools and a pool less one |
| PooledSelection.FewGroupsSelectAll | lib/bench/glm53-kpool-state-check.py:39-45 | with at most k groups the whole sequence is selected |
| PooledSelection.MappedTokensDistinct | lib/bench/glm53-kpool-state-check.py:46-50 | mapped tokens are distinct when the page-table row is |
| PooledSelection.FillExpected | lib/bench/glm53-kpool-state-check.py:37-51 | the row loop leaves every row with its tokens in front and -1 behind |
| PooledSelection.PaddedRowExactly | lib/bench/glm53-kpool-state-check.py:37-51 | the cells of a row are, in ascending order of these tokens, the token, the token plus the row's offset or its page entry, and -1 behind them |
| MatrixBalance.Reference | lib/bench/glm53-mhc-check.py:32-37 | the counted loop applies the passes to the softmax of the rows |
| MatrixBalance.SoftmaxExactly | lib/bench/glm53-mhc-check.py:32-33 | the entries of a start row less the epsilon add up to 1 and stand in the ratios of the exponentials |
| MatrixBalance.FirstPass | lib/bench/glm53-mhc-check.py:34-37 | the first pass divides every column, and no row, by its sum plus the epsilon |
| MatrixBalance.LaterPass | lib/bench/glm53-mhc-check.py:34-37 | every later pass divides first every row by its sum plus the epsilon and then every column of the outcome by its own |
| MatrixBalance.PassesScale | lib/bench/glm53-mhc-check.py:34-37 | after any number of passes the matrix is positive and the start scaled by positive row and column factors |
| MatrixBalance.CrossRatiosConserved | lib/bench/glm53-mhc-check.py:34-37 | all two-by-two cross ratios are conserved |
| MatrixBalance.ColumnSumsBounded | lib/bench/glm53-mhc-check.py:37 | column sums after a pass lie strictly between 0 and 1, and are 1 without the epsilon |
| MatrixBalance.RowSumsStayInRange | lib/bench/glm53-mhc-check.py:34-37 | without the epsilon, row sums never leave a range they once had after a pass |
| PromptSearch.Gallop | lib/bench/glm53-context-cache.py:57-59 | doubling ends at a rejected size, with the size before it accepted, after one call per doubling |
| PromptSearch.Bisect | lib/bench/glm53-context-cache.py:60-66 | bisection ends at a boundary within as many probes as the width has binary digits |
| PromptSearch.LargestPrompt | lib/bench/glm53-context-cache.py:56-67 | if some doubled size is rejected, the search terminates at a size whose successor does not fit, and which fits unless it is the untried ten records; tokenizer calls are logarithmic in it |
| PromptSearch.FittingBoundaryIsLargest | lib/bench/glm53-context-cache.py:56-67 | with monotone counts such a boundary is exactly the largest fitting size |

## Left out

- Running git, Nix, SSH, Ray, HTTP and subprocesses, retries, timestamps, hashing and prefetching: replaced by parameters.
- `enabled_root_paths`: its subprocess output is the given list of root paths; `fetch_sources.py` is not part of this model.
- Patches applied after the assembly, file permissions, symbolic links and empty directories in the assembled tree.
- `input_url`: an arbitrary function of url and revision; what Nix fetches for its result is one of that result.
- Parsing of Nix beyond the generated lines and the string literals in them; flake inputs outside the generated block.
- `parse_distribution`, the derivation of device-wheel constraints and the other arguments of `main`: distributions and constraints are given.
- The regular expression that lists tarball versions in the index: the versions are given.
- Which of several equally ranked versions is chosen: Python's set order decides, and any is allowed.
- Parsing the result file and the plan file, and the contents of rows beyond case and status.
- `start_server` and `run_case`: their outcome is arbitrary; transports, environment variables and logs are not modelled.
- Parsing of stream and chat lines: they are given as already parsed values; `first_event_seconds` and the non-streaming branch of `chat`.
- What follows the streamed answer in `chat`: it raises on the finish reason `length`, and returns only the message.
- Token counts that are no integers: `int` raises on them in `aggregate`, and then no row is written.
- Formatting of the aggregated columns, and the columns copied from the arguments.
- Floating-point rounding, BF16 and FP8, and all comparisons with GPU kernels.
- `make_messages` and the cache checks after the prompt search.
- The exporters, packaging expressions, overlays, NixOS modules and the multikernel lifecycle.
