# Verified models of the build, release and rebase tools

MoltBrowser is an overlay on Chromium. Around it stand tools that decide whether the build graph is
legal, bundle libraries next to helper programs, carry merged files from one upstream release to the
next, and write and check what is shipped: software bills of materials, an apt repository, signed
provenance. This project models their algorithms in Dafny and proves what they promise.

| part | modules |
|---|---|
| GN build graph: components, shortest cycles, lazy loading, the include rule | Digraph, GnTargets, GnTarjan, GnCycles, GnCyclePath, GnGraphInvariants, GnGraph, GnIncludes |
| Conditional inclusion: three-valued conditions, directive stack, C's meaning | Conditions, ConditionSemantics, Preprocessor, PreprocessorSoundness |
| Mach-O bundler: worklist, edits, independent check | MachO, MachOBundle, MachOCheck |
| Whole-file rebase protocol: one step, whole runs | WholeFiles, WholeFileRuns |
| SPDX licence expressions: tokens, checker against grammar, generator against checker | SpdxTokens, SpdxExpression, SpdxNaming, SpdxLicenses, SpdxAcceptance, SpdxMeaning |
| SPDX documents: identifiers, validator, builder against validator | SpdxIds, SpdxDocument, SpdxLayout, SpdxContents, SpdxBuilder |
| apt repository: deb822, indexes, Release, verifier, builder, hash chain | Deb822, DebStanza, AptIndex, AptRelease, AptVerify, AptBuild, AptTree, AptRepository, AptListing |
| Key armor and its checksum | Base64, Crc24, Armor |
| Signed bundles, log clipping, font tables | Dsse, Clip, Sfnt |
| Shared | Options, Octets, Finite, Sorting, Text, Strings |

`dafny verify dfyconfig.toml` checks everything.

## Conventions

A loop of a tool is a method; an object whose methods update its fields (the graph, one run of the
component search, the parser's cursor, one bundling run, the workspace, the licence table, a package)
is a class. Each is tied by its `ensures` to a function or predicate, and the results about that
function are lemmas. Exceptions are `None`, a `Result`-like value or a `false` flag. Texts are Dafny
strings; white space and line ends are Python's. Files are maps from paths to contents; hashes,
compression, UTF-8, JSON, git merges, BUILD.gn evaluation and a package's control file are functions
passed in, with the laws used stated in `ValidEnv`, `ValidSetting`, `ValidRules`, `ValidJson` and
`ValidSource`.

## What the proofs found

- Under `#else` or `#elif` of an `#ifndef`, the conditions recorded for a line contradict C
  (`IfndefElseRecordedWrong`; exactly when: `RecordedTrulyIff`). No line C keeps is ruled out by it,
  because the value of `defined` is never known.
- The bundler removes an rpath nine times at most: the check that follows passes exactly when no
  rpath is listed ten times (`CheckBundled`, `TenthRpathStays`).
- A whole file whose subproject disappears at one pin and returns at another is recorded as merged
  without having been merged (`RecordLost`). The chain of merges holds over a run exactly when every
  rewrite of whole_files.txt finds the file in the subproject it is recorded in (`UnbrokenIffSafe`).
- The licence checker accepts more around WITH than Annex D of SPDX 2.3
  (`AcceptsGroupedException`); the two agree on a token list exactly when every WITH in it joins one
  name to one exception (`StandardIff`). A comma list is refused exactly when it has no part, or
  several with one that says there is no licence (`AcceptedIff`).
- The apt build accepts names its own verifier cannot find again: a suite with a slash, a component
  with white space (`AcceptedIffFindable`, exact). A component below `Release` cannot be built
  (`ReleaseIsDirectoryIff`).
- The size check of a bundle's payload admits two bytes more than the limit it names
  (`BoundedEncode`).

## Model

| member | source | states |
|---|---|---|
| GnCycles.Components | tools/chromium/gn_static_check.py:998-1052 | for any evaluated targets, the report holds exactly the strongly connected components of the loaded graph (deps, public_deps and data_deps between loaded targets) that have two members or a self edge, each once, each as its labels in order; the explicit-stack search ends |
| GnCycles.EmptyIffAcyclic | tools/chromium/gn_static_check.py:998-1002 | such a report is empty if and only if the graph has no cycle, so gn gen would refuse none |
| GnCycles.TogetherIffOnCycle | tools/chromium/gn_static_check.py:998-1002 | two targets are listed together if and only if one cycle passes through both |
| GnCycles.Run.Push | tools/chromium/gn_static_check.py:1019-1022 | opening a target gives it the next index as its index and low, puts it on the stack and in the on-stack set, and opens a frame at its first edge; nothing else changes |
| GnCycles.Run.ReadEdge | tools/chromium/gn_static_check.py:1026-1036 | reading one edge keeps the search invariant: it opens an unseen target, which grows the indexed set, or lowers low and advances the frame by one edge |
| GnCycles.Run.PassUp | tools/chromium/gn_static_check.py:1039-1042 | the opener of a finished target inherits its low, and the invariant holds afterwards |
| GnCycles.Run.Collect | tools/chromium/gn_static_check.py:1043-1051 | when low equals index, taking the stack down to the target keeps the invariant: what came off is settled as one component and reported if cyclic |
| GnCycles.Run.Retreat | tools/chromium/gn_static_check.py:1039-1051 | closing the last frame keeps the invariant and changes no index |
| GnCycles.Run.Explore | tools/chromium/gn_static_check.py:1011-1051 | the search from one unindexed root ends with no frame open, the root indexed and the invariant intact |
| GnCycles.PopComponent | tools/chromium/gn_static_check.py:1044-1049 | the inner loop removes exactly the part of the stack from v upward, from the stack and from the on-stack set, and collects each of its members once |
| GnCycles.Report | tools/chromium/gn_static_check.py:1050-1051 | adding a found component keeps the report complete and exact for the settled targets |
| GnTarjan.EnterKeeps | tools/chromium/gn_static_check.py:1026-1033 | the invariant of the search (stack order, reachability between stack members and open targets, bounds on low, settled sets closed under edges) survives opening a target |
| GnTarjan.LowerKeeps | tools/chromium/gn_static_check.py:1034-1035 | and taking the index of an on-stack target into low |
| GnTarjan.CloseKeeps | tools/chromium/gn_static_check.py:1039-1042 | and closing a target that reaches below itself |
| GnTarjan.SettleKeeps | tools/chromium/gn_static_check.py:1043-1051 | and settling all that is above a target whose low is its index |
| GnTarjan.SettleComponent | tools/chromium/gn_static_check.py:1043-1049 | what is settled together is a strongly connected component: mutually reachable and maximal |
| Digraph.CycleInComponent | tools/chromium/gn_static_check.py:998-1002 | a cycle lies inside one component, and that component is one gn refuses |
| GnCyclePath.CyclePath | tools/chromium/gn_static_check.py:1525-1548 | for every listed component, the path found is a cycle of real edges inside the component through comp[0], repeats nothing else and is no longer than any cycle through comp[0]; the fall-back return is never taken |
| GnCyclePath.QueueNotEmpty | tools/chromium/gn_static_check.py:1531-1548 | the breadth-first search cannot run dry before the cycle closes |
| GnCyclePath.ClimbToStart | tools/chromium/gn_static_check.py:1539-1541 | the walk over parents ends at the start after exactly the depth of the target, over real edges |
| GnCyclePath.Scan | tools/chromium/gn_static_check.py:1533-1546 | one target of a level is scanned: either the cycle closes with a shortest path, or its dependencies have been followed and the level invariant holds |
| GnCyclePath.ClosedPathIsShortest | tools/chromium/gn_static_check.py:1538-1543 | the reversed way back, closed, is a shortest cycle through the start |
| GnGraph.Graph.LoadDir | tools/chromium/gn_static_check.py:938-969 | evaluating a directory once gives its targets and memoises them; the memo always agrees with the tree |
| GnGraph.Graph.TargetOf | tools/chromium/gn_static_check.py:1054-1057 | looking a label up gives the target its BUILD.gn defines, whatever was loaded before |
| GnGraph.Graph.LoadBuild | tools/chromium/gn_static_check.py:971-996 | the loaded directories are the least set holding // and closed under the references of loadable files; a second call changes nothing |
| GnGraph.Graph.FillOwners | tools/chromium/gn_static_check.py:992-995 | the owner map is exactly the inverse of the files of the loaded targets |
| GnGraph.Graph.OwnersOf | tools/chromium/gn_static_check.py:1062-1065 | the owners of a file are exactly the loaded targets that list it, each once |
| GnGraph.Graph.PermittedSearch | tools/chromium/gn_static_check.py:1075-1087 | the search collects exactly the targets reachable by one dep and then public_deps |
| GnGraph.Graph.Permitted | tools/chromium/gn_static_check.py:1067-1089 | the memoised answer is that set too |
| GnGraph.Graph.Cycles | tools/chromium/gn_static_check.py:998-1052 | the cycles of a lazily loaded graph are those of the targets gn gen loads |
| GnTargets.LoadedUnique | tools/chromium/gn_static_check.py:971-996 | there is only one such least set, so lazy loading cannot change what is loaded |
| GnTargets.OwnsIff | tools/chromium/gn_static_check.py:616-626 | the owners of a file are the loaded targets that name it as a source, in their public list or as an output; it is public in one that has no public list, lists it there, or generates it |
| GnTargets.BelowMatches | tools/chromium/gn_static_check.py:573-583 | a friend pattern with a directory and a star means every target of it and of what lies below it, and every target for the root |
| GnTargets.NameMatches | tools/chromium/gn_static_check.py:583-586 | a pattern with a name means that target of that directory alone, or with a star every target of that directory |
| GnTargets.ChainStaysIn | tools/chromium/gn_static_check.py:1067-1089 | any set that holds the deps and is closed under public_deps holds every permitted target |
| GnIncludes.Resolve | tools/chromium/gn_static_check.py:1243-1250 | the include stands for the first candidate that a loaded target owns |
| GnIncludes.ResolvedFirst | tools/chromium/gn_static_check.py:1243-1250 | that is the first candidate below the source root which a loaded target lists |
| GnIncludes.ScanOwners | tools/chromium/gn_static_check.py:1262-1271 | the owners clear the include if and only if one is permitted and exposes the file, or is not permitted and allows it circularly; otherwise the permitted owners are returned |
| GnIncludes.CheckOne | tools/chromium/gn_static_check.py:1253-1286 | an include is reported if and only if it resolves and no loaded target that lists the file is the includer itself, or may be included from and shows it (no public list, in it, generated, or the includer is a friend), or may not and allows it circularly; the reason names exactly the targets it speaks of |
| GnIncludes.FineIff | tools/chromium/gn_static_check.py:1262-1271 | the same of the rule alone, in the fields of the targets |
| GnIncludes.ReasonIsRight | tools/chromium/gn_static_check.py:1272-1286 | a file is called private to exactly the permitted targets that list it, and without a path exactly when there are none |
| GnIncludes.VerdictStable | tools/chromium/gn_static_check.py:1253-1286 | the verdict is a function of the tree: earlier loads, the memo and the order of owners play no part |
| GnIncludes.AddedDepClears | tools/chromium/gn_static_check.py:1281-1286 | following the advice of the message (depending on an owner that exposes the file) clears the error |
| Conditions.Cursor.Atom | tools/chromium/gn_static_check.py:2425-2445 | the recursive descent over the cursor reads exactly what the grammar function parses, and moves the cursor past it |
| Conditions.Cursor.Disj | tools/chromium/gn_static_check.py:2456-2463 | the same for a whole disjunction |
| Conditions.EvalCondition | tools/chromium/gn_static_check.py:2405-2469 | the value of a token list is that of the grammar function, unknown when it does not parse or tokens are left |
| ConditionSemantics.OperandIff | tools/chromium/gn_static_check.py:2370-2372 | the evaluator knows an operand if and only if it is one of the ten flags, 0 or 1, and then it knows its value in every world of the platform |
| ConditionSemantics.PlainDisjParsed | tools/chromium/gn_static_check.py:2456-2463 | the tokens of an expression tree are parsed back with that tree's strong Kleene value, whatever follows |
| ConditionSemantics.AppliedDisjStops | tools/chromium/gn_static_check.py:2465-2469 | an operand applied to arguments stops the parser short of the end |
| ConditionSemantics.EvalIsKleene | tools/chromium/gn_static_check.py:2405-2469 | eval_condition gives exactly the strong Kleene value of an expression, or unknown when an operand is applied |
| ConditionSemantics.EvalSound | tools/chromium/gn_static_check.py:2405-2408 | a known value is the value C gives (section 6.10.1 of ISO/IEC 9899:2018) in every world in which the ten flags have the values of the platform, 0 is false and 1 is true, whatever the other operands are |
| ConditionSemantics.EvalExact | tools/chromium/gn_static_check.py:2405-2408 | when only the ten flags, 0 and 1 occur, it is always known |
| Preprocessor.PreprocessorConditions | tools/chromium/gn_static_check.py:2379-2402 | each line is given the conditions of the directive stack before it |
| Preprocessor.LineCompiled | tools/chromium/gn_static_check.py:2472-2478 | a line is ruled out if and only if one recorded condition has a known value other than the wanted one |
| PreprocessorSoundness.AgreesAlways | tools/chromium/gn_static_check.py:2379-2402 | over every well-nested text the checker's stack and C's nesting of groups correspond, frame by section |
| PreprocessorSoundness.KeptIsCompiled | tools/chromium/gn_static_check.py:2379-2478 | every line C keeps passes line_compiled, for every value of what the checker does not know |
| PreprocessorSoundness.CompiledIffKept | tools/chromium/gn_static_check.py:2379-2478 | when all its conditions are known, a line passes exactly when C keeps it |
| PreprocessorSoundness.RecordedTrulyIff | tools/chromium/gn_static_check.py:2390-2398 | the conditions recorded for a kept line are true in C if and only if it stands in no later group of an #ifndef |
| PreprocessorSoundness.IfndefElseRecordedWrong | tools/chromium/gn_static_check.py:2390-2398 | the concrete failure: under #else of #ifndef X the recorded condition contradicts C |
| MachO.Once | scripts/macho_bundle_deps.py:121-128 | load commands are listed once each, in order of first appearance |
| MachO.DeleteRpath | scripts/macho_bundle_deps.py:252-253 | one -delete_rpath removes one entry |
| MachO.Resolve | scripts/macho_bundle_deps.py:176-190 | what is found outside the OS is an existing file |
| MachO.ResolveName | scripts/macho_bundle_deps.py:176-190 | the search loop finds the first candidate that exists |
| MachO.RpathSearch | scripts/macho_bundle_deps.py:212-220 | an @rpath load leads to the first existing file below the run paths of the image itself, each in its turn, and below the inherited ones if and only if there is none below its own |
| MachO.StripEmptyIff | scripts/macho_bundle_deps.py:257-267 | n runs remove all rpaths if and only if none is listed more than n times |
| MachOBundle.Run.AddLibrary | scripts/macho_bundle_deps.py:243-249 | a new library gets its name, its real path and one place in the worklist; the two name maps stay inverse to each other |
| MachOBundle.Run.NameFor | scripts/macho_bundle_deps.py:225-251 | one load gets the name bundling gives it, or the run stops with a real reason |
| MachOBundle.Run.Changes | scripts/macho_bundle_deps.py:225-251 | all loads of one image get their names, once each |
| MachOBundle.Run.Process | scripts/macho_bundle_deps.py:208-255 | one worklist item is edited and the invariant over all images holds again |
| MachOBundle.Run.RunWorklist | scripts/macho_bundle_deps.py:208-255 | the worklist ends, empty or with a real failure |
| MachOBundle.ContextFinds | scripts/macho_bundle_deps.py:212-220 | the context a file is searched in finds exactly what dyld finds from its own run paths and those of its loaders |
| MachOBundle.Bundle | scripts/macho_bundle_deps.py:193-273 | on success every discovered library is copied once under a name that maps back to it, and every image's edit gives each load its new name; on failure the reported load is unresolvable or the two libraries do clash |
| MachOCheck.EditImage | scripts/macho_bundle_deps.py:257-267 | editing substitutes all loads at once and deletes each rpath up to nine times |
| MachOCheck.NewTarget | scripts/macho_bundle_deps.py:250-251 | the new name of a copied library stands, from the file that loads it, for the copy in lib_dir |
| MachOCheck.LoadsPreserved | scripts/macho_bundle_deps.py:225-251 | every load keeps its meaning: dyld, searching the run paths of the image first and then those of the images that loaded it, finds one file; an OS file is what the load then names, and for a library the load names, from the binary or from a copy, the one copy of it in lib_dir |
| MachOCheck.CheckFile | scripts/macho_bundle_deps.py:315-329 | check finds nothing in a file if and only if it has no rpath and loads only the OS or files inside the helper directory; each problem is a real one |
| MachOCheck.Check | scripts/macho_bundle_deps.py:303-330 | the same over the binary and lib_dir |
| MachOCheck.CleanIffFewRpaths | scripts/macho_bundle_deps.py:257-267 | after bundle, a file is clean if and only if none of its rpaths was listed more than nine times |
| MachOCheck.CheckBundled | scripts/macho_bundle_deps.py:303-330 | so check of a bundled tree is empty if and only if that holds of every file |
| MachOCheck.TenthRpathStays | scripts/macho_bundle_deps.py:260-267 | the concrete failure: ten equal rpaths outlast the nine runs |
| WholeFiles.MergeGuarantees | tools/chromium/rebase.py:157-215 | a file counts as merged if and only if its subproject moved and both upstream sides are known and comparable; its content changes only by merging two upstream texts that differ, and stays only when upstream did not change or a side is binary |
| WholeFiles.UnchangedFollows | tools/chromium/rebase.py:189-215 | a file nobody changed here becomes the new upstream text and needs no person |
| WholeFiles.BlockingIff | tools/chromium/rebase.py:53-58 | a file needs a person if and only if its subproject is gone, or it moved and the sides cannot be compared, or the three texts differ and merging them leaves conflicts |
| WholeFiles.BlockedIff | tools/chromium/rebase.py:575-586 | an apply is held up if and only if some patched file or some whole file needs a person |
| WholeFiles.MergedText | tools/chromium/rebase.py:200-214 | a text is written if and only if the subproject moved and both upstream texts differ and none is binary; it is the merge of the three, a conflict exactly when the merge has any |
| WholeFiles.Workspace.RegenerateWholeFiles | tools/chromium/overlay_to_patches.py:104-111 | generate re-records every whole file by kept_entry and changes no file content |
| WholeFiles.Workspace.PlanOne | tools/chromium/rebase.py:126-148 | the item and new entry of one whole file |
| WholeFiles.Workspace.Plan | tools/chromium/rebase.py:126-148 | the plan covers exactly the subproject files, merges only what its items merged, and counts a blocker if and only if one exists |
| WholeFiles.Workspace.Apply | tools/chromium/rebase.py:575-609 | apply is blocked if and only if something needs a person and conflicts are not allowed, and then changes nothing; otherwise it writes exactly the merges, the new entries and the new pin |
| WholeFiles.NoConflictUnasked | tools/chromium/rebase.py:578-586 | an apply that was not told to allow conflicts and goes through leaves every file as it is or gives it a merge without conflicts |
| WholeFileRuns.GenerateKeepsIff | tools/chromium/subprojects.py:116-124 | regenerating keeps a recorded commit if and only if the file is still there and its subproject is the recorded one at the pin |
| WholeFileRuns.LinkAfterStep | tools/chromium/rebase.py:597-605 | what one step of any kind does to a recorded commit: a merge replaces it by the new tag's gitlink; without a merge it stays if and only if whole_files.txt is not rewritten or the pin has the file in the recorded subproject |
| WholeFileRuns.BehindAfterApply | tools/chromium/verify_patches.py:111-130 | after an apply, behind is exactly the deleted, colliding and unavailable files |
| WholeFileRuns.RerunLeavesOthers | tools/chromium/rebase.py:157-170 | rebasing onto the pin again leaves every file that is not behind as it is |
| WholeFileRuns.ReleasesStay | tools/chromium/rebase.py:597-605 | over every run in which each version has one revision, the release a record names is one whose DEPS pins the recorded commit |
| WholeFileRuns.GenerateNamesRelease | tools/chromium/subprojects.py:116-124 | a record that generate leaves at the commit of the pin names its release, and one it leaves at its commit keeps the name |
| WholeFileRuns.UnbrokenIffSafe | tools/chromium/rebase.py:126-148 | over every run of generate, edit, removal and rebase steps, each merge starts from the commit the previous one brought in and the record is the last commit merged, at every point of the run, if and only if every rewrite of whole_files.txt finds the file in the subproject it is recorded in |
| WholeFileRuns.StepIff | tools/chromium/rebase.py:126-148 | the same for one step |
| WholeFileRuns.MergesChain | tools/chromium/rebase.py:126-148 | so the merges of such a run chain from the first record to the last, across skipped and blocked pins |
| WholeFileRuns.RecordLost | tools/chromium/subprojects.py:116-124 | the concrete failure of the chain when a subproject goes away and comes back: the file is recorded as merged without a merge |
| SpdxTokens.TokensApart | tools/sbom/molt_sbom.py:550 | the tokens of a text are those of its parts wherever no two words meet |
| SpdxTokens.TokensOfTightened | tools/sbom/molt_sbom.py:538 | printing tokens with the two replacements and reading them again gives them back |
| SpdxExpression.CheckExpression | tools/sbom/molt_sbom.py:546-583 | no problem if and only if the text is NONE or NOASSERTION or its tokens are derivable; the problem list is the one of the walk |
| SpdxExpression.CheckTokens | tools/sbom/molt_sbom.py:553-583 | the loop over depth and the two flags collects exactly the problems of the walk, in order |
| SpdxExpression.CleanIffDerivable | tools/sbom/molt_sbom.py:553-583 | the automaton finds no problem if and only if the grammar derives the token list, WITH included |
| SpdxExpression.CleanIffPlain | tools/sbom/molt_sbom.py:553-583 | without WITH that grammar is E ::= T ((AND \| OR) T)*, T ::= licence \| ( E ), every licence known or declared |
| SpdxExpression.OneReading | tools/sbom/molt_sbom.py:546-583 | the grammar is unambiguous |
| SpdxExpression.StandardIff | tools/sbom/molt_sbom.py:546-583 | the checker and Annex D of SPDX 2.3 agree on a token list if and only if every WITH in it joins a single name, which follows no other WITH, to something that is no group |
| SpdxExpression.AcceptsGroupedException | tools/sbom/molt_sbom.py:571-573 | the concrete difference: a parenthesised exception is accepted, has one reading and that is not a standard one |
| SpdxExpression.MoreRefsKeep | tools/sbom/molt_sbom.py:574-577 | declaring more references keeps an accepted expression accepted |
| SpdxNaming.RefIsDeclared | tools/sbom/molt_sbom.py:466-477 | an invented reference is well formed and declared, and no earlier one changes |
| SpdxNaming.RefIsOwnIff | tools/sbom/molt_sbom.py:466-477 | it stands for the name asked for if and only if not both of that name's forms were taken by other names |
| SpdxNaming.RefIsStable | tools/sbom/molt_sbom.py:466-477 | and asking again gives it again |
| SpdxNaming.IdIsLicense | tools/sbom/molt_sbom.py:479-490 | whatever a token is named as is one licence token usable from then on |
| SpdxLicenses.Licenses.TranslateAll | tools/sbom/molt_sbom.py:520-537 | the loop over the tokens gives the translation and the table of the specification function, for which the rows above and below hold |
| SpdxLicenses.Licenses.AsExpr | tools/sbom/molt_sbom.py:515-539 | the same for a text with operators |
| SpdxLicenses.Licenses.Expression | tools/sbom/molt_sbom.py:492-513 | the same for a whole name, recursion over comma lists included; it ends |
| SpdxLicenses.PartsShorten | tools/sbom/molt_sbom.py:506-512 | the parts of a list hold no comma and are shorter, so the recursion ends |
| SpdxAcceptance.AsExpressionIff | tools/sbom/molt_sbom.py:515-539 | a text is read as an expression if and only if it has an operator, every token has a spelling and the checker accepts them; its tokens are those spellings |
| SpdxAcceptance.CompoundAnyRefs | tools/sbom/molt_sbom.py:515-539 | whether it is read so does not depend on the references declared before |
| SpdxAcceptance.AcceptedIff | tools/sbom/molt_sbom.py:492-513 | the expression for any text is accepted under the references collected by then and ever after, if and only if the text is not a list without parts or a list of several parts one of which says NONE, UNKNOWN or NOASSERTION |
| SpdxAcceptance.ConvertGrows | tools/sbom/molt_sbom.py:463-539 | references only grow and stay well formed |
| SpdxAcceptance.ListIsConjunction | tools/sbom/molt_sbom.py:506-512 | operands joined by AND read as a conjunction with one term for each |
| SpdxAcceptance.EveryPartApplies | tools/sbom/molt_sbom.py:505-512 | every part of a list becomes one term of that conjunction, converted on its own |
| SpdxAcceptance.CommaSpoils | tools/sbom/molt_sbom.py:505-512 | the concrete failure: a lone comma gives the empty expression |
| SpdxAcceptance.NothingSpoils | tools/sbom/molt_sbom.py:505-512 | NONE or NOASSERTION among several parts is refused |
| SpdxMeaning.SlashIsOr | tools/sbom/molt_sbom.py:516 | a slash means OR, wherever it stands |
| SpdxMeaning.EitherLicence | tools/sbom/molt_sbom.py:492-539 | two listed licences with a slash between them become either one, and nothing is declared |
| SpdxMeaning.NothingSaid | tools/sbom/molt_sbom.py:493-498 | text that says nothing, in any case and with white space around it, becomes NOASSERTION or NONE |
| SpdxMeaning.ListedStays | tools/sbom/molt_sbom.py:479-486 | a listed licence stays as it is, with or without a plus sign; else a known spelling becomes its licence |
| SpdxMeaning.OthersAreReferences | tools/sbom/molt_sbom.py:487-513 | any other single name becomes a reference declared for it |
| SpdxMeaning.SquashRun | tools/sbom/molt_sbom.py:467 | what stands between two runs of identifier characters becomes one dash |
| SpdxMeaning.BaseIs | tools/sbom/molt_sbom.py:467 | a reference is made from what is left between dashes and dots, at most sixty characters, Unknown when that is nothing |
| SpdxMeaning.RefIs | tools/sbom/molt_sbom.py:468-477 | a free reference is the plain one; one that stands for another name is told from it by the digest of the name |
| SpdxIds.SpdxId | tools/sbom/molt_sbom.py:1458-1466 | the identifier is the first candidate not in use, the search ends, and it is in use afterwards |
| SpdxIds.FirstFreeIsUnique | tools/sbom/molt_sbom.py:1458-1466 | there is only one such identifier |
| SpdxIds.FirstFreeIs | tools/sbom/molt_sbom.py:1460-1464 | that is the plain name when it is free, and otherwise the first free one of those numbered from 2 |
| SpdxIds.OneMoreTried | tools/sbom/molt_sbom.py:1462-1464 | numbered candidates differ, so each taken one uses up an identifier: the search ends |
| SpdxIds.FirstFreeIsSpdxId | tools/sbom/molt_sbom.py:1458-1466 | it is well formed for the validator and not the document's own |
| SpdxIds.IdBaseIs | tools/sbom/molt_sbom.py:1459 | the name in it is what is left between dashes, x when that is nothing |
| SpdxIds.SpdxIdIff | tools/sbom/molt_sbom.py:1811 | an identifier is the prefix and characters of references, with at most one line feed after them |
| Strings.DecimalReadsBack | tools/sbom/molt_sbom.py:1463 | a number is written in digits without a leading zero and can be read back |
| SpdxDocument.Validate | tools/sbom/molt_sbom.py:1869-2007 | the validator finds nothing if and only if the document is valid: fresh well-formed identifiers, licences, files, relationships and verification codes |
| SpdxDocument.CheckExtracted | tools/sbom/molt_sbom.py:1895-1904 | extracted licences are well formed and declared once |
| SpdxDocument.CheckPackages | tools/sbom/molt_sbom.py:1906-1949 | the package loop |
| SpdxDocument.CheckFiles | tools/sbom/molt_sbom.py:1951-1967 | the file loop, with the hash map it leaves |
| SpdxDocument.CheckRelations | tools/sbom/molt_sbom.py:1969-1987 | the relationship loop, with what each package contains |
| SpdxDocument.CheckContents | tools/sbom/molt_sbom.py:1988-2007 | the verification codes (section 7.9 of SPDX 2.3) |
| SpdxDocument.CodeIgnoresOrder | tools/sbom/molt_sbom.py:2001-2003 | the order of the files does not matter to the verification code |
| SpdxDocument.CodeOfAscending | tools/sbom/molt_sbom.py:1503-1506 | it is the hash of the file hashes one after the other in ascending order |
| SpdxContents.ChecksumIff | tools/sbom/molt_sbom.py:1842-1847 | a checksum is sound if and only if its algorithm is known and its value is that many small hexadecimal digits |
| SpdxContents.LastSha1 | tools/sbom/molt_sbom.py:1839-1851 | the validator goes by the last sound SHA1 of a file |
| SpdxContents.ContainedIff | tools/sbom/molt_sbom.py:1984-1985 | the files of a package are the known files it is said to contain |
| SpdxContents.RelationOkIff | tools/sbom/molt_sbom.py:1977-1981 | a relation is sound if and only if its type is known and each end is the document, one of its packages or files, NONE or NOASSERTION |
| SpdxContents.DescribesSomething | tools/sbom/molt_sbom.py:1982-1987 | an accepted document says what it describes |
| SpdxContents.CodeBindsFiles | tools/sbom/molt_sbom.py:1988-2006 | in an accepted document the code of an analysed package is the hash of the SHA1 digests, in ascending order, of exactly the files it contains |
| SpdxLayout.EachContains | tools/sbom/molt_sbom.py:1529-1541 | among packages with different identifiers, the relations give each exactly its own files |
| SpdxLayout.CodeIsTheirs | tools/sbom/molt_sbom.py:1503-1506 | the recorded verification code is the one the validator recomputes |
| SpdxContents.RelationIff | tools/sbom/molt_sbom.py:1520-1545 | a laid-out document says that it describes the root, that the root relates to the packages it holds, which package contains which file, and the added relations, and nothing else |
| SpdxContents.FileIff | tools/sbom/molt_sbom.py:1529-1537 | its files are those of its packages, under the path they are shown with and with all their digests |
| SpdxContents.PackageIs | tools/sbom/molt_sbom.py:1469-1506 | a package is analysed if and only if it has files, and its code is then the hash of their SHA1 digests in ascending order |
| SpdxLayout.ValidIff | tools/sbom/molt_sbom.py:1511-1569 | a laid-out document is valid if and only if no two packages share an identifier, the extra relation types are known and every package's leaves are sound |
| SpdxBuilder.AssignIds | tools/sbom/molt_sbom.py:1515-1518 | different packages get different, well-formed identifiers; when none is listed twice, each has the first one made from its name (the root) or key that no package before it has |
| SpdxBuilder.PlaceFiles | tools/sbom/molt_sbom.py:1529-1541 | every file gets the first identifier made from its path below ./ that is not taken, an entry and a relation |
| SpdxBuilder.PlaceOne | tools/sbom/molt_sbom.py:1524-1541 | one package: entry, files, relations and the converted licence |
| SpdxBuilder.LayOut | tools/sbom/molt_sbom.py:1519-1541 | the loop over all packages: licences are converted one after the other, each from the references the ones before left |
| SpdxBuilder.RepeatedIffListedTwice | tools/sbom/molt_sbom.py:1515-1518 | identifiers repeat if and only if a package is listed twice |
| SpdxBuilder.BuildDocument | tools/sbom/molt_sbom.py:1511-1569 | the built document holds exactly the relations asked for and the licences converted in order, and is accepted by the validator if and only if no package is listed twice, relation types are known, and every package has a name, a licence text that is not spoiled and well-formed files |
| Deb822.ParseControl | tools/linux_repo/molt_linux_repo.py:154-171 | the loop reads what the line function gives; every field has a legal name, a stripped first line and non-blank continuation lines |
| Deb822.ParagraphStep | tools/linux_repo/molt_linux_repo.py:158-170 | one more line is folded into the last field or starts a field, and anything else is refused |
| Deb822.OnlyFirstParagraph | tools/linux_repo/molt_linux_repo.py:158-162 | blank lines before are skipped and what follows the first blank line after is not read |
| Deb822.FieldOfIff | tools/linux_repo/molt_linux_repo.py:167-170 | a line starts a field if and only if a legal name stands before its first colon |
| DebStanza.PrintedReadsBack | tools/linux_repo/molt_linux_repo.py:154-171 | a printed paragraph is read back as it was, with or without its last line feed |
| AptIndex.PackagesStanza | tools/linux_repo/molt_linux_repo.py:232-246 | the stanza is the paragraph of the kept fields, the three stated ones and the last description |
| AptIndex.ArrangedValues | tools/linux_repo/molt_linux_repo.py:232-246 | looking the three stated fields up in the stanza gives what was put in |
| AptIndex.StanzaKeeps | tools/linux_repo/molt_linux_repo.py:232-246 | every field but the restated ones keeps all its values in order; the three stated ones have one, and the description its last |
| AptIndex.StanzaReadsBack | tools/linux_repo/molt_linux_repo.py:232-246 | parse_control of packages_stanza gives back the arranged fields |
| Text.BeforeIff | tools/linux_repo/molt_linux_repo.py:335 | sorting is by code points: one text is before another if and only if they agree up to a place where it ends or has the smaller one |
| AptIndex.IndexSplits | tools/linux_repo/molt_linux_repo.py:335 | stanzas joined by an empty line and split at empty lines are the same stanzas |
| AptRelease.ReadReleaseHashes | tools/linux_repo/molt_linux_repo.py:586-601 | the loop reads what the line function gives |
| AptRelease.HeaderLines | tools/linux_repo/molt_linux_repo.py:340-347 | the lines of the header, in order |
| AptRelease.ReleaseReadsList | tools/linux_repo/molt_linux_repo.py:586-601 | whatever the header says, only the list after it is read, unless a line of the header starts a list itself |
| AptRelease.ReleaseReadsBack | tools/linux_repo/molt_linux_repo.py:340-352 | the hashes read from a Release file are exactly the ones listed in it |
| AptVerify.VerifyStanza | tools/linux_repo/molt_linux_repo.py:652-671 | a stanza passes if and only if its package is there, has that size and hash, and its own control file gives the stanza |
| AptVerify.VerifyIndex | tools/linux_repo/molt_linux_repo.py:644-672 | an index passes if and only if its compressed copy agrees and all its stanzas pass |
| AptVerify.VerifySuite | tools/linux_repo/molt_linux_repo.py:609-672 | a suite passes if and only if its Release lists present, matching files and all its indexes pass |
| AptVerify.VerifyApt | tools/linux_repo/molt_linux_repo.py:604-673 | the verifier accepts exactly the accepted trees and reports exactly the packages their indexes list |
| AptVerify.ListedPackage | tools/linux_repo/molt_linux_repo.py:652-669 | a package listed in an accepted index is there, with the size and hash its stanza gives, and its own control file gives that stanza |
| AptListing.SuitesAre | tools/linux_repo/molt_linux_repo.py:610-611 | the suites are the names that stand right below dists |
| AptListing.StanzasInIff | tools/linux_repo/molt_linux_repo.py:652 | the stanzas of an index are the pieces with something other than white space in them |
| AptListing.FilesInIff | tools/linux_repo/molt_linux_repo.py:653-670 | the packages of an index are those its stanzas name |
| AptVerify.SameIndexes | tools/linux_repo/molt_linux_repo.py:636-643 | with a collision-free hash, two accepted trees with the same Release file agree byte for byte on every listed index |
| AptVerify.SamePackages | tools/linux_repo/molt_linux_repo.py:652-662 | and on every package those indexes list |
| AptBuild.RecordPlace | tools/linux_repo/molt_linux_repo.py:215-229 | a pool path lies in the pool |
| AptBuild.RecordPath | tools/linux_repo/molt_linux_repo.py:215-229 | and has no white space when its component has none |
| AptListing.UpstreamOf | tools/linux_repo/molt_linux_repo.py:224 | an epoch before the first colon is left out of the version |
| AptListing.PoolPathIs | tools/linux_repo/molt_linux_repo.py:215-229 | a package goes below the first letter of its name, or the first four of a library's, under its name, version and architecture; any other is refused |
| AptListing.NormalIff | tools/linux_repo/molt_linux_repo.py:304-306 | a relative path is kept as it is if and only if no part of it is empty, . or .. |
| AptBuild.RecordStanzaOk | tools/linux_repo/molt_linux_repo.py:319-320 | the stanza written for a package passes the verifier wherever the package is in place |
| AptTree.FillPool | tools/linux_repo/molt_linux_repo.py:309-325 | the pool loop succeeds if and only if every package can be read and no two share a place; it groups exactly their stanzas |
| AptTree.IndexPieces | tools/linux_repo/molt_linux_repo.py:335 | every piece of a split index is the stanza of one of its packages |
| AptTree.BuiltIndexOk | tools/linux_repo/molt_linux_repo.py:333-338 | every built index passes |
| AptTree.BuiltIsAccepted | tools/linux_repo/molt_linux_repo.py:304-353 | every built tree of a one-directory suite and a one-word component is accepted |
| AptListing.ListedIff | tools/linux_repo/molt_linux_repo.py:327-338 | the index of an architecture lists exactly the packages for it and those for all |
| AptListing.CheckedAreGiven | tools/linux_repo/molt_linux_repo.py:604-672 | of a built tree the verifier reports exactly the packages that were given |
| AptTree.SlashedIsRefused | tools/linux_repo/molt_linux_repo.py:609-614 | a built tree whose suite has a slash in it is refused: the verifier sees its first directory only |
| AptTree.SpacedIsRefused | tools/linux_repo/molt_linux_repo.py:586-601 | a built tree whose component has white space in it is refused: no path read from the list is one of its files |
| AptTree.AcceptedIffFindable | tools/linux_repo/molt_linux_repo.py:604-673 | so a built tree is accepted if and only if suite and component can be found again |
| AptRepository.Arches | tools/linux_repo/molt_linux_repo.py:327 | the indexes are for the architectures of the packages, in order, and for amd64 when all are for every architecture; no index is empty |
| AptRepository.FanOut | tools/linux_repo/molt_linux_repo.py:328-331 | packages for all architectures join the index of each |
| AptRepository.WriteIndexes | tools/linux_repo/molt_linux_repo.py:332-338 | each index and its copy hold the sorted stanzas, and no file overwrites another |
| AptRepository.ReleaseIsDirectoryIff | tools/linux_repo/molt_linux_repo.py:332-353 | the Release file cannot be written if and only if the component lies below a directory of that name |
| AptRepository.ListIndexes | tools/linux_repo/molt_linux_repo.py:349-352 | the list has the hash and size of every index and of its copy, each once, in the order of their names |
| AptRepository.BuildApt | tools/linux_repo/molt_linux_repo.py:304-353 | the build succeeds if and only if every package can be read, no two share a place and the component does not take the place of the Release file; verify_apt accepts the tree if and only if there are no packages, or the suite is one directory and the component one word |
| Crc24.ComputeCrc24 | tools/linux_repo/molt_linux_repo.py:498-507 | the loop computes the register function, and the state stays within 24 bits |
| Crc24.CheckValue | tools/linux_repo/molt_linux_repo.py:498-507 | the register of the empty string, and the published check value 0x21CF02 for the digits 1 to 9 |
| Crc24.ShiftReduces | tools/linux_repo/molt_linux_repo.py:503-506 | one shift doubles the polynomial and reduces it by 0x864CFB when it overflows |
| Crc24.FeedIsBijective | tools/linux_repo/molt_linux_repo.py:502-506 | each byte maps the 24-bit states one to one onto themselves, with an explicit inverse |
| Crc24.ShiftIsLinear | tools/linux_repo/molt_linux_repo.py:503-506 | one shift respects exclusive or |
| Crc24.FeedThree | tools/linux_repo/molt_linux_repo.py:501-506 | three bytes act as one 24-bit word on the register |
| Crc24.BurstIsSeen | tools/linux_repo/molt_linux_repo.py:498-507 | inputs of one length that differ only within three consecutive bytes have different checksums |
| Base64.DecodeEncode | tools/linux_repo/molt_linux_repo.py:512-514 | strict decoding (section 4 of RFC 4648) undoes encoding for every byte string |
| Base64.LetterIs | tools/linux_repo/molt_linux_repo.py:512-514 | the alphabet of RFC 4648 |
| Base64.SextetsAreDigits | tools/linux_repo/molt_linux_repo.py:512-514 | four letters are the digits, to the base of 64, of the number that three bytes make |
| Armor.LinesAreBody | tools/linux_repo/molt_linux_repo.py:513 | no 64-column line of base64 starts with "=" |
| Armor.CleanedLines | tools/linux_repo/molt_linux_repo.py:530 | dropping the lines that start with "=" drops only the checksum |
| Armor.DearmoredArmored | tools/linux_repo/molt_linux_repo.py:510-534 | dearmor(armor(data)) is data for every byte string, the empty one included |
| Armor.LinesAre64 | tools/linux_repo/molt_linux_repo.py:513 | the lines are 64 characters long but for the last |
| Armor.BlockIs | tools/linux_repo/molt_linux_repo.py:514-516 | the block: the marker, an empty line, the lines, the checksum after =, the closing marker |
| Armor.ChecksumBytesAre | tools/linux_repo/molt_linux_repo.py:514 | the three bytes of the checksum, the highest first |
| Armor.HeadersAreSkipped | tools/linux_repo/molt_linux_repo.py:522-534 | text around the block and headers in it are skipped |
| Armor.NoBlock | tools/linux_repo/molt_linux_repo.py:522-523 | data without a block is returned as it is |
| Dsse.PaeIsInjective | tools/release_signing/molt_provenance.py:1091-1094 | a signed message determines its type and its payload |
| Dsse.PaeOfTexts | tools/release_signing/molt_provenance.py:1091-1094 | the message is DSSEv1 and the two texts, each after its length, with single spaces |
| Dsse.LineIff | tools/release_signing/molt_provenance.py:1133-1152 | a line is read if and only if it is an envelope of the type with a payload within the limit and one to four signatures, each the strict base64 of 64 bytes |
| Dsse.ParseBundle | tools/release_signing/molt_provenance.py:1122-1153 | the loop reads what the line function gives |
| Dsse.BoundedEncode | tools/release_signing/molt_provenance.py:1113-1119 | the length bound lets through exactly the payloads of at most two bytes over the limit |
| Dsse.ParseUndoesSign | tools/release_signing/molt_provenance.py:1105-1153 | reading a signed bundle gives back every statement and signature ordered by name and then content, if and only if there are one to sixteen, no payload is more than two bytes over the limit and the whole fits |
| Clip.Merge | tools/ci/molt_test_summary.py:226-231 | the merged windows are sorted with gaps between them and cover exactly what was covered |
| Clip.Show | tools/ci/molt_test_summary.py:232-245 | the pieces are the log's own text in order, add up with the printed counts to its length, show at most limit characters, and show exactly the covered ones up to the cut |
| Clip.Clip | tools/ci/molt_test_summary.py:215-245 | the same for the windows around the anchors and the end of the log |
| Clip.RequestedIff | tools/ci/molt_test_summary.py:215-225 | what is asked for: from before characters ahead of an anchor to after characters past it, and the last tail characters |
| Sfnt.Assemble | tools/fonts/sfnt.py:304-323 | the face is head, records and padded tables in tag order, or an error if and only if something does not fit |
| Sfnt.TableDirectory | tools/fonts/sfnt.py:101-118 | the loop reads what the entry function gives |
| Sfnt.TableAt | tools/fonts/sfnt.py:314-323 | each table is at its listed offset, byte for byte, on a multiple of four |
| Sfnt.DirectoryOfAssembled | tools/fonts/sfnt.py:101-118 | the directory of an assembled face lists exactly the given tags; slices are the tables, ranges are disjoint and after the directory |
| Sfnt.HeadIs | tools/fonts/sfnt.py:312 | the head is the face tag, the number of tables and six zeros |
| Sfnt.RecordIs | tools/fonts/sfnt.py:320 | a record is the tag, four zeros, the offset and the length, the highest byte first |
| Sfnt.PaddedWithZeros | tools/fonts/sfnt.py:321 | a table is padded with at most three zeros |
| Sfnt.Coverage12 | tools/fonts/sfnt.py:384-396 | the loop drops empty groups and sorts the others |
| Sfnt.Covered12 | tools/fonts/sfnt.py:398-408 | the loop stops where the search function does |
| Sfnt.GroupMaps | tools/fonts/sfnt.py:404-407 | the first code point of a group has its glyph, each next one the next glyph; glyph 0 and everything outside is not covered |
| Sfnt.SearchIsScan | tools/fonts/sfnt.py:379-408 | the search finds nothing that a scan of the raw groups would not, and when no two of them overlap, whatever their order, it finds all of it |

## Left out

- Evaluation of BUILD.gn, templates and mojom variants: the targets, references and assert failures of each directory are given.
- Paths of GN: directories are keys, trailing slashes and the candidates for a quoted include are already normalised.
- Lexing of `#if` expressions and directives, and line continuations: conditions are token lists and lines are directives.
- The textual findings of the include rule: the verdict and the targets it names are modelled, not the sentence.
- otool, install_name_tool and codesign, fat files with several slices, `-id` and the provenance file of the bundler.
- That sources never resolve into lib_dir and that lib_dir is empty at the start are assumptions of the bundler's model.
- Fetching subproject files from mirrors and tarballs, and the text form of whole_files.txt: content by commit and path is given.
- WholeFiles.Workspace.Apply: the merges of patched files and the number of them that need a person are inputs, because they are computed by git.
- SpdxExpression.CleanIffPlain: for token lists without WITH; `CleanIffDerivable` has the exact grammar with it.
- SpdxDocument.Validate: the document header, a list of problems for leaf fields that only match a pattern (see the next three lines) and the rule that a declared licence must be used are not modelled, because they copy or match single fields.
- SpdxDocument.CheckExtracted: that an extracted licence has a text; only the name and the origin an invented licence is made from are kept.
- SpdxDocument.CheckPackages: download locations, suppliers, checksums, purposes and external references.
- SpdxDocument.CheckFiles: the licence of a single file, which the builder always leaves open.
- SpdxBuilder.BuildDocument: the same leaf fields, which it copies; relations that are added by hand are between listed packages; the digests of a file are given in order, one for each algorithm.
- AptVerify.VerifySuite: the signature, the InRelease copy and the expiry date are not checked, as in a run without a keyring and with those checks off, because they are gpg and a clock.
- AptVerify.VerifyApt: the same; paths are compared as written, so `..`, `.` and doubled slashes are not resolved; indexes are checked in the order of their names.
- The rpm half of the repository.
- AptRepository.BuildApt: suite and component are relative paths without empty, `.` or `..` segments, the component is one line, and no line of a header value starts with `SHA256:`; the summary entries it also returns are not modelled.
- The binary form of armor: it is ASCII, so the block is a string.
- JSON itself: an envelope is written and read by given functions.
- How the anchors of a log are found: their places are given.
- Sfnt.Assemble: a size that does not fit in 32 bits is an error like the others.
- Sfnt.SearchIsScan: groups as they are read; format 4 subtables are not part of this model. Where groups overlap, which OpenType forbids, only soundness is stated.
- Release checks across statements, fuzzer targets, regular expressions that scrub reports, Markdown reports, argument parsing, audio, voice and leak tools: one-branch checks or plumbing.
