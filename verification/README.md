# OpenList storage gateway: verified models

OpenList presents many cloud storages as one file system. Most of its drivers
relay requests, but some hold algorithms and protocols of their own. This
project models those in Dafny, with the remote side as an arbitrary but fixed
answer, and proves what they guarantee.

`dafny verify dfyconfig.toml` checks all of it.

## What is modelled

**Alias driver** (`AliasPolicy`, `AliasResolve`, `AliasAllocation`,
`AliasMatching`, `AliasDriver`). One path may exist on several backends. `Get`
lists the candidates, a stateful policy closure filters the list while it is
compacted in place, and Move and Copy pair the copies of a source with the
copies of a destination so that as much as possible stays on one mount. A policy
means the same over the candidate list as over all backends. The allocation for
Move is a maximum same-mount matching, and a Move that completes disposes of
every located source exactly once.

**139 share mode** (`ShareCodec`, `ShareOverlay`, `ShareUnion`). Several shares
are shown as one tree whose folders carry encoded lists of references. Looking a
path up is a union mount: it agrees with walking each share alone, from node to
node as the server lists them.

**123 link driver** (`IndentLines`, `IndentTree`, `IndentOrder`). An indented
text is parsed into a mutable tree with a stack of open folders. Every possible
line has a stated reading, the tree keeps the lines and their order, and sizes
and lookups are proved over it.

**Resumable upload** (`ResumeUpload`, `ResumePasses`, `ResumeSharing`,
`ResumeCrash`, `ResumeCreate`). Any number of Baidu Netdisk upload calls for one
file, with parts confirmed in any order, failures, cancellations, expired upload
ids and resumes, as a state machine whose invariant holds over whole runs. The
first error of a pass decides how the call goes on.

**Shared limiters** (`TokenRate`, `LimiterRegistry`, `LimiterOverlap`). The
delayed-release token channel of 123 Open with its timed rate bound, and the
reference-counted registry of Aliyundrive Open under every interleaving of Init
and Drop: of different drivers with its invariant, and overlapping on one driver
with the exact account of what the counts then are.

**Slice hashing** (`SliceHash`). The streaming writer of 189 does not depend on
how writes are split, and agrees with the two other ways the 189 drivers hash
slices.

**Codecs, selectors, planners, merging** (`Base64Hex`, `Md5Scramble`,
`Selection`, `PassivePorts`, `SplitFile`, `UploadPlans`, `MergeJson`,
`MergeDocument`). A base64-to-hex transducer, the Baidu MD5 scrambling, weighted
and port-range selection, file splitting and part plans with their limits, and
the recursive merge of language files on mutable documents that may come to
share parts.

`Results` holds the option and result types.

## Where the code departs from its intent

Each of these is stated with the exact condition, and where it helps with a
concrete case.

- Move drops a source whose storage lookup fails, which can break the
  inequality noted at drivers/alias/util.go:439 and end in an index out of
  range: `AliasDriver.MoveAccounting`, `AliasDriver.DroppedSourceCrashes`.
- A single share reference whose link starts with `shares:`, or is empty, does
  not survive its id: `ShareCodec.RefsRoundTrip`. Such a share can hide the
  folders of the others: `ShareUnion.OverlayIsUnionIff`. The other theorems of
  `ShareUnion` are about shares whose links read back.
- After an expired upload id the new progress is saved while the call still
  works on it (`ResumeUpload.WindowOpensIff`). A progress gets two owners exactly
  when a second call takes it then: `ResumeUpload.OneOwnerIff`. A part is lost
  exactly when a confirmation lands on the entry of another part:
  `ResumeUpload.NothingLostIff`, with a run in `ResumeSharing.PartLost`. An index
  out of range ends the process when one owner filters the block list under the
  other, or the other launches past its end: `ResumeCrash.InsideIff`,
  `ResumeCrash.CrashIffStranded`, with a run in `ResumeCrash.CrashRun`. The
  comment at drivers/base/upload.go:23-24 says that one process alone owns a
  progress; `ResumeUpload.NoExpiryNoSharing` proves that for every run without an
  expiry.
- A second expired upload id reaches `create` with every part pending:
  `ResumeUpload.ReachesCreate`, with a run in `ResumeCreate.SecondExpiry`.
- A request of 123 Open keeps the tokens of its earlier attempts, so with a
  limit of 1 a retry can never start: `TokenRate.AttemptsAtMostQps`.
- Starting an Aliyundrive Open driver that is already ready leaves its old
  limiter counted for good: `LimiterRegistry.StartKeepsIff`,
  `LimiterRegistry.ExcessIsLeaked`, `LimiterRegistry.CountedForGood`.
- When Init and Drop overlap on one Aliyundrive Open driver, a limiter can be
  freed more often than it is forgotten, and go while it is held:
  `LimiterOverlap.CountIsBalanced`, `LimiterOverlap.HeldButForgotten`.
- Reading to the end gives no slice for empty data, where the other two ways of
  hashing give one: `SliceHash.ReaderAgreesIff`.
- Free spaces that sum to a multiple of 2^64 count as no space:
  `Selection.RoomIsFoundIff`, with a case in `Selection.RoomIsMissed`. Larger sums
  distort the shares: `Selection.ProportionalIff`.
- A file of exactly 9 GB has no part plan: `SplitFile.SplitFile`.
- The upload of 123 plans one part of 16 MB for an empty file:
  `UploadPlans.PlanTiles`.
- `hex.DecodeString` accepts upper-case digits and the scrambling lowers them,
  so only lower-case MD5 sums survive: `Md5Scramble.DecryptEncrypt`.

## Model

| member | source | states |
|---|---|---|
| `AliasPolicy.ValidPositionsExact` | drivers/alias/util.go:126-168 | the list of valid positions holds every valid candidate, each once, in list order, and nothing else |
| `AliasPolicy.PolicyMeaning` | drivers/alias/util.go:187-223 | `first` acts on exactly the first valid backend; `deterministic` succeeds iff exactly one is valid, `all_strict` iff all are, `deterministic_or_all` iff one or all are, every other policy iff some is; apart from `first`, success acts on all valid ones |
| `AliasPolicy.RefusalMeaning` | drivers/alias/util.go:187-223 | a path conflict is reported iff two candidates are valid under `deterministic`, a leak iff a miss is seen under `all_strict` or next to two valid candidates under `deterministic_or_all`, and "not found" iff no candidate is valid, unless `all_strict` met a miss; there is no other refusal |
| `AliasPolicy.HashByHash` | drivers/alias/util.go:110-121 | without hashes files agree iff their sizes do; one more hash of the other file counts iff it is not empty and the first file has one of that kind, and then both must be equal |
| `AliasPolicy.ConsistentSymmetric` | drivers/alias/util.go:110-121 | unless a hash is empty it does not matter which of the two files is compared with which |
| `AliasPolicy.Decide` | drivers/alias/util.go:187-223 | a successful verdict acts on a non-empty leading part of the valid positions |
| `AliasPolicy.PositionsGrow` | drivers/alias/util.go:126-168 | candidates read later never take a valid position back |
| `AliasPolicy.PolicyFilter.constructor` | drivers/alias/util.go:193-195 | a new filter has seen nothing |
| `AliasPolicy.PolicyFilter.IfContinue` | drivers/alias/util.go:195-222 | the closure with its two captured variables: it refuses with an error only when every possible rest of the list ends in that same refusal, and stops on success only under `first` at the first valid candidate |
| `AliasPolicy.RefusedForAMiss` | drivers/alias/util.go:196-204 | once a miss was seen, `all_strict` (and `deterministic_or_all` with two hits) refuses however the list goes on |
| `AliasPolicy.KeptCarry` | drivers/alias/util.go:156-164 | a kept slot holds an object, the same pointer with the same path; of a path looked up now nothing else is kept |
| `AliasPolicy.DecideAtEnd` | drivers/alias/util.go:169-172 | a list read to its end undecided is answered with all valid candidates, or "not found" if there are none |
| `AliasPolicy.DecideAtFirst` | drivers/alias/util.go:207-209 | under `first` nothing after the first valid candidate matters |
| `AliasPolicy.ScanNext` | drivers/alias/util.go:126-168 | storing an accepted candidate at the front never overwrites a slot not read yet |
| `AliasPolicy.Scan` | drivers/alias/util.go:126-168 | the in-place candidate loop ends with the verdict of the whole list, however much of it was read, and the kept slots are the accepted candidates in order |
| `AliasPolicy.GetAllObjs` | drivers/alias/util.go:123-173 | filtering and compacting in place gives the same refusal, or the same objects in the same order, as judging the original list as a whole |
| `AliasResolve.FirstFound` | drivers/alias/driver.go:119-124 | the backend found is the first that has the path; none is found iff none has it |
| `AliasResolve.Candidates` | drivers/alias/driver.go:150-166 | first the object found, then one nil marker for all backends skipped, then one unread slot per remaining backend, in root order |
| `AliasResolve.Get` | drivers/alias/driver.go:114-170 | the loop over the roots builds that list for the first backend that has the path, and fails iff no backend has it |
| `AliasResolve.BackendView` | drivers/alias/driver.go:119-124 | seen over all backends: a miss for every backend skipped, then a hit |
| `AliasResolve.CandidateView` | drivers/alias/driver.go:150-166 | seen over the candidate list: the hit, one miss for all backends skipped, and then the same verdicts as over the backends |
| `AliasResolve.LeadingMisses` | drivers/alias/driver.go:153-161 | the number of leading misses only shifts the valid positions |
| `AliasResolve.SameVerdict` | drivers/alias/util.go:187-223 | two lists with equally many hits, and both or neither with a miss, get the same verdict and act on the same leading part of their hits |
| `AliasResolve.PolicyRefinesBackendList` | drivers/alias/driver.go:114-170 | resolving a path and then filtering is the policy applied to all backends in root order: same refusal, same backends; collapsing all earlier misses into one nil never changes the outcome |
| `AliasResolve.KeptAreDistinct` | drivers/alias/util.go:144-164 | the objects kept are distinct pointers and never nil |
| `AliasAllocation.IndexByMount` | drivers/alias/util.go:405-415 | fails iff a destination has no storage; otherwise mount map and free set hold exactly the destinations |
| `AliasAllocation.PairUp` | drivers/alias/util.go:416-437 | destinations are given away or free, each once; located sources are paired or left over, each once; every pair shares a mount and no source left over shares one with a free destination |
| `AliasAllocation.FillRest` | drivers/alias/util.go:441-443 | appending the free destinations in any map order stays inside the slice, keeps its front and loses none |
| `AliasAllocation.AllocateMove` | drivers/alias/util.go:405-444 | in place, fails iff a destination has no storage; otherwise destinations and located sources are permuted so that the paired front shares mounts and nothing past it could |
| `AliasAllocation.ServeOwnMounts` | drivers/alias/util.go:362-378 | a destination is served by the first source on its own mount; no source shares a mount with a destination left free |
| `AliasAllocation.Fallbacks` | drivers/alias/util.go:379-384 | every destination left over gets a source of the list, the first one unless the read policy is random |
| `AliasAllocation.AllocateCopy` | drivers/alias/util.go:347-387 | every destination appears once, equal lengths, no index out of bounds; a destination whose mount has a located source is served from it by the first such source |
| `AliasMatching.PairsAtMostCapacity` | drivers/alias/util.go:390-445 | no pairing has more same-mount pairs than the sum over mounts of min(sources, destinations) |
| `AliasMatching.MoveReachesCapacity` | drivers/alias/util.go:390-445 | the pairs Move makes on one mount number exactly the sum over mounts of min(sources, destinations) |
| `AliasMatching.MoveIsMaximum` | drivers/alias/util.go:390-445 | no other pairing of any of the sources with any of the destinations keeps more pairs on one mount |
| `AliasMatching.CopyServes` | drivers/alias/util.go:339-388 | every destination is served exactly once: by the first source on its own mount; where there is none, by the first source of all, or by any under a random read policy |
| `AliasMatching.CopyIsMaximum` | drivers/alias/util.go:339-388 | no other choice of sources for the destinations keeps more pairs on one mount |
| `AliasDriver.ResolvedAreDistinct` | drivers/alias/util.go:169-172 | a resolved list is not empty and holds distinct non-nil objects |
| `AliasDriver.GetMoveObjs` | drivers/alias/util.go:390-445 | one condition for each refusal: disabled; the refusal of either policy; fewer sources than destinations; a destination without storage; otherwise the result is a same-mount-first allocation of the two filtered lists |
| `AliasDriver.GetCopyObjs` | drivers/alias/util.go:339-388 | the same for Copy, in its own order of checks |
| `AliasDriver.MakeMoves` | drivers/alias/driver.go:371-386 | completes iff there are at least as many sources as destinations; otherwise it runs out of sources after moving each to the destination at its place |
| `AliasDriver.CallsInOrder` | drivers/alias/driver.go:374-383 | the targets are the destinations in order and the local moves are the same-mount pairs |
| `AliasDriver.CallSources` | drivers/alias/driver.go:374-383 | every source is moved or removed exactly once |
| `AliasDriver.LocatedCount` | drivers/alias/util.go:418-422 | a source drops out iff its storage lookup fails |
| `AliasDriver.MoveAccounting` | drivers/alias/util.go:390-445 | a Move completes iff at least as many sources as destinations have a storage; then each of these sources is moved or removed once, each destination gets one, local moves are maximal, and nothing is forgotten iff every source has a storage |
| `AliasDriver.MoveRunsOut` | drivers/alias/driver.go:371-378 | a Move that runs out of sources has moved every source that has a storage, each to a destination of its own |
| `AliasDriver.Move` | drivers/alias/driver.go:371-386 | the whole operation: refused under exactly those conditions; otherwise every source with a storage is used once, and it completes, with every destination served once and as much on one mount as the mounts allow, iff there are enough of them; it never crashes when every source has a storage |
| `AliasDriver.CandidatesFit` | drivers/alias/driver.go:150-167 | what `Get` builds is what Move and Copy expect: not empty, an object first, distinct pointers |
| `AliasDriver.MoveByPath` | drivers/alias/driver.go:114-170 | looking both paths up and moving, as one: "not found" and nothing done iff a path is on no backend; otherwise refused, completed or crashed under exactly the conditions of Move |
| `AliasDriver.DroppedSourceCrashes` | drivers/alias/util.go:420-422 | a concrete case: with two sources and two destinations, one failed lookup breaks the inequality noted in the code and every allocation is a source short |
| `ShareCodec.EscapeInverts` | drivers/139/util.go:537-552 | path escaping is undone by unescaping and never produces the separator |
| `ShareCodec.EscapedExactly` | drivers/139/util.go:537-539 | of the characters of a path segment (section 3.3 of RFC 3986) escaping keeps all but seven; any other byte becomes a percent sign and two upper-case digits |
| `ShareCodec.EscapeIsSegment` | drivers/139/util.go:537-539 | so an escaped text holds nothing but characters of a path segment and percent signs |
| `ShareCodec.UnescapeSpelled` | drivers/139/util.go:546-549 | a text is read back however each of its bytes is written: as itself, or as a percent sign and two digits of either case |
| `ShareCodec.UnescapeFailsIff` | drivers/139/util.go:546-551 | unescaping fails iff two digits do not follow some percent sign |
| `ShareCodec.EscapeKeepsPrefix` | drivers/139/util.go:535-569 | an escaped field starts like a list id iff the plain field does |
| `ShareCodec.Cut` | drivers/139/util.go:541-545 | a cut fails iff there is no separator |
| `ShareCodec.DecodesIff` | drivers/139/util.go:541-553 | a text reads as a reference iff it is a link, not empty, a password and a node, in this order, each escaped in some way, between two separators |
| `ShareCodec.RefRoundTrip` | drivers/139/util.go:537-553 | a single reference reads back iff its link is not empty; otherwise decoding fails |
| `ShareCodec.TextIff` | drivers/139/util.go:529-533 | text, as JSON carries it, is exactly what sequences of Unicode characters are encoded as (section 3 of RFC 3629) |
| `ShareCodec.RefsRoundTrip` | drivers/139/util.go:535-584 | a list of references of text survives its id exactly when it has two or more, or one whose link is neither empty nor starts like a list id; otherwise decoding fails and never yields other references |
| `ShareOverlay.Members` | drivers/139/util.go:621-666 | the members of a node are exactly the folders and then the files that the server lists for it, each in order, with its own name and a reference to its own node in the same share; an empty node is the root |
| `ShareOverlay.EntryFound` | drivers/139/util.go:640-666 | looking up the only entry of a name leads to that entry's node, as a folder or as a file, in the same share |
| `ShareOverlay.FirstFailureIs` | drivers/139/util.go:672-679 | the failure kept is that of the first node that cannot be listed; there is none iff all can |
| `ShareOverlay.NamesExact` | drivers/139/util.go:680-686 | merged names are distinct, in first-seen order, and are exactly the names that occur |
| `ShareOverlay.ViewSnoc` | drivers/139/util.go:687-701 | one more member changes only a folder of its own name, which gains its reference at the end |
| `ShareOverlay.ViewNew` | drivers/139/util.go:681-686 | a member with a new name is shown as it is |
| `ShareOverlay.GetFilesWithRef` | drivers/139/util.go:621-666 | fails iff the node cannot be listed; otherwise one object per folder and then one per file, in order, each with its own name and an id for its own node in the same share |
| `ShareOverlay.MergeItem` | drivers/139/util.go:680-702 | adding one object to the merged directory keeps it the view of all members so far, and keeps the index map right |
| `ShareOverlay.GatheredSnoc` | drivers/139/util.go:690-696 | one more folder adds its reference iff both it and the first folder of the name can be read back |
| `ShareOverlay.MergeFolder` | drivers/139/util.go:687-701 | the two decodings succeed iff the first folder of the name and the new one can be read back; only then is the reference added, at the end |
| `ShareOverlay.GetMergedFiles` | drivers/139/util.go:668-708 | for any references: one object per name in first-seen order, a folder carrying all references of that name that can be read back, or the first alone if it cannot; a failure counts only if nothing is shown |
| `ShareOverlay.FolderIdReads` | drivers/139/util.go:732-738 | the id of a folder shown decodes to all it stands for iff its first folder can be read back, and to nothing otherwise |
| `ShareOverlay.GetObj` | drivers/139/util.go:710-755 | the walk through the merged tree gives the folder, file, absence or failure that level-by-level resolution defines, and the id of a folder carries all its references |
| `ShareUnion.WalkStep` | drivers/139/util.go:719-747 | merging level by level reaches the same nodes in the same order as walking each share depth first |
| `ShareUnion.WalkIffChain` | drivers/139/util.go:719-747 | walking one share alone reaches exactly the nodes to which the listings lead, folder by folder, along the names, and only inside that share |
| `ShareUnion.FolderExactly` | drivers/139/util.go:719-747 | a path leads to a folder iff no file comes first under any of its names, and the folder then stands for exactly the nodes the shares reach on their own, in share order |
| `ShareUnion.FileExactly` | drivers/139/util.go:719-747 | a path leads to a file iff no step before the last is shadowed and that file is the first member of the last name among the nodes reached |
| `ShareUnion.UnlistableExactly` | drivers/139/util.go:703-723 | a lookup reports the failure of a node iff, with nothing shadowed before, nothing is shown where it arrives and that node is the first there that cannot be listed; all other lookups without a folder or file find nothing |
| `ShareUnion.FolderIffReached` | drivers/139/util.go:719-747 | with no file in the way, a folder is found iff some share reaches a node |
| `ShareUnion.OverlayIsUnion` | drivers/139/util.go:710-755 | with no file in the way, the merged lookup finds the concatenation, in share order, of what each share finds when it is the only one; it finds a folder iff some share does |
| `ShareUnion.ReadablesCount` | drivers/139/util.go:690-696 | when the first folder of a name can be read back, exactly the other readable shares count |
| `ShareUnion.OverlayIsUnionIff` | drivers/139/util.go:710-755 | with any links: the merged lookup is that union iff no share finds anything or the first member of the first name can be read back; otherwise that member hides the other shares |
| `IndentLines.TrimLeft` | drivers/123_link/parse.go:51 | nothing blank is left at the front |
| `IndentLines.LeadingSpaces` | drivers/123_link/parse.go:38-44 | exactly the blanks before the first other character |
| `IndentLines.SpacesAre` | drivers/123_link/parse.go:51 | what is trimmed are the characters with the Unicode property White_Space |
| `IndentLines.TrimSpaceOf` | drivers/123_link/parse.go:51 | trimming takes the space at both ends away and nothing else |
| `IndentLines.LineShape` | drivers/123_link/parse.go:36-51 | every line is an indent of blanks, further space, a text without space at its ends, and space |
| `IndentLines.LineReads` | drivers/123_link/parse.go:36-83 | what each such line reads as: an error for an odd indent, even of a blank line; nothing when blank; for an indent of 2n blanks a folder of level n named by what precedes the final colon, or the file line, or its error |
| `IndentLines.ReadAllConcat` | drivers/123_link/parse.go:32-86 | a text reads as its two halves do, one after the other, the error of the first half first |
| `IndentLines.FirstErrorWins` | drivers/123_link/parse.go:46-48 | the first bad line decides, whatever follows it |
| `IndentLines.ParentExists` | drivers/123_link/parse.go:58-61 | every line has a parent: the latest earlier folder whose level is below that of every line since, or the root |
| `IndentLines.ParentUnique` | drivers/123_link/parse.go:58-61 | and only one |
| `IndentTree.KidsSnoc` | drivers/123_link/parse.go:70-82 | a new line becomes the last child of its parent and of nobody else |
| `IndentTree.LevelsIncrease` | drivers/123_link/parse.go:58-72 | levels strictly increase along the stack |
| `IndentTree.NextLine` | drivers/123_link/parse.go:58-72 | popping leaves exactly the parent on top, and pushing a folder keeps the stack the list of open folders |
| `IndentTree.Node.constructor` | drivers/123_link/parse.go:65-68 | a new node has no children |
| `IndentTree.AddChild` | drivers/123_link/parse.go:70-82 | hanging a node under its parent keeps all other children lists |
| `IndentTree.Indent` | drivers/123_link/parse.go:38-44 | the counting loop stops at the first character that is not a blank |
| `IndentTree.PopTo` | drivers/123_link/parse.go:58-61 | the root is never popped; what is popped was not below the new line, and what is left on top is |
| `IndentTree.MakeNode` | drivers/123_link/parse.go:63-80 | the node says what its line says |
| `IndentTree.AddEntry` | drivers/123_link/parse.go:58-83 | one line keeps tree and stack right |
| `IndentTree.ReadOne` | drivers/123_link/parse.go:36-83 | one line, read as `IndentLines.LineReads` says for every line |
| `IndentTree.BuildTree` | drivers/123_link/parse.go:32-86 | one node per line that is not blank, in line order, each under the parent its level demands; otherwise the error of the first bad line |
| `IndentOrder.End` | drivers/123_link/parse.go:58-61 | a subtree reaches exactly to the next line not below its folder |
| `IndentOrder.NextBoundary` | drivers/123_link/parse.go:58-83 | the line after a finished subtree is the next child |
| `IndentOrder.PreorderIsRange` | drivers/123_link/parse.go:32-86 | the preorder of any subtree is a contiguous run of lines |
| `IndentOrder.PreorderIsLineOrder` | drivers/123_link/parse.go:70-82 | the preorder of the parents alone is the order of the lines |
| `IndentOrder.TraverseIsRange` | drivers/123_link/parse.go:32-86 | walking the node objects below a node through their children visits exactly the nodes of its lines, in the order of the text |
| `IndentOrder.TreeIsLineOrder` | drivers/123_link/parse.go:32-86 | nothing is lost, added or reordered: walking the tree from the root that is returned visits one node per line that is not blank, in text order, each saying what its line says |
| `IndentOrder.Init` | drivers/123_link/driver.go:28-36 | parsing and sizing together: fails with the error of the first bad line; otherwise the walk from the root is the lines in order and every node has the size of the files below it |
| `IndentOrder.CalSize` | drivers/123_link/types.go:43-53 | every folder of the subtree gets the sum of all files below it, however deep; nothing outside changes |
| `IndentOrder.GetByPath` | drivers/123_link/types.go:20-37 | finds the first line in text order whose names spell the path; null iff there is none |
| `IndentOrder.PathThroughChild` | drivers/123_link/types.go:30-35 | a path below a child is the node's name followed by the path seen from the child |
| `IndentOrder.TopLevelPath` | drivers/123_link/types.go:20-37 | a line of level 0 is found under its name alone, below the root |
| `IndentOrder.GetFromRoot` | drivers/123_link/parse.go:150-152 | a path looked up from the root gives the node of the first line that has it, with what the line says and the size of all files below it; null iff no line has it |
| `IndentOrder.Get` | drivers/123_link/driver.go:28-47 | reading, sizing and looking up as one: the error of the first bad line, or exactly that node |
| `ResumeUpload.ConfirmOne` | drivers/baidu_netdisk/driver.go:338-345 | confirming a part moves it from pending to confirmed |
| `ResumeUpload.PendingExact` | drivers/baidu_netdisk/driver.go:355 | filtering keeps exactly the parts not confirmed, each once |
| `ResumeUpload.FilterConserves` | drivers/baidu_netdisk/driver.go:355-356 | filtering before saving loses no pending part |
| `ResumeUpload.SentKeeps` | drivers/baidu_netdisk/driver.go:338-345 | a confirmation in any order keeps every progress conserved and every other call right |
| `ResumeUpload.GiveUpKeeps` | drivers/baidu_netdisk/driver.go:349-359 | so does giving up, filtering and saving |
| `ResumeUpload.RestartKeeps` | drivers/baidu_netdisk/driver.go:361-375 | so does starting over after an expired uploadid |
| `ResumeUpload.StepKeeps` | drivers/baidu_netdisk/driver.go:275-392 | every step keeps the invariant, except possibly taking a saved progress whose parts another call is sending |
| `ResumeUpload.StepKeepsIff` | drivers/base/upload.go:23-31 | and that one always breaks it |
| `ResumeUpload.ShareStep` | drivers/baidu_netdisk/driver.go:355-375 | only a first restart makes a call work on a progress that is saved, and this lasts until that call is done sending or the cache entry is taken, replaced or gone |
| `ResumeUpload.WindowOpensIff` | drivers/baidu_netdisk/driver.go:361-375 | the one step after which a saved progress is still worked on: a call whose uploadid expired starts over for the first time |
| `ResumeUpload.AlwaysRight` | drivers/baidu_netdisk/driver.go:275-392 | the invariant holds in every state of every run in which no call takes a progress in such a window, for any interleaving of parts, failures, cancellations, expiries and resumes |
| `ResumeUpload.OneOwnerIff` | drivers/base/upload.go:16-31 | for any run at all: no progress ever has two calls sending its parts iff no call takes a saved progress between a first restart that saved it and the end of that call's pass or of the cache entry |
| `ResumeUpload.WhatHolds` | drivers/baidu_netdisk/driver.go:275-392 | the parts asked for are split into confirmed and pending; a confirmation writes inside its list; a progress has one worker; a call that did not lose its uploadid twice creates the file with everything confirmed |
| `ResumeUpload.ReachesCreate` | drivers/baidu_netdisk/driver.go:300-383 | `create` is reached in two ways only: with nothing pending, or, by a second expiry, with everything pending |
| `ResumeUpload.ConfirmIff` | drivers/baidu_netdisk/driver.go:342 | blanking an entry for a part conserves the progress iff the entry is that part, or was blank and the part confirmed |
| `ResumeUpload.SentConservesIff` | drivers/baidu_netdisk/driver.go:338-345 | for any call, sharing or not: a confirmation conserves every progress, and does not crash the process, iff it lands on the entry of its own part, or on a blank one of a confirmed part |
| `ResumeUpload.NothingLostIff` | drivers/baidu_netdisk/driver.go:275-392 | for any run at all, shared progress and crashes included: every part asked for is always confirmed or pending, and not both, and the process never crashes, iff every confirmation lands so |
| `ResumeUpload.OwnerLands` | drivers/baidu_netdisk/driver.go:338-345 | while no progress has two owners every confirmation lands |
| `ResumeUpload.NoExpiryNoSharing` | drivers/base/upload.go:16-31 | without an expired uploadid, a saved progress never has two owners in any run |
| `ResumePasses.ErrorStays` | pkg/errgroup/errgroup.go:99-105 | within a pass a call keeps the first error it gets, and gets one only when its own part fails or it is cancelled |
| `ResumePasses.PassError` | pkg/errgroup/errgroup.go:99-105 | over whole runs: the error of a call is that of the first step of its pass that is an error, and there is none iff no step is |
| `ResumePasses.FirstErrorDecides` | drivers/baidu_netdisk/driver.go:349-377 | over whole runs: a call that gives up starts over iff the first error of the pass was a part whose uploadid had expired, whatever came after it; otherwise it ends |
| `ResumePasses.AllSentWithoutError` | drivers/baidu_netdisk/driver.go:349-352 | a call goes on to `create` without a restart only after a pass in which nothing failed |
| `ResumePasses.PhaseStep` | drivers/baidu_netdisk/driver.go:275-392 | every way in which a call goes on: to its parts, to a restart, to `create`, to its end; no step of another call changes where it is |
| `ResumePasses.TwoPasses` | drivers/baidu_netdisk/driver.go:298-376 | over whole runs: a pass is the second of its call iff a restart began it |
| `ResumePasses.EveryLaunchAnswered` | drivers/baidu_netdisk/driver.go:316-349 | a pass ends only when every part launched in it has been confirmed or has failed |
| `ResumePasses.ResumeTakesUnconfirmed` | drivers/base/upload.go:16-31 | after a call gave up, the next call to take the progress starts at the beginning of a list of exactly the parts not confirmed yet, each once |
| `ResumePasses.AskedIsAnswer` | drivers/baidu_netdisk/driver.go:275-290 | over whole runs: a progress asks for exactly the parts in the answer of the server that made it, in that order |
| `ResumeCrash.InsideStepIff` | drivers/baidu_netdisk/driver.go:316-355 | for any call, sharing or not: a part comes to be in flight past the end of its block list iff a call filters the list under parts that another has in flight there, or launches past the end of the list as it is |
| `ResumeCrash.CrashNextIff` | drivers/baidu_netdisk/driver.go:342 | in any state: no confirmation can crash the process iff every part in flight has its index inside the list |
| `ResumeCrash.InsideIff` | drivers/baidu_netdisk/driver.go:300-375 | for any run at all: no part is ever in flight past the end of its list iff no step is one of those two |
| `ResumeCrash.CrashIffStranded` | drivers/baidu_netdisk/driver.go:300-375 | a run without such a step never crashes the process; a run with one can go on, right after the first, with a confirmation that does |
| `ResumeCrash.CrashRun` | drivers/baidu_netdisk/driver.go:342-355 | a concrete run: after an expiry two calls share a progress, one gives up and filters the list, and the confirmation of the second part of the other is out of range |
| `ResumeCreate.StepCovers` | drivers/baidu_netdisk/driver.go:316-342 | while every confirmation lands, a pass without error overlooks no part, whatever the other calls do to the list it walks |
| `ResumeCreate.AllSentConfirmed` | drivers/baidu_netdisk/driver.go:349-383 | for any run in which every confirmation lands, shared progress included: a call that ends its pass without error creates the file with everything asked for confirmed |
| `ResumeCreate.AllSentCoversFile` | drivers/baidu_netdisk/driver.go:219-228 | then, if every part was asked for, each byte of the file was sent in exactly one confirmed section and none reaches past the end |
| `ResumeCreate.SecondExpiry` | drivers/baidu_netdisk/driver.go:300-383 | a concrete run of one call alone that comes to create the file with nothing confirmed |
| `ResumeSharing.PartLost` | drivers/baidu_netdisk/driver.go:371-375 | a concrete run: after an expiry the progress in use is saved too, a second call takes it, a confirmation lands on the entry of another part, and `create` is reached with that part neither confirmed nor pending |
| `ResumeSharing.SectionsTile` | drivers/baidu_netdisk/driver.go:219-228 | the byte ranges sent for the parts tile the file: each byte in exactly one part, none past the end |
| `ResumeSharing.CountOfParts` | drivers/baidu_netdisk/driver.go:221-228 | the number of parts and the last size are such that the last part ends where the file ends |
| `TokenRate.StepKeeps` | drivers/123_open/types.go:17-29 | acquiring, returning and delayed release keep tokens accounted for and acquisitions spaced |
| `TokenRate.AlwaysKept` | drivers/123_open/util.go:62-63 | so in every state of every run |
| `TokenRate.RateBound` | drivers/123_open/types.go:11-46 | no window shorter than a second contains more than `qps` acquisitions, for every interleaving, retries included |
| `TokenRate.TimersNeverBlock` | drivers/123_open/types.go:23-29 | a due release always finds a token to take out |
| `TokenRate.AttemptsAtMostQps` | drivers/123_open/util.go:41-63 | a request keeps the tokens of all its attempts until it returns, so it never holds more than `qps`, and one that holds that many shuts out every further attempt |
| `TokenRate.HeldIsAttempts` | drivers/123_open/util.go:41-63 | for every run: a request holds one token for each attempt since it last returned, and every acquisition is logged, whatever the limit |
| `TokenRate.ZeroIsUnlimited` | drivers/123_open/types.go:17-29 | for every run with a limit of 0: no token is ever held or awaited and every request can always go ahead |
| `TokenRate.FullSecondHoldsTwice` | drivers/123_open/types.go:23-29 | the bound is sharp for every limit: some run makes twice as many acquisitions as the limit in a window of exactly a second |
| `LimiterRegistry.Registry.constructor` | drivers/aliyundrive_open/limiter.go:37 | the registry starts empty |
| `LimiterRegistry.Registry.GetLimiterForUser` | drivers/aliyundrive_open/limiter.go:40-63 | counts one more holder of the user's limiter, made if need be, and forgets what nobody holds |
| `LimiterRegistry.Registry.Forget` | drivers/aliyundrive_open/limiter.go:43-50 | visiting the map in any order, only limiters without holder go, and never the global one |
| `LimiterRegistry.Registry.Free` | drivers/aliyundrive_open/limiter.go:80-87 | one holder less; a nil limiter is ignored |
| `LimiterRegistry.CountKeeps` | drivers/aliyundrive_open/limiter.go:51-62 | acquiring keeps every count equal to the number of holders |
| `LimiterRegistry.CleanUpKeeps` | drivers/aliyundrive_open/limiter.go:43-50 | cleaning up never forgets a held limiter |
| `LimiterRegistry.ReleaseKeeps` | drivers/aliyundrive_open/driver.go:46-54 | letting go keeps every count equal to the number of holders |
| `LimiterRegistry.StepKeeps` | drivers/aliyundrive_open/driver.go:37-72 | every step of Init and Drop keeps the invariant, and every acquisition leaves only held limiters and the global one |
| `LimiterRegistry.AlwaysKept` | drivers/aliyundrive_open/driver.go:37-72 | the invariant holds in every run in which no driver is started while ready |
| `LimiterRegistry.RegistryRight` | drivers/aliyundrive_open/driver.go:37-72 | in every such run counts equal holders, ready drivers share a limiter iff they share a user, the limiter that a starting or a ready driver holds is registered, and acquisitions leave the registry tidy |
| `LimiterRegistry.StartKeepsIff` | drivers/aliyundrive_open/driver.go:37-38 | starting a driver keeps the counts right iff it was idle |
| `LimiterRegistry.StepExcess` | drivers/aliyundrive_open/driver.go:37-72 | any step, on any state, changes by how much a limiter is counted beyond its holders only when a driver that holds it is started again, and then by one |
| `LimiterRegistry.ExcessIsLeaked` | drivers/aliyundrive_open/driver.go:37-72 | in any run at all, a limiter is counted by its holders and once more for every time a driver that held it was started again |
| `LimiterRegistry.CountedForGood` | drivers/aliyundrive_open/driver.go:37-38 | after such a start the limiter is counted more often than it is held in every later state, and if it is registered it stays so, held or not |
| `LimiterRegistry.GlobalStays` | drivers/aliyundrive_open/limiter.go:43-50 | no step removes or replaces the global limiter, held or not, and a starting driver gets it |
| `LimiterRegistry.OneGlobal` | drivers/aliyundrive_open/limiter.go:27-62 | in any run at all: all drivers that ever start get one and the same global limiter |
| `LimiterRegistry.LastStepDecides` | drivers/aliyundrive_open/driver.go:37-72 | in any run: whether a driver is idle, starting, switching or ready, and for which user, is decided by its own last steps |
| `LimiterRegistry.WhatCanHappen` | drivers/aliyundrive_open/driver.go:37-72 | in every state of every run: exactly which steps of a driver can happen; none is ever stuck |
| `LimiterOverlap.ActionBalance` | drivers/aliyundrive_open/driver.go:37-72 | any single access to the registry or to a driver field changes by how much a limiter is counted beyond the fields and threads that have it only by making a field forget it or by freeing it |
| `LimiterOverlap.CountIsBalanced` | drivers/aliyundrive_open/driver.go:37-72 | however Init and Drop overlap, on one driver or several: the count of a limiter is right iff it was freed exactly as often as a field was made to forget it |
| `LimiterOverlap.OneGlobalLimiter` | drivers/aliyundrive_open/limiter.go:27-62 | however Init and Drop overlap, all that ever acquire the global limiter get the same one |
| `LimiterOverlap.HeldButForgotten` | drivers/aliyundrive_open/driver.go:67-72 | a concrete history: two overlapping Drops of one driver free a limiter twice, and the registry forgets it while another driver holds it |
| `SliceHash.CutExact` | drivers/189/util.go:342-345 | the slices joined are the data, all but the last full, and the last not empty unless there is no data |
| `SliceHash.SliceHashWriter.constructor` | drivers/189/util.go:330-338 | a new writer has absorbed nothing |
| `SliceHash.SliceHashWriter.Write` | drivers/189/util.go:521-556 | after any block of any length the recorded hashes, the open slice and the count are those of all bytes written so far, however they were split; a cancelled write takes nothing |
| `SliceHash.SliceHashWriter.Finish` | drivers/189/util.go:342-345 | with the last-slice rule the hashes are those of the data cut into slices, one empty slice for no data |
| `SliceHash.Absorb` | drivers/189/util.go:529-549 | a chunk that stays inside the slice fills or extends exactly the open slice |
| `SliceHash.LastSlice` | drivers/189/util.go:342-345 | the last-slice rule adds a slice exactly when the reference cut has one more |
| `SliceHash.HashStream` | drivers/189/util.go:326-345 | for any split into writes the result is the reference hashing |
| `SliceHash.FastUploadHashes` | drivers/189pc/utils.go:936-993 | the loop with a fixed number of slices gives the reference hashing, also for empty data |
| `SliceHash.SlicesCounted` | drivers/189pc/utils.go:937-940 | the count computed before the loop is the number of slices that the data is cut into, one for no data |
| `SliceHash.ComputeSliceHashes` | drivers/189pc/torrent.go:301-328 | the loop hashes the full buffers and a last short one, and nothing for empty data |
| `SliceHash.ReadIsCut` | drivers/189pc/torrent.go:309-325 | the full buffers and the last short one are the slices of the reference cut, for data that is not empty |
| `SliceHash.ReaderAgreesIff` | drivers/189pc/torrent.go:301-328 | reading to the end gives the hashes that the writer and the fixed count give iff there is any data |
| `Base64Hex.SymbolFound` | drivers/189/help.go:53-60 | every base64 symbol is found at its own place |
| `Base64Hex.TablesAre` | drivers/189/help.go:45-47 | the two tables of the program are the base64 alphabet and the digits |
| `Base64Hex.OrIsSum` | drivers/189/help.go:67-76 | the shift-and-or on machine bits is a sum, and all ones for a character not found |
| `Base64Hex.B64ToHex` | drivers/189/help.go:53-85 | the loop gives the digits of all half bytes in order, and crashes iff an index is outside the table |
| `Base64Hex.NextInRange` | drivers/189/help.go:59-79 | a known character writes indices within 0..15 only; an unknown one always writes -1 |
| `Base64Hex.CompletesIff` | drivers/189/help.go:49-85 | for any text: no crash iff every character is a base64 symbol or `=`, and then every index is within 0..15 |
| `Base64Hex.EveryTextReads` | drivers/189/help.go:49-85 | for every text that does not crash, of any length and with `=` anywhere: the digits are the bits of its symbols, four at a time; two or three symbols at the end give one or two bytes, a single one is filled up to a byte |
| `Base64Hex.IndicesAreNibbles` | drivers/189/help.go:53-85 | for the base64 of any bytes, whatever the padding, exactly the half bytes are written |
| `Base64Hex.Base64ToHexIsHex` | drivers/189/help.go:49-85 | the base64 text of any byte string becomes its lower-case hexadecimal text (sections 4 and 8 of RFC 4648) |
| `Md5Scramble.EncryptMd5` | drivers/baidu_netdisk/util.go:473-488 | swaps the blocks, then scrambles character by character |
| `Md5Scramble.DecryptMd5` | drivers/baidu_netdisk/util.go:453-471 | returns hexadecimal text as it is; otherwise unscrambles and swaps, and crashes iff fewer than 32 digits come out |
| `Md5Scramble.XorUndone` | drivers/baidu_netdisk/util.go:467 | exclusive or with the same value twice changes nothing |
| `Md5Scramble.XorBits` | drivers/baidu_netdisk/util.go:466 | a bit of the exclusive or is set iff the two bits differ |
| `Md5Scramble.XorLowBits` | drivers/baidu_netdisk/util.go:466 | for any integer, negative ones in two's complement: only the low half byte changes, and the second time it changes back |
| `Md5Scramble.FormatHexReads` | drivers/baidu_netdisk/util.go:466 | a number is written in lower-case digits that stand for it, without zeros in front, a negative one with a sign |
| `Md5Scramble.SwapTwice` | drivers/baidu_netdisk/util.go:470-474 | the block swap is its own inverse |
| `Md5Scramble.ScrambledIsNotHex` | drivers/baidu_netdisk/util.go:454-456 | place 9 of a scrambled text is never a hexadecimal digit, so the early return is never taken |
| `Md5Scramble.ScrambleGivesScrambled` | drivers/baidu_netdisk/util.go:478-487 | scrambling any 32 characters gives the scrambled form |
| `Md5Scramble.UnscrambleAt` | drivers/baidu_netdisk/util.go:460-468 | each character of a scrambled text gives exactly one digit back |
| `Md5Scramble.UnscrambleScramble` | drivers/baidu_netdisk/util.go:453-488 | unscrambling undoes scrambling up to the case of the digits |
| `Md5Scramble.DecryptEncrypt` | drivers/baidu_netdisk/util.go:453-488 | for any 32 characters, decrypting the encrypted text gives it back iff it is an MD5 sum in lower case; any other text comes back normalised |
| `Md5Scramble.NormalIs` | drivers/baidu_netdisk/util.go:464-466 | what any character comes back as: a lower-case digit as itself, an upper-case one lowered, anything else as a zero |
| `Md5Scramble.EncryptDecrypt` | drivers/baidu_netdisk/util.go:453-488 | encrypting the decrypted text gives it back iff it has the scrambled form |
| `Md5Scramble.PlainStays` | drivers/baidu_netdisk/util.go:454-456 | hexadecimal text of even length is returned as it is |
| `Md5Scramble.CrashesIff` | drivers/baidu_netdisk/util.go:458-470 | decryption crashes iff the text is not hexadecimal and gives fewer than 32 digits: one per character, but at place 9 as many as its number takes |
| `Md5Scramble.CaseIgnored` | drivers/baidu_netdisk/util.go:462-465 | the case of the letters of a scrambled text does not matter |
| `Selection.OneOwner` | drivers/alias/util.go:329-335 | no residue selects two items |
| `Selection.SelectRandom` | drivers/alias/util.go:320-337 | selects the one item whose share of the weights contains the residue; refuses iff the 64-bit total is 0, so the final return is never reached |
| `Selection.ShareSize` | drivers/alias/util.go:328-335 | how many residues select an item, for any weights, wrapped total included |
| `Selection.ProportionalIff` | drivers/alias/util.go:320-337 | every item is selected by exactly as many residues as its weight iff the true total fits in 64 bits |
| `Selection.NoWeightNoShare` | drivers/alias/util.go:328-335 | an item of weight 0 is never selected |
| `Selection.PickByQuota` | drivers/alias/util.go:293-318 | a backend selected by weight reports enough space; without a selection strict mode refuses, and otherwise one of the backends that report nothing is taken, if there is one |
| `Selection.RoomIsFoundIff` | drivers/alias/util.go:294-299 | one is selected by weight exactly when some backend has room, iff the free spaces that count sum to 0 or to no multiple of 2^64 |
| `Selection.QuotaShares` | drivers/alias/util.go:294-299 | while the free spaces that count fit in 64 bits, a backend is drawn by exactly as many residues as it reports bytes free, if they suffice, and by none otherwise |
| `Selection.RoomIsMissed` | drivers/alias/util.go:322-326 | a concrete case of the other sums: four free spaces that sum to 2^64 count as no space |
| `PassivePorts.AcceptedPorts` | server/ftp.go:230-253 | a range is accepted iff it is not reversed and lies within 1024..65535, a single port always; what is accepted stands for exactly the ports listed |
| `PassivePorts.AcceptedEntries` | server/ftp.go:255-283 | an entry is accepted iff its texts are and, when it joins two, one list is the other moved by some distance |
| `PassivePorts.GroupPorts` | server/ftp.go:255-283 | a group holds exactly the ports its entry lists outside, taken in order to exactly the ports it lists inside |
| `PassivePorts.NewPortMapper` | server/ftp.go:223-291 | refused as a whole iff some entry is not proper; otherwise one non-empty group per entry, and the total is the sum of the lengths |
| `PassivePorts.FetchNext` | server/ftp.go:206-217 | every draw below the total offers a pair of ports of some group; the final return is never reached |
| `PassivePorts.OffersIff` | server/ftp.go:206-217 | draws and places in the groups correspond one to one |
| `PassivePorts.OfferedIff` | server/ftp.go:206-217 | a port is offered by some draw iff a group holds it |
| `PassivePorts.OfferedIffListed` | server/ftp.go:206-291 | a port is offered by some draw iff the configuration lists it |
| `PassivePorts.OfferedOnce` | server/ftp.go:206-217 | a port that one group holds is offered by one draw only, always with the same port inside |
| `MergeJson.FindSteps` | cmd/lang.go:80-96 | a path of one key leads to the entry of that key, a longer one on from where its beginning leads |
| `MergeJson.BlockedIff` | cmd/lang.go:87-92 | a leaf is in the way of a path iff the path leads to one before its end |
| `MergeJson.FoundInMerge` | cmd/lang.go:80-96 | what a path of keys leads to after merging: the target's value merged with the source's, or the source's where the target has nothing and no leaf of it is in the way |
| `MergeJson.KeepsAndAdds` | cmd/lang.go:80-96 | every leaf of the target stays, every path of the source is added unless a leaf of the target blocks it, and no other path is new |
| `MergeJson.UnchangedIff` | cmd/lang.go:80-96 | merging changes nothing iff the target has every key of the source wherever both have objects |
| `MergeJson.MergeCovers` | cmd/lang.go:80-96 | the merged value has every key of the source at every such depth |
| `MergeJson.Idempotent` | cmd/lang.go:80-96 | merging twice is merging once |
| `MergeDocument.TakeOver` | cmd/lang.go:84-86 | a key the target lacks is taken over; nothing else in the document tree changes |
| `MergeDocument.MergeNested` | cmd/lang.go:88-92 | two objects under one key are merged in place; their siblings and the source do not change |
| `MergeDocument.MergeKey` | cmd/lang.go:82-93 | one key of the source: the target becomes the merged value there and stays as it was everywhere else |
| `MergeDocument.Replaced` | cmd/lang.go:86 | a document tree stays a tree, and its other entries keep their values, when one entry is replaced |
| `MergeDocument.Merge` | cmd/lang.go:80-96 | on mutable nested documents, for any map order: the target becomes the merged value, the source is unchanged, and the result says whether nothing changed |
| `SplitFile.SplitByPartNum` | drivers/115/util.go:439-463 | refused iff the number is out of range or above the size; otherwise exactly that many equal parts, numbered from 1, contiguous from 0, the last with the remainder, ending at the file size |
| `SplitFile.SplitByPartSize` | drivers/115/util.go:467-494 | refused iff the size is not positive or more than 9999 full parts would result; otherwise parts of that size tile the file |
| `SplitFile.TooSmall` | drivers/115/util.go:425 | only a file below 100,000 KB gets parts below 100 KB |
| `SplitFile.SplitFile` | drivers/115/util.go:414-432 | a plan comes out iff the file has at least 1000 bytes and is not exactly 9 GB, where it crashes; a plan tiles the file in at most 10000 parts, all but the last of at least 100 KB |
| `UploadPlans.NeededAtMost` | drivers/189pc/help.go:210-219 | a bound on the number of parts is a bound on the file size, whatever the part size |
| `UploadPlans.GetSliceSize` | drivers/baidu_netdisk/util.go:329-388 | in low bandwidth mode the least whole number of megabytes from 4 up to the limit of the user with which 2048 slices suffice, or the limit; without a custom size 2048 slices suffice exactly up to 8, 32 or 64 GB |
| `UploadPlans.PartSizeFits` | drivers/189pc/help.go:210-219 | at most 1999 parts always; up to 20 MiB * 999 the least multiple of 10 MiB with which 999 parts suffice, and above that the least, from 50 MiB up, with which 1999 do |
| `UploadPlans.CalPartSizeFits` | drivers/aliyundrive_open/upload.go:33-51 | at most 10000 parts exactly up to 50000 GB |
| `UploadPlans.CalPartSizeLeast` | drivers/aliyundrive_open/upload.go:33-51 | 20 MB up to 128 GB and 5 GB over 1 TB; in between, the least part size with which 10000 parts suffice for the largest file of the same range |
| `UploadPlans.PlanTiles` | drivers/123/upload.go:78-126 | the planned parts tile a file that is not empty; of an empty file the one part claims the full part size |
| `UploadPlans.NewUpload` | drivers/123/upload.go:94-127 | the nested batch and part loops send every planned part once and in order, in consecutive batches of exactly 10, the last one possibly shorter |
| `UploadPlans.PlanInBatches` | drivers/139/driver.go:722-838 | the planned parts tile the file, and the batches, of exactly 100 but for the last, are those parts, each once and in order |

## Left out

- Requests, signatures, logins and answers: the server is a map from paths or
  nodes to answers, fixed during one call, or any answer at each step of a
  protocol.
- Backend lookups in the alias driver are snapshots: the same path gives the
  same answer during one operation. An error of a call that a Move or Copy makes
  does not stop it and is not recorded.
- AliasPolicy.GetAllObjs: the copied fields of an accepted object other than its
  path are not modelled, because the original drops them as well.
- AliasDriver.GetCopyObjs: which source a random read policy picks for a
  destination on another mount is left open. Copy itself makes one call per pair.
- AliasResolve.Get: object masks and provider names are not modelled; they do
  not influence the policy.
- The put policies `random`, `quota` and `quota_strict` are covered by
  `Selection.PickByQuota` only; the timeout of one second while asking backends
  for their space shows up as a backend that reports nothing.
- ShareCodec.RefsRoundTrip: JSON and unpadded base64 are assumed to invert each
  other, JSON on fields that are valid UTF-8 (`ShareCodec.Faithful`), and base64
  to reject a byte outside the alphabet.
- ShareOverlay.GetMergedFiles, `ShareOverlay.GetObj`: links, passwords and node
  ids are valid UTF-8, as all text is that comes out of a decoded configuration
  or answer.
- ShareOverlay.GetObj: cleaning and splitting the path, modification times and
  sizes, and the shortcut for the root path are not modelled. Links and
  passwords are split from the configuration text before the model begins.
- IndentTree.BuildTree: what a file line says is a given map from line text to
  its fields or an error; splitting the text at newlines, and URLs, sizes and
  times inside a line, are not modelled.
- IndentOrder.GetByPath: takes the path already split into names.
- ResumeUpload.StepKeeps: the upload host, retries of one part, progress
  reports and rapid upload are not modelled; a part either is confirmed or fails
  for good. The server is assumed to ask for each part at most once.
- ResumeUpload.AlwaysRight: covers runs in which no call takes a progress whose
  parts another call is sending; what decides the other runs is
  `ResumeUpload.OneOwnerIff` and `ResumeUpload.NothingLostIff`.
- Resuming in drivers/189pc and the upload loop of drivers/aliyundrive_open: the
  first is a protocol like that of `ResumeUpload` without the restart, the second
  a plan like that of `UploadPlans.PlanInBatches` without the batches.
- UploadPlans.PartSizeFits: the floating-point division of the original is an
  exact ceiling here.
- UploadPlans.NewUpload: the server grants a URL for each part asked for; an
  expired URL and a cancelled upload are not modelled.
- TokenRate.RateBound: changing the limit while requests run is not modelled.
  Time is whatever the clock shows at each event.
- LimiterRegistry.RegistryRight: covers runs in which the Init and Drop calls of
  one driver do not overlap and no driver is started while it is ready. Runs with
  such starts are `LimiterRegistry.ExcessIsLeaked`, overlapping calls
  `LimiterOverlap.CountIsBalanced`. Reference drivers and the rate limiters
  themselves are not modelled.
- LimiterRegistry.ExcessIsLeaked: leaves out Init and Drop that overlap on one
  driver, which `LimiterOverlap.CountIsBalanced` accounts for.
- SliceHash.FastUploadHashes: the stream is assumed to hold as many bytes as its
  size claims. Hashes are arbitrary functions of the bytes absorbed; whole-file
  and SHA-1 hashes, progress reports and read errors are not modelled.
- Base64Hex.B64ToHex: machine words are unbounded integers;
  `Base64Hex.OrIsSum` relates the shift and the or to bits.
- Selection.SelectRandom: the slight bias of reducing a 64-bit random number is
  not modelled; the random number is any number.
- PassivePorts.NewPortMapper: entries come already cut at commas, colons and
  dashes, with each number read or not.
- MergeDocument.Merge: both documents are trees that do not overlap when the
  merge begins, as decoding gives them.
- SplitFile.SplitFile: sizes are unbounded integers.
- The MD5 scrambling in drivers/baidu_photo is the same code once more.
- FTP, WebDAV and SFTP service, the command line, routing and driver metadata.
