# Verified models of mamake, the libsum checksums and the text commands of libcmd

A Dafny model of the parts of the AST/ksh sources whose loops carry real invariants, with proofs
of what those loops are for.  `dafny verify dfyconfig.toml` checks all of it.

- **The build engine** (`src/cmd/INIT/mamake.c`).  `SplayTree`, `SplaySteps` and `Dictionary`: the
  top-down splay tree on the heap, its links related to a ghost tree, refined to a functional splay and
  from there to a finite map.  `SearchingWalk`: a walk while the tree is splayed.  `LeafOrder`: the depth-first recursion over leaf directories, on any finite
  graph.  `Rebuild`: the time-stamp logic of make, makp, prev, exec and done.  `FirstRun`: what a run does and
  which Mamfiles it refuses, from their text and the files.  `RebuildProofs`: what a second run does.
- **The merge join** (`src/lib/libcmd/join.c`).  `MergeJoin` and `JoinPairs`: the scan with its rewind
  marks against the nested-loop join.
- **The checksums** (`src/lib/libsum`).  `MessageSchedule`, `Sha256Transform`, `Sha512Transform` and
  `Sha1Transform`: sixteen words in a ring of bytes, which may be the input block itself, against the
  schedules and rounds of FIPS 180-4.  `BlockStream`, `Sha2Stream` and `MdStream`: buffered update, bit counts
  and padding; the SHA-2 buffer is the ring of its transform.  `BlockWords`, `Sha256`, `Sha512` and `Sha1` put
  the halves together, from bytes to the final state.
  `Crc`: table-driven against bit-by-bit division.  `AttSum`: the lanes and the folds.
- **Block-at-a-time text commands** (`src/lib/libcmd`).  `RevLine`, `TailLines`, `WordCount`, `CutRanges`, `CutText`, `CutList`,
  `TextMode` and `Comm`: each fast loop against a plain description of its result, for every way the
  input may be cut into buffers.

`Names` has the order of strings, `Options` a value that may be missing, `Bytes` the arithmetic of
bytes, and `Sequences` the flattening of chunks and folds.

Objects the code updates are classes (`Dict`, `Builder`, `Mamake`, `File`, `Sha2`, `Md`, `Crc`, `Temp`);
buffers it writes into are arrays.  A file or stream is a sequence of bytes or records and an index, a
`sfreserve` buffer is one element of a sequence of non-empty chunks, the file system is a map from names to
times, and the clock is a number that never runs back.

## Where a property holds only under a condition

- Backward reversal (`src/lib/libcmd/revlib.c:50-107`).  A region whose last line is ended is always right.
  Otherwise the code can take a last byte that is alone in its block for a newline.  `RevLine.RevLine` proves
  that the output is right if and only if `LoneByte` is false, and `RevLine.LoneByteExample` shows a wrong one.
- First runs (`src/cmd/INIT/mamake.c:1786-2198`).  What `FirstRun.FirstRunIsRight` and `FirstRun.RefusedExactly` say
  needs a Mamfile that makes no rule twice, and no file newer than the clock.
- Rebuild stability (`src/cmd/INIT/mamake.c:1786-2198`).  At every strict level a second run is idle if and only
  if no virtual rule has an action, provided the Mamfile makes no rule twice (`RebuildProofs.RebuildIsStable`).
  Whether it does can be read off its text and the level (`RebuildProofs.MadeTwice`); from level 3 on such a
  Mamfile does not complete (`RebuildProofs.StrictNeverRemakes`).  Below that a rule may be made again after it
  was used; `RebuildProofs.UsedThenRemade` is a Mamfile whose second run is then not idle.
- The SHA-1 bit count (`src/lib/libsum/sum-sha1.c:214-216`).  The high word takes up the high bits of a call's
  length only if the low word wraps.  The length field is right if and only if what was lost so is a multiple of
  2^32 (`MdStream.LengthFieldIsRight`); calls below 2^29 bytes lose nothing, one of 2^29 bytes can.
- The 32-bit index of the block loops (`src/lib/libsum/sum-md5.c:290`, `src/lib/libsum/sum-sha1.c:221`).  A call
  ends if its bytes and those in the buffer are fewer than 2^32 together (`MdStream.Md.FoldAll`); otherwise the
  loop test holds at every index it takes (`MdStream.NeverEnds`).
- Leaf order (`src/cmd/INIT/mamake.c:2241-2242`).  Updating a leaf directory also marks the rule of its
  basename made.  If no leaf is the rule of the basename of another, the order is topological
  (`LeafOrder.TopologicalOrder`); distinct basenames are enough for that.  Otherwise only leaves so shadowed can be
  passed over (`LeafOrder.OnlyShadowedArePassedOver`), and `LeafOrder.PassedOver` is a run in which one is, although
  another leaf needs it.
- The newline after a cut line (`src/lib/libcmd/cut.c:338-363`).  The newline is a byte of the line, and a delimiter
  is added if it was not copied, but the end of a range is not told from a range that begins behind the newline.
  It is lost if and only if bytes are selected, the newline is not, and some range of the list, even an empty one,
  begins right behind it (`CutList.NewlineOnceUnlessLost`, `CutList.LostAlike`, `CutList.Cut`);
  `CutList.LostExample` is such a list.
- The last lines of a pipe (`src/lib/libcmd/tail.c:213-263`).  Records are moved only if they are ended, so an
  unended last line is dropped, where a file keeps it: the two agree if and only if the last line is ended or no
  lines are wanted (`TailLines.PipeAgreesWithFile`).
- Open-ended ranges (`src/lib/libcmd/cut.c:194-220`).  The end of a range without a last number does not fit an
  `int`; arithmetic of `int` is taken to wrap around.  If such a range begins in another one, or right behind it, its
  length wraps or turns into the end mark when the two are joined.  The finished list has the union of the ranges
  if no range that begins before the first such one reaches to it, and otherwise ends in a length that is negative
  or taken for the end mark (`CutList.CutInit`); `CutList.OverlapExample` gives the list stored for one.
- Walks with a callback that searches (`src/cmd/INIT/mamake.c:644-657`).  A search splays the tree under the walk.
  Searching names that are not ahead of the entry at hand does not disturb it (`SearchingWalk.WalkSearching`); a
  search ahead can make it pass over an entry (`SearchingWalk.SearchAheadLoses`).
- Joining and sorted columns: order and multiplicity need sorted inputs, as the commands document; what holds
  for any input (termination, equal keys, conservation) is stated without that.

## Where the code and its documentation differ

The model follows the code.  `src/cmd/INIT/README-mamake.md` says that attributes given to `prev` are ignored in
legacy mode, but on an existing rule they are an error at every strict level; and that `makp` of a rule that is
being made is an error, but nothing happens.  In `src/lib/libsum/sum-crc.c:171-202` the general rotate branch
fills its table without selecting it; the model uses the table that was filled.

## Model

| member | source | states |
|---|---|---|
| Dictionary.Dict.Search | src/cmd/INIT/mamake.c:538-626 | for every search tree: the result is the item of that name and is the new root, or null exactly when the name is absent and nothing is to be created; the map from names to values gains at most that name; items are kept |
| Dictionary.Dict.SearchTree | src/cmd/INIT/mamake.c:538-626 | the heap links after the loop and the reassembly are those of the functional splay of the old tree, with the same items in order and the new one in its place |
| Dictionary.Dict.Restructure | src/cmd/INIT/mamake.c:541-626 | whatever is found, the links form a search tree over the same items plus the new one |
| Dictionary.Dict.Descend | src/cmd/INIT/mamake.c:543-587 | the loop ends; the two partial trees and the rest stay apart, in order, and complete to the cut the functional splay makes |
| Dictionary.RotateRight | src/cmd/INIT/mamake.c:549-555 | three link assignments turn the heap tree into its right rotation and leave the partial trees alone |
| Dictionary.RotateLeft | src/cmd/INIT/mamake.c:569-575 | the mirror image |
| Dictionary.MoveAfter | src/cmd/INIT/mamake.c:559-565 | cutting the root off and hanging it at the left end of the after-tree is grafting it there, and the rest is the left subtree |
| Dictionary.MoveBefore | src/cmd/INIT/mamake.c:579-585 | the mirror image |
| Dictionary.LinkParts | src/cmd/INIT/mamake.c:588-598 | the subtrees of the found item go to the inner ends of the partial trees |
| Dictionary.LinkEnds | src/cmd/INIT/mamake.c:588-611 | all three trees become one, the found item its root |
| Dictionary.Dict.FinishFound | src/cmd/INIT/mamake.c:588-614 | a found item ends as root over the assembled tree |
| Dictionary.Dict.FinishAbsent | src/cmd/INIT/mamake.c:599-625 | an absent name gives a new root between the partial trees, or their join and null |
| Dictionary.Dict.JoinAbsent | src/cmd/INIT/mamake.c:615-625 | without a middle the after-tree hangs at the right end of the before-tree, or is all there is |
| SplaySteps.MoveAfterCompletes | src/cmd/INIT/mamake.c:559-565 | a step of the loop keeps what the rest of the splay will give |
| SplaySteps.MoveBeforeCompletes | src/cmd/INIT/mamake.c:579-585 | the mirror image |
| SplaySteps.MoveAfterOrder | src/cmd/INIT/mamake.c:559-565 | items keep their order when the root moves to the after-tree |
| SplaySteps.RotatedRightOrder | src/cmd/INIT/mamake.c:551-555 | a right rotation keeps the in-order sequence |
| SplaySteps.JoinParts | src/cmd/INIT/mamake.c:615-624 | joining the partial trees keeps their links and sequence |
| SplayTree.SplayKeepsOrder | src/cmd/INIT/mamake.c:543-587 | the three parts of a splay, one after another, are the tree in order: no item lost, added or moved |
| SplayTree.SplayCuts | src/cmd/INIT/mamake.c:543-587 | everything in the first part is before the name and everything in the last part after it |
| SplayTree.SplayFinds | src/cmd/INIT/mamake.c:545-557 | the middle is empty if and only if no item has the name, and otherwise its root has it |
| SplayTree.SearchKeepsItems | src/cmd/INIT/mamake.c:588-625 | the reassembled tree is a search tree with the old items, and the new one exactly if the name was absent |
| SplayTree.AbsentKeepsItems | src/cmd/INIT/mamake.c:615-625 | a failed search only restructures |
| Dictionary.Dict.SetVal | src/cmd/INIT/mamake.c:628-632 | map update: the name gets the value and every other name keeps its own, with the invariant kept |
| Dictionary.Dict.GetVal | src/cmd/INIT/mamake.c:634-638 | map lookup, null for an absent name; the map is unchanged by the splaying |
| Dictionary.Apply | src/cmd/INIT/mamake.c:644-657 | for every callback and the state it works on: the calls made for a subtree are those for its entries in order, and end at the first that asks to stop |
| Dictionary.Dict.Walk | src/cmd/INIT/mamake.c:663-666 | the callback gets the entries of the dictionary as a map, each once, in strictly ascending order of their names, up to the first at which it asks to stop; -1 if and only if it did |
| Dictionary.VisitConcat | src/cmd/INIT/mamake.c:648-657 | calls for two runs of entries are the calls for the first and, if none asked to stop, for the second |
| Dictionary.ListingIsUnique | src/cmd/INIT/mamake.c:644-666 | the listing of a map is determined by the map, so what a walk does depends on the contents only and not on earlier splaying |
| SearchingWalk.SearchLeavesRight | src/cmd/INIT/mamake.c:543-625 | what is right of an item stays right of it, in one piece, when a name that is not behind the item is searched |
| SearchingWalk.ApplySearching | src/cmd/INIT/mamake.c:644-657 | a walk whose callback searches the tree being walked for names not behind the entry it is called for visits every entry of its part, in order, with the values they have |
| SearchingWalk.WalkSearching | src/cmd/INIT/mamake.c:644-666 | so the whole walk does what it does without searches |
| SearchingWalk.SearchAheadLoses | src/cmd/INIT/mamake.c:644-657 | a search for a name ahead can take an entry out of what the walk still visits: four entries of which one is lost |
| Dictionary.NameIsUnique | src/cmd/INIT/mamake.c:538-626 | two items of one name are one item |
| MergeJoin.KeyCompareIsStrcmp | src/lib/libcmd/join.c:647-654 | first byte, common length, then length difference: the order strcmp gives, equal only for equal fields |
| MergeJoin.File.GetRec | src/lib/libcmd/join.c:292-308 | the next record, once each, or none at the end |
| MergeJoin.EqualProgress | src/lib/libcmd/join.c:652-688 | an equal pair extends the written rows by one pair and fixes the start of the group |
| MergeJoin.GreaterProgress | src/lib/libcmd/join.c:693-733 | a smaller record of file 2 is passed over; a pending rewind mark ends the replay at the right record |
| MergeJoin.LessProgress | src/lib/libcmd/join.c:738-762 | a smaller record of file 1 has all its pairs written |
| MergeJoin.NextRow | src/lib/libcmd/join.c:746-767 | the rewind to the start of the group replays it for the next record of file 1, also when file 2 is at its end |
| MergeJoin.Advance | src/lib/libcmd/join.c:746-767 | marks, rewind and the two reads of the loop end leave the scan where the invariant needs it |
| MergeJoin.Join | src/lib/libcmd/join.c:640-769 | ends for any two inputs; every pair written has equal keys from the two files; on key-sorted inputs the output is the nested-loop join, in order, despite the rewinds |
| JoinPairs.PairMultiplicity | src/lib/libcmd/join.c:640-769 | in the nested-loop join each pair with equal keys occurs as often as the product of its multiplicities, and no other pair occurs |
| LeafOrder.Cons | src/cmd/INIT/mamake.c:701-714 | a prerequisite is put in front unless it is there: the set grows by it and no duplicate arises |
| LeafOrder.Builder.Scan | src/cmd/INIT/mamake.c:2282-2335 | initializers run alone, at once; another leaf gets as prerequisites exactly the leaf directories its Mamfile binds, itself excluded |
| LeafOrder.Builder.ScanBinds | src/cmd/INIT/mamake.c:2312-2332 | the prerequisites collected are exactly those named |
| LeafOrder.Builder.ScanAll | src/cmd/INIT/mamake.c:2429 | after the walk the prerequisite graph is the dependency graph of the Mamfiles |
| LeafOrder.Builder.Update | src/cmd/INIT/mamake.c:2232-2276 | ends on any finite graph, cycles included; runs a leaf at most once, only leaves reachable from it, and keeps the ordering invariant |
| LeafOrder.Builder.UpdatePrereqs | src/cmd/INIT/mamake.c:2243-2245 | after the loop every leaf prerequisite is made |
| LeafOrder.Builder.UpdatePrereq | src/cmd/INIT/mamake.c:2244-2245 | one prerequisite: updated unless it is made or no leaf |
| LeafOrder.Opened | src/cmd/INIT/mamake.c:2240-2242 | marking a leaf made before its prerequisites keeps the log valid with that leaf open |
| LeafOrder.Closing | src/cmd/INIT/mamake.c:2273-2275 | running it after them closes it and keeps the log valid |
| LeafOrder.Builder.Descend | src/cmd/INIT/mamake.c:2341-2348 | one rule of the final walk, with or without named targets |
| LeafOrder.Builder.DescendAll | src/cmd/INIT/mamake.c:2436 | every wished leaf has run or is shadowed by one of the same basename that has |
| LeafOrder.Builder.Recurse | src/cmd/INIT/mamake.c:2418-2437 | scan and descent of the whole tree: the log has no duplicate, runs all that is wished and nothing that is not, is ordered, and has every initializer before any other leaf |
| LeafOrder.InitializerMeans | src/cmd/INIT/mamake.c:2217-2226 | a leaf is an initializer if and only if the part of its name after the last slash begins with INIT |
| LeafOrder.InitializerAlone | src/cmd/INIT/mamake.c:2300-2305 | running an initializer during the scan runs nothing else |
| LeafOrder.DistinctIsUnshadowed | src/cmd/INIT/mamake.c:2241-2242 | distinct basenames are enough for no leaf to be the alias of another |
| LeafOrder.TopologicalOrder | src/cmd/INIT/mamake.c:2232-2276 | on an acyclic graph where no leaf is the alias of another each leaf runs after all its leaf prerequisites |
| LeafOrder.OnlyShadowedArePassedOver | src/cmd/INIT/mamake.c:2240-2245 | on any acyclic graph a prerequisite that has not run before its dependent is the alias of a leaf that has run |
| LeafOrder.ShadowedRunsFirst | src/cmd/INIT/mamake.c:2240-2245 | if a leaf runs although another that ran has it as alias, it ran before that one or needs it |
| LeafOrder.PassedOver | src/cmd/INIT/mamake.c:2232-2276 | a run over leaf directories a/libx, b and libx in which b needs libx, libx never runs and b does |
| Rebuild.Mamake.ReadCommands | src/cmd/INIT/mamake.c:1819-2180 | reading a block changes the fields as the meaning of its commands says, fatal errors included |
| Rebuild.Mamake.ReadCommand | src/cmd/INIT/mamake.c:1840-2132 | one command of make, makp, prev or exec |
| Rebuild.Mamake.DeclareSource | src/cmd/INIT/mamake.c:2099-2112 | a source file is bound once and declared made; a missing one is fatal unless dontcare or virtual |
| Rebuild.Mamake.MakeTarget | src/cmd/INIT/mamake.c:1800-1815 | a block starts from the time stamp of its target |
| Rebuild.Mamake.Finish | src/cmd/INIT/mamake.c:1940-1978 | the fields after done are those its meaning gives; what that does to files is FirstRun.FirstRunIsRight |
| Rebuild.Mamake.RunAction | src/cmd/INIT/mamake.c:1448-1459 | the action sets the time stamp of its target from the file it leaves, or from the clock |
| FirstRun.FirstRunIsRight | src/cmd/INIT/mamake.c:1786-2198 | any completed run of a Mamfile that makes no rule twice, from its text and the files: for every make at any depth, the action runs if and only if there is one and the rule is virtual, or its file is missing, older than a prerequisite that is not ignored and was named and made by then, or all times are zero; afterwards a non-virtual target with an action exists and is no older than any of those; a rule that is not ignored ends with the latest time of its file and those; sources keep their file time; only targets with an action run, each once and at its time, and no other file changes |
| FirstRun.EveryCommandRight | src/cmd/INIT/mamake.c:1819-2197 | what holds throughout a text holds of each command of a block where it is read, a make with all in it |
| FirstRun.NeedsMean | src/cmd/INIT/mamake.c:2056-2132 | what a block needs: the names in it that are made when the command naming them has been read |
| FirstRun.CommandsRight | src/cmd/INIT/mamake.c:1819-2197 | the same inside a block, whose time stamp is the latest of what it began with and what it needs |
| FirstRun.MakeRight | src/cmd/INIT/mamake.c:2056-2089 | the same for a make block |
| FirstRun.DoneRight | src/cmd/INIT/mamake.c:1940-1978 | the comparison at the end of a block and the time stamp it leaves, from the files and the needs of the block |
| FirstRun.CommandsRun | src/cmd/INIT/mamake.c:1819-2197 | what runs in a block are rules untouched before and targets of its text with an action |
| FirstRun.RefusedExactly | src/cmd/INIT/mamake.c:1786-2198 | with a Mamfile that makes no rule twice a run ends in a fatal error if and only if its text, the strict level and the names of the files say so: a rule made inside itself or, from level 3 on, again; makp of a made rule; prev of no rule at level 4, with attributes on a rule, or from level 3 on of a rule being made; a source or a target without an action that has no file and is neither virtual, dontcare nor an obsolete licence at level 0 |
| FirstRun.CommandsAccepted | src/cmd/INIT/mamake.c:1819-2197 | the same for the rest of a block |
| FirstRun.ObsoleteLicenseMeans | src/cmd/INIT/mamake.c:686-692 | those names are the ones of the form /....lic |
| FirstRun.AttributesStay | src/cmd/INIT/mamake.c:2082-2085 | no attribute given to a rule is lost, also when it is made again |
| RebuildProofs.CommandsKeep | src/cmd/INIT/mamake.c:1819-2197 | in a block that makes no rule twice, commands change no rule already made or being made except that its own may become generated, and none of their files; time never runs back |
| RebuildProofs.StepKeeps | src/cmd/INIT/mamake.c:1840-2132 | the same for one command |
| RebuildProofs.Tracks | src/cmd/INIT/mamake.c:1819-2197 | the names that have a rule and those made after a block are a function of its text and the strict level |
| RebuildProofs.DoneKeeps | src/cmd/INIT/mamake.c:1940-1978 | the end of a block changes only its own rule and file, marks the rule made, and leaves no time in the future |
| RebuildProofs.CommandsAgain | src/cmd/INIT/mamake.c:1819-2197 | a second run over the files of a settled first run follows it step by step and runs nothing |
| RebuildProofs.MakeAgain | src/cmd/INIT/mamake.c:2056-2089 | the same for a make block |
| RebuildProofs.DoneAgain | src/cmd/INIT/mamake.c:1940-1978 | at the end of a block a target made by the first run is not older than its prerequisites in the second |
| RebuildProofs.SecondRunIsIdle | src/cmd/INIT/mamake.c:1786-2198 | if the Mamfile makes no rule twice and no virtual rule has an action, a second run completes, runs no action and changes no file |
| RebuildProofs.VirtualActionsRun | src/cmd/INIT/mamake.c:1940 | an action of a virtual rule runs in every completed run of a Mamfile that makes no rule twice |
| RebuildProofs.StrictNeverRemakes | src/cmd/INIT/mamake.c:2062-2063 | from strict level 3 on a Mamfile that makes a rule twice does not complete |
| RebuildProofs.RebuildIsStable | src/cmd/INIT/mamake.c:1786-2198 | at every strict level, after any completed run of a Mamfile that makes no rule twice, a second run completes idle if and only if no virtual rule has an action |
| RebuildProofs.RunTwice | src/cmd/INIT/mamake.c:1786-2198 | the program run twice: the second run completes and runs nothing if and only if no virtual rule has an action, and then changes no file |
| RebuildProofs.UsedThenRemade | src/cmd/INIT/mamake.c:2062-2079 | without that condition the property fails: a concrete Mamfile that makes a rule again after it has been used, and whose second run runs an action |
| MessageSchedule.ReadAhead | src/lib/libsum/sum-sha2.c:525-532 | the slot read at a lag ahead holds the word written sixteen minus the lag words ago |
| MessageSchedule.RingStep | src/lib/libsum/sum-sha2.c:532 | overwriting the oldest word with the newest keeps the last sixteen words in the ring |
| MessageSchedule.Store | src/lib/libsum/sum-sha2.c:503-532 | a word stored in its slot of the byte buffer replaces that word and no other |
| MessageSchedule.Load | src/lib/libsum/sum-sha2.c:499-521 | the first sixteen words and rounds, right also when input and ring are one memory |
| MessageSchedule.Extend | src/lib/libsum/sum-sha2.c:525-532 | word t is computed over the word it replaces |
| MessageSchedule.Transform | src/lib/libsum/sum-sha2.c:498-544 | the sixteen-word ring gives the registers of the full schedule, whether or not the input is the ring |
| MessageSchedule.SameRounds | src/lib/libsum/sum-sha2.c:498-544 | equal recurrences and rounds give equal registers |
| Sha256Transform.SigmasRotate | src/lib/libsum/sum-sha2.c:174-188 | the pairs of shifts are the rotations of FIPS 180-4 section 4.1.2 |
| Sha256Transform.ReverseReadsBigEndian | src/lib/libsum/sum-sha2.c:95-99 | the bytes a little-endian host loads become the big-endian word |
| Sha256Transform.MajMeans | src/lib/libsum/sum-sha2.c:182 | the majority bit is that of x and y where they agree and that of z elsewhere |
| Sha256Transform.ChMeans | src/lib/libsum/sum-sha2.c:181 | the choice bit is that of y where x has a bit and that of z elsewhere |
| Sha256Transform.RoundMeans | src/lib/libsum/sum-sha2.c:482-544 | the specified round is step 3 of the hash computation, with the sums of rotations written out |
| Sha256Transform.StepsAreFips | src/lib/libsum/sum-sha2.c:482-554 | schedule, rounds and final sum of the specification are put together as the standard says, word by word and round by round |
| Sha256Transform.CodedIsSpecified | src/lib/libsum/sum-sha2.c:482-544 | the coded update of the ring is the recurrence of FIPS 180-4 section 6.2.2 |
| Sha512Transform.SigmasRotate | src/lib/libsum/sum-sha2.c:174-194 | the same for section 4.1.3 |
| Sha512Transform.ReverseReadsBigEndian | src/lib/libsum/sum-sha2.c:101-118 | the same for eight bytes |
| Sha512Transform.MajMeans | src/lib/libsum/sum-sha2.c:182 | the majority bit is that of x and y where they agree and that of z elsewhere |
| Sha512Transform.ChMeans | src/lib/libsum/sum-sha2.c:181 | the choice bit is that of y where x has a bit and that of z elsewhere |
| Sha512Transform.RoundMeans | src/lib/libsum/sum-sha2.c:847-907 | the specified round is step 3 of the hash computation, with the sums of rotations written out |
| Sha512Transform.StepsAreFips | src/lib/libsum/sum-sha2.c:847-917 | schedule, rounds and final sum of the specification are put together as the standard says, word by word and round by round |
| Sha512Transform.CodedIsSpecified | src/lib/libsum/sum-sha2.c:847-907 | the same for section 6.4.2 |
| Sha1Transform.SameF | src/lib/libsum/sum-sha1.c:57-71 | the shortened formulas for Ch and Maj are those of FIPS 180-4 section 4.1.1 |
| Sha1Transform.ChMeans | src/lib/libsum/sum-sha1.c:57-71 | the choice bit is that of y where x has a bit and that of z elsewhere |
| Sha1Transform.MajMeans | src/lib/libsum/sum-sha1.c:57-71 | the majority bit is that of x and y where they agree and that of z elsewhere |
| Sha1Transform.ConstantsAreRoots | src/lib/libsum/sum-sha1.c:57-71 | the four constants are the integer parts of 2^30 times the square roots of 2, 3, 5 and 10 |
| Sha1Transform.StepsAreFips | src/lib/libsum/sum-sha1.c:150-201 | schedule, rounds and final sum of the specification are put together as section 6.1.2 says, the function and constant changing every twenty rounds |
| Sha1Transform.NamesMove | src/lib/libsum/sum-sha1.c:173-193 | leaving the variables in place and moving the five names is moving the values |
| Sha1Transform.RoundIsFips | src/lib/libsum/sum-sha1.c:57-71 | a round macro is a round of FIPS 180-4 section 6.1.2, seen through the names |
| Sha1Transform.RoundsAreFips | src/lib/libsum/sum-sha1.c:173-193 | so are any number of them |
| Sha1Transform.ScheduleIsFips | src/lib/libsum/sum-sha1.c:41-52 | the in-place schedule is the 80-word one |
| BlockWords.ReadWritten | src/lib/libsum/sum-sha2.c:487 | a 32-bit word written to the bytes of the buffer is read back |
| Sha512.ReadWritten | src/lib/libsum/sum-sha2.c:849 | the same for 64-bit words |
| BlockStream.Absorb | src/lib/libsum/sum-sha2.c:563-608 | whole blocks already folded can be forgotten: state and tail determine what any further bytes give |
| BlockStream.SameFold | src/lib/libsum/sum-sha2.c:563-608 | compression functions that agree on blocks give the same state |
| BlockStream.ZeroCountIsLeast | src/lib/libsum/sum-sha2.c:651-674 | the padding is the least that ends the message on a block boundary |
| BlockStream.ShortEnding | src/lib/libsum/sum-sha2.c:655-657 | the one-block ending is the fold over the padded message |
| BlockStream.LongEnding | src/lib/libsum/sum-sha2.c:658-666 | so is the two-block ending |
| BlockStream.BigEndianByte | src/lib/libsum/sum-sha2.c:647-650 | byte i of n, high-order byte first, is the number divided by 256^(n-1-i), modulo 256 |
| BlockStream.LittleEndianByte | src/lib/libsum/sum-md5.c:66-77 | byte i, low-order byte first, is the number divided by 256^i, modulo 256 |
| Sha2Stream.LengthFieldByte | src/lib/libsum/sum-sha2.c:647-676 | the bytes of the length field are those of the number of bits, high-order byte first |
| MdStream.LengthFieldByte | src/lib/libsum/sum-md5.c:307-312 | the same for the two eight-byte fields, MD5 low-order byte first and SHA-1 high-order byte first |
| Sha2Stream.CarryIsExact | src/lib/libsum/sum-sha2.c:127-132 | the carry seen as the sum being smaller makes the two-word count exact modulo 2^128 |
| Sha2Stream.UsedSpace | src/lib/libsum/sum-sha2.c:571 | the count gives the bytes in the buffer, also after it wraps |
| Sha2Stream.StoredIsLength | src/lib/libsum/sum-sha2.c:647-650 | the stored count is the message length in bits, most significant byte first |
| Sha2Stream.Sha2.AddBits | src/lib/libsum/sum-sha2.c:127-132 | the count after adding less than one word |
| Sha2Stream.Sha2.Transform | src/lib/libsum/sum-sha2.c:482-554 | one block, in the buffer or elsewhere, folded into the state while the buffer is the ring |
| Sha2Stream.Sha2.Block | src/lib/libsum/sum-sha2.c:563-608 | any bytes, in any split: state and buffer are those of the longer message |
| Sha2Stream.Sha2.PadTail | src/lib/libsum/sum-sha2.c:651-674 | the 0x80 byte, the zeros and the extra transform if the length does not fit |
| Sha2Stream.Sha2.Done | src/lib/libsum/sum-sha2.c:637-679 | the final state is the fold over the message padded as FIPS 180-4 section 5.1 says |
| Sha2Stream.Digest | src/lib/libsum/sum-sha2.c:563-679 | for every message and every split into calls |
| MdStream.Md5CountIsExact | src/lib/libsum/sum-md5.c:279-282 | the two-word count is exact modulo 2^64 |
| MdStream.Sha1CountFallsBehind | src/lib/libsum/sum-sha1.c:214-216 | a call of any length leaves the low word right and the high word behind by the high bits of the length, unless the low word wraps |
| MdStream.LengthFieldIsRight | src/lib/libsum/sum-sha1.c:277-288 | the length field is that of the standard if and only if what the count lost is a multiple of 2^32 |
| MdStream.ShortCallsLoseNothing | src/lib/libsum/sum-sha1.c:214-216 | calls below 2^29 bytes lose nothing |
| MdStream.LongCallLoses | src/lib/libsum/sum-sha1.c:214-216 | a first call of 2^29 bytes loses a bit |
| MdStream.NeverEnds | src/lib/libsum/sum-md5.c:290 | if the bytes of a call and those in the buffer do not fit 32 bits together, the test of the block loop holds at every index it takes |
| MdStream.Md.FoldAll | src/lib/libsum/sum-md5.c:290-291 | otherwise the 32-bit index does not wrap, and the loop ends after the last whole block |
| MdStream.Md.Feed | src/lib/libsum/sum-md5.c:283-299 | any bytes: state and buffer are those of the longer message |
| MdStream.Md.Md5Block | src/lib/libsum/sum-md5.c:268-301 | the same with the count |
| MdStream.Md.Sha1Block | src/lib/libsum/sum-sha1.c:207-231 | the same with the count of SHA-1 and what it loses |
| MdStream.Md.Md5Done | src/lib/libsum/sum-md5.c:304-323 | padding by one call and the little-endian count: the fold over the padded message |
| MdStream.Md.Sha1Zeros | src/lib/libsum/sum-sha1.c:285-286 | the byte-at-a-time loop ends, after the least number of zeros |
| MdStream.Md.Sha1Done | src/lib/libsum/sum-sha1.c:270-288 | the fold over the message padded with the big-endian count |
| MdStream.Md5Digest | src/lib/libsum/sum-md5.c:268-330 | RFC 1321 sections 3.1 and 3.2 for every message and every split into calls that end |
| MdStream.Sha1Digest | src/lib/libsum/sum-sha1.c:207-288 | FIPS 180-4 section 5.1.1 for every message and every split into calls that end, with the length less by what the count lost |
| RevLine.ReversedIsLinesBackwards | src/lib/libcmd/revlib.c:28-31 | the reference is the lines of the region joined in opposite order, and in their own order they are the region |
| RevLine.LinesMean | src/lib/libcmd/revlib.c:28-31 | the lines are not empty, have a newline only at their end, and all but the last have one |
| RevLine.Search | src/lib/libcmd/revlib.c:77 | the backward search stops at the sentinel at the latest and finds the start of the line |
| RevLine.Locate | src/lib/libcmd/revlib.c:69-85 | a line start in the block, or the finding that the block has only a part of a line |
| RevLine.Block | src/lib/libcmd/revlib.c:64-96 | all lines that begin in a block are written, with what follows the block; what is left is counted |
| RevLine.Blocks | src/lib/libcmd/revlib.c:52-106 | all blocks, from the last to the one that holds the start, and the first line |
| RevLine.RevLine | src/lib/libcmd/revlib.c:50-107 | writes the lines of the region in reverse order if and only if the last byte is not a lone one taken for a newline; otherwise what it writes is exactly the lines with that byte replaced |
| RevLine.TerminatedIsRight | src/lib/libcmd/revlib.c:50-107 | a region that ends with a newline is never mistaken |
| RevLine.LoneByteExample | src/lib/libcmd/revlib.c:72-76 | three bytes in blocks of two that come out wrong |
| Crc.EightLinear | src/lib/libsum/sum-crc.c:196-199 | eight division steps are linear over exclusive-or |
| Crc.TableStep | src/lib/libsum/sum-crc.c:56 | shifting a byte out and adding its entry is eight single-bit division steps |
| Crc.RotateStep | src/lib/libsum/sum-crc.c:57 | the same in the rotate form |
| Crc.NextPartial | src/lib/libsum/sum-crc.c:181-190 | each bit of an index adds its multiple of the polynomial |
| Crc.NextMultiple | src/lib/libsum/sum-crc.c:176-178 | each multiple is the one before, shifted and reduced |
| Crc.RotateEntry | src/lib/libsum/sum-crc.c:179-190 | an entry of the rotate table is eight division steps of its index |
| Crc.ReflectedEntry | src/lib/libsum/sum-crc.c:194-199 | an entry of the reflected table is eight division steps of its index |
| Crc.Crc.constructor | src/lib/libsum/sum-crc.c:134-202 | the table filled in is that of the polynomial |
| Crc.Crc.FillRotate | src/lib/libsum/sum-crc.c:171-191 | all 256 entries, rotate form |
| Crc.Crc.FillReflected | src/lib/libsum/sum-crc.c:194-200 | all 256 entries, reflected form |
| Crc.Crc.Block | src/lib/libsum/sum-crc.c:234-289 | any bytes, 64 at a time and then the rest: bitwise division of all of them |
| Crc.Crc.Done | src/lib/libsum/sum-crc.c:311-337 | division goes on over the length, low-order byte first and as few as needed, or four bytes high-order first |
| Crc.CrcOf | src/lib/libsum/sum-crc.c:127-337 | for every polynomial, form, message and split: bitwise division of the message and the bytes of its length |
| Crc.LowFirstIsLength | src/lib/libsum/sum-crc.c:321-326 | the bytes fed in the rotate form, each times its power of 256, add up to the length, and the last is not zero |
| Crc.HighFirstIsLength | src/lib/libsum/sum-crc.c:327-332 | the four bytes fed in the reflected form, high-order byte first, are the length modulo 2^32 |
| Crc.CheckIsLinear | src/lib/libsum/sum-crc.c:234-289 | the checks of two messages of one length differ by the check of their difference |
| WordCount.AllWordsEnd | src/lib/libcmd/wclib.c:320-327 | words begun are words ended, and one more if a word is going on |
| WordCount.OneRun | src/lib/libcmd/wclib.c:293-313 | a run of characters that are neither newlines nor, for the locale, spaces is one word |
| WordCount.WordsSplit | src/lib/libcmd/wclib.c:293-313 | a newline or a space of the locale separates the counts of what is before and after it, so words are maximal runs |
| WordCount.NoWord | src/lib/libcmd/wclib.c:293-313 | a text of newlines and spaces has no word |
| WordCount.NewlinesAreCounted | src/lib/libcmd/wclib.c:255-270 | the newlines counted are the occurrences of that character |
| WordCount.LinesOfBuffer | src/lib/libcmd/wclib.c:255-270 | with the last byte overwritten the loop still counts exactly the newlines of the buffer |
| WordCount.SkipNewlines | src/lib/libcmd/wclib.c:298-308 | newlines in a row, stopping after the sentinel |
| WordCount.SkipSpaces | src/lib/libcmd/wclib.c:296-309 | spaces up to the first character of a word |
| WordCount.SkipWord | src/lib/libcmd/wclib.c:310-312 | a word up to the character that ends it |
| WordCount.WordsOfBuffer | src/lib/libcmd/wclib.c:274-323 | a buffer leaves newlines counted but for a last one, words counted when ended, and the kind of the last character |
| WordCount.Count | src/lib/libcmd/wclib.c:251-328 | for every text and every split into buffers: its length, its newlines and its words |
| CutText.Parse | src/lib/libcmd/cut.c:160-252 | the scan of the text gives the ranges its meaning says, or refuses it |
| CutText.ReadText | src/lib/libcmd/cut.c:160-252 | the text of any list of numbers and spans, either end of a span left out or with leading zeros, separated by commas or blanks, is read back as its ranges |
| CutText.ReadNumber | src/lib/libcmd/cut.c:250 | digits, leading zeros included, give their value |
| CutText.BlanksBefore | src/lib/libcmd/cut.c:164-167 | blanks passed over make no difference to the item after them |
| CutText.BadSpan | src/lib/libcmd/cut.c:171-179 | a span is refused if and only if it has a last number two or more below its first |
| CutText.ValueOfDecimal | src/lib/libcmd/cut.c:250 | the value of the decimal digits of a number is the number |
| CutText.BadCharacter | src/lib/libcmd/cut.c:245-249 | a text with any character but digits, blanks, commas and dashes is refused |
| CutText.SecondDash | src/lib/libcmd/cut.c:234-242 | so is one with a second dash in an item |
| CutText.ListFits | src/lib/libcmd/cut.c:137-186 | the items of any list without a zero have room in one int for each character of its text and two more |
| CutRanges.SortOrdered | src/lib/libcmd/cut.c:192 | sorting keeps the ranges and orders them |
| CutRanges.Merge | src/lib/libcmd/cut.c:194-220 | for every list of ranges: merging in place, the write index never passing the read index, leaves the ranges joined one after another up to the first that goes past every line, its length as an int, and an end mark behind |
| CutRanges.MergeAllKeeps | src/lib/libcmd/cut.c:194-220 | before the first range that goes past every line, what has been merged covers what was read, in order and with a gap between any two |
| CutRanges.KeptRanges | src/lib/libcmd/cut.c:194-220 | what is kept covers every byte of a line that the list covers, and no other |
| CutRanges.StepStores | src/lib/libcmd/cut.c:196-218 | one step of the merge, in wrapped arithmetic, stores the ranges merged with the one read, the last length as an int |
| CutRanges.MergeStep | src/lib/libcmd/cut.c:196-218 | the two branches on the list in place, and the stop at a length that is the end mark |
| CutRanges.WideStored | src/lib/libcmd/cut.c:203-206 | what is stored of a range that goes past every line is that range if it is not joined in the middle of another, and else has a negative length or one taken for the end mark |
| CutRanges.ClearExactly | src/lib/libcmd/cut.c:194-220 | it is not joined so if and only if no range that begins before the first such one reaches to it |
| CutRanges.BeginsAlike | src/lib/libcmd/cut.c:194-220 | behind a byte that is not covered, merging keeps where ranges begin |
| CutList.OverlapExample | src/lib/libcmd/cut.c:160-228 | the list 1-4,3- is stored with the length of its one range at the least int |
| CutRanges.Gaps | src/lib/libcmd/cut.c:223-228 | ranges rewritten in place as gaps and lengths, whatever the last length is and whatever follows it |
| CutRanges.GapsArePositive | src/lib/libcmd/cut.c:223-228 | every gap after the first is positive |
| CutList.CutInit | src/lib/libcmd/cut.c:128-230 | for the text of every list of numbers that fit: in one int for each character and two more, gaps and lengths of exactly the union of its ranges if none reaches into the first that goes past every line, and otherwise a last length that is negative or taken for the end mark; any other text is refused |
| CutList.Part | src/lib/libcmd/cut.c:338-354 | the bytes of one part of the line, copied or skipped, as far as the line goes |
| CutList.CutLine | src/lib/libcmd/cut.c:282-363 | the loop writes exactly the covered bytes, in order, and a delimiter unless something was written and a range touches the end of the line |
| CutList.NewlineOnceUnlessLost | src/lib/libcmd/cut.c:284-363 | a line with its newline gives its selected bytes and one newline, except if and only if bytes are selected, the newline is not, and a range begins right behind it |
| CutList.LostAlike | src/lib/libcmd/cut.c:194-363 | whether the newline is lost can be told from the ranges as they are given |
| CutList.LostExample | src/lib/libcmd/cut.c:160-363 | the list 1,5-4 on a line of three bytes: one byte is written and no newline |
| CutList.Cut | src/lib/libcmd/cut.c:160-363 | from the text of a list and a line to the text written: the bytes of the ranges given, in order, and the newline unless those ranges lose it |
| CutList.ListMeansItems | src/lib/libcmd/cut.c:160-230 | what the text of items selects are the bytes the items name, in order |
| TailLines.TailIsUnique | src/lib/libcmd/tail.c:155-207 | there is one offset from which the last lines begin |
| TailLines.ScanBlock | src/lib/libcmd/tail.c:195-200 | one block, scanned backwards |
| TailLines.TailPos | src/lib/libcmd/tail.c:155-207 | the start of the last lines, or of the file if there are fewer; an unended last line counts as one |
| TailLines.MovedIsAfter | src/lib/libcmd/tail.c:229 | moving records one by one moves the lines of the part of the input up to its last delimiter, and nothing behind that |
| TailLines.EndedIsEnded | src/lib/libcmd/tail.c:229 | that part ends with a delimiter or is empty, and is everything if and only if the last line is ended |
| TailLines.Fill | src/lib/libcmd/tail.c:224-238 | for any input: the two buffers hold the last full group of ended lines and what came after it |
| TailLines.Finish | src/lib/libcmd/tail.c:244-260 | the older buffer without as many lines as the newer one has, and the newer one |
| TailLines.PipeTail | src/lib/libcmd/tail.c:213-263 | for any input: what is written are the last lines of the part that ends |
| TailLines.PipeAgreesWithFile | src/lib/libcmd/tail.c:155-263 | pipe and file give the same text if and only if the last line is ended or no lines are wanted |
| TextMode.PairDropped | src/lib/libcmd/cksum.c:206-216 | a carriage return directly before a newline is dropped |
| TextMode.ReturnKept | src/lib/libcmd/cksum.c:206-216 | any other carriage return is kept |
| TextMode.TranslatedAppend | src/lib/libcmd/cksum.c:197-218 | a cut does not matter unless it is between the two |
| TextMode.HeldBack | src/lib/libcmd/cksum.c:200-205 | a return at the end of one buffer is decided by the first character of the next |
| TextMode.Buffer | src/lib/libcmd/cksum.c:199-217 | one buffer, with a last return held back |
| TextMode.Text | src/lib/libcmd/cksum.c:194-220 | for every text and every split what is summed is the translated text, a last lone return included |
| Comm.LineCompareIsStrcmp | src/lib/libcmd/comm.c:73-74 | common bytes, then length: the order of strings, equal only for equal lines |
| Comm.Conservation | src/lib/libcmd/comm.c:67-140 | columns 1 and 3 in output order are file 1 and columns 2 and 3 are file 2, for any inputs |
| Comm.Multiplicity | src/lib/libcmd/comm.c:67-140 | on sorted inputs a line is in column 3 as often as the lesser of its two multiplicities |
| Comm.WriteRow | src/lib/libcmd/comm.c:76-107 | the row and its tabs, for every choice of columns |
| Comm.WrittenMeans | src/lib/libcmd/comm.c:76-107 | a row is its line after one tab for each column shown before its own, and is not written if its column is not shown |
| Comm.RowsReadBack | src/lib/libcmd/comm.c:63-142 | with all columns the rows can be read back from the text, if no line has a newline or begins with a tab |
| Comm.Remaining | src/lib/libcmd/comm.c:112-140 | the rest of the file that is not used up |
| Comm.Comm | src/lib/libcmd/comm.c:63-142 | the text written is that of the three-way merge restricted to the wanted columns |
| AttSum.TotalOfPermutation | src/lib/libsum/sum-att.c:54-101 | the sum does not depend on the order of the bytes |
| AttSum.PlusTotal | src/lib/libsum/sum-att.c:81-88 | eight wrapping additions in eight lanes are one addition modulo 2^32 |
| AttSum.AttBlock | src/lib/libsum/sum-att.c:54-101 | eight lanes and then the rest: the plain byte sum modulo 2^32 |
| AttSum.FoldIsModulo65535 | src/lib/libsum/sum-att.c:119-126 | two folds give 16 bits, congruent modulo 65535, zero only for zero |
| AttSum.Att | src/lib/libsum/sum-att.c:54-126 | for every split into calls |
| AttSum.OrderDoesNotMatter | src/lib/libsum/sum-att.c:54-126 | runs over permutations of one another have the same result |
| Sha1Transform.ReverseReadsBigEndian | src/lib/libsum/sum-sha1.c:42-44 | the byte swap makes the big-endian word |
| Sha1Transform.CodedIsSpecified | src/lib/libsum/sum-sha1.c:173-193 | after a multiple of five rounds the names are back where they began, over the specified registers |
| MdStream.Md.Md5Count | src/lib/libsum/sum-md5.c:279-282 | the count after a call, exact if it was |
| MdStream.Md.Sha1Count | src/lib/libsum/sum-sha1.c:214-216 | the count after a call, behind by what this and earlier calls lose |
| RevLine.LastByteMatters | src/lib/libcmd/revlib.c:50-106 | files that differ in an unterminated last byte have different reversals, so the condition is exact |
| Crc.REightLinear | src/lib/libsum/sum-crc.c:176-178 | the same for the rotate form |
| CutList.NextPart | src/lib/libcmd/cut.c:353-356 | the next entry of the list is the next part of the line, or the end |
| CutText.RangesMean | src/lib/libcmd/cut.c:171-186 | an index is covered if and only if an item names the byte, open-ended spans included |
| TailLines.Temp.Write | src/lib/libcmd/tail.c:224-231 | writing over a rewound file leaves what was beyond |
| MergeJoin.File.Seek | src/lib/libcmd/join.c:719-724 | the scan goes on from the mark |
| Names.LessMeans | src/cmd/INIT/mamake.c:545-549 | one string is before another if and only if it is a proper prefix or has the smaller character at the first place where they differ |
| Names.StrcmpSign | src/cmd/INIT/mamake.c:545-549 | strcmp is zero only for equal names and changes sign with its arguments |
| Sha256.TransformBlock | src/lib/libsum/sum-sha2.c:482-554 | on a block of bytes in any memory, the ring itself included, the transform is the compression of FIPS 180-4 section 6.2.2 |
| Sha256.Hash | src/lib/libsum/sum-sha2.c:482-679 | every message in every split, the transform working in the buffer that is its ring: the hash computation of FIPS 180-4 sections 5.1.1 and 6.2, from bytes to the final state |
| Sha512.TransformBlock | src/lib/libsum/sum-sha2.c:847-917 | the same for blocks of 128 bytes and section 6.4.2 |
| Sha512.Hash | src/lib/libsum/sum-sha2.c:847-1040 | the same for FIPS 180-4 sections 5.1.2 and 6.4 |
| Sha1.TransformBlock | src/lib/libsum/sum-sha1.c:150-201 | the block copied to a workspace that is input and ring: the compression of FIPS 180-4 section 6.1.2 |
| Sha1.Hash | src/lib/libsum/sum-sha1.c:150-288 | every message in every split into calls that end: the hash computation of FIPS 180-4 sections 5.1.1 and 6.1 with the length the count has, which is right if what it lost is a multiple of 2^32 |
| Sequences.RunAppend | src/lib/libsum/sum-crc.c:234-289 | a fold over a message does not depend on where the message is cut |
| Sha256.CodedCompression | src/lib/libsum/sum-sha2.c:482-554 | schedule and rounds as coded, over the words of the host, make the compression of the standard over big-endian words |
| Sha512.CodedCompression | src/lib/libsum/sum-sha2.c:847-917 | the same for SHA-384 and SHA-512 |
| Sha1.HashInShortCalls | src/lib/libsum/sum-sha1.c:150-288 | in calls below 2^29 bytes it is the hash computation of the standard |

## Left out

- Input, output, processes, signals and memory failure: writes succeed, and a read gives what is asked for or
  what is left.
- Multibyte and locale branches of `wc`, `cut` and `join`, and comparison without case.
- mamake: parsing of Mamfile text, variable expansion, view paths, the options that print or keep going, and
  actions that fail.  A file has one time, so clearing a view path in `exec` has no counterpart.
- Rebuild.Mamake.ReadCommands: `bind`, `loop`, `setv` and `shim` lines.
- Rebuild.Mamake.ReadCommand: a `make` of a rule that is being made is fatal here at every strict level; below
  level 3 the code warns and reads the nested lines as part of the outer rule, whose block their `done` line
  then ends or, if it names another rule, fails.
- Rebuild.Mamake.Finish: targets named on the command line (`state.active`; every target is active here), the
  option that forces actions, and the attributes that the `done` line may still give below strict level 2.
- LeafOrder.Builder.ScanAll: the walk is one over a fixed sequence of rules.  With a view path the commands of an
  initializer make the code search the rules during the walk (`src/cmd/INIT/mamake.c:1396`), also for names ahead of
  it, so that it can pass over a rule; without one no callback searches them.
- LeafOrder.Builder.Recurse: the same.
- Dictionary.Dict.Walk: callbacks that search the dictionary; they are in `SearchingWalk`.
- LeafOrder.Builder.Run: the command a leaf runs is an entry in the log; its effects are not modelled.
- LeafOrder.Builder.Scan: a Mamfile is the list of names its `bind` lines give.
- MergeJoin.Join: only the default output; `-a`, `-v`, `-o`, `-i` and unseekable input are not modelled, and an
  offset is a record number.
- MergeJoin.File.GetRec: splitting a record into fields; a record comes with its key.
- Sha2Stream.Sha2.Transform: the round constants and initial values are parameters, here and throughout.
- Sha2Stream.Sha2.Done: turning the final state into digest bytes, adding up digests and wiping the state.
- MdStream.Md.Md5Block: the rounds of MD5, which have no schedule; calls that do not end.
- Sha1.Hash: calls that do not end.
- Crc.Crc.constructor: the name that selects polynomial and options is not parsed, and the constant table for
  POSIX `cksum` is not compared with the generated one.
- RevLine.RevLine: copying unseekable input to a temporary file first, after which the same loop runs.
- TailLines.PipeTail: counting bytes instead of lines.
- CutText.Parse: numbers that do not fit an `int`.
- CutList.CutInit: items with the number zero or a number that does not fit an `int`.
- CutRanges.Merge: what is written behind the first range that goes past every line is not stated; no line gets there.
- CutList.Cut: lists whose last length is spoilt, lines too long for an `int`, the option that suppresses delimiters,
  record lengths, multibyte characters and fields.
- Comm.Comm: a last line without a newline, which the code does not read.
- The lifecycle and totals of `src/lib/libsum/sumlib.c`, printing of sums, and the other sum methods: simple
  assignments that would only add easy members.
