# umf, modelled in Dafny

umf builds container images and bootable disk images. This project models the
parts of it in which correctness depends on more than one function at a time, and
proves what they promise, for every input, every choice the operating system can
make, and every interleaving.

| module | what it models |
|---|---|
| `Handshake` | the two-process handshake that applies the subordinate id maps of a rootless build |
| `FileTree` | `ADD` into a staging tree that an untrusted layer may have filled with symbolic links |
| `DiskWindow` | writing a disk image through partition windows, sparse copy, and the size of an in-process image |
| `ModuleLoader` | the multi-pass module loader in the generated boot script |
| `ModuleClosure` | the kernel modules an initramfs needs: the closure of the selection under `modules.dep` |
| `ArchiveOrder` | the order of the initramfs archive entries |
| `EgressPlan` | the address plans of builds and VMs, and the order in which blocks are tried |
| `EgressWorld` | what setups and teardowns of builds and VMs, as whole steps, do to the host they share, and whose veth or rules each name stands for |
| `EgressRuns` | what every run of them does to IP forwarding: who loses it and when, when it comes back, and what is left behind |
| `EgressNames` | the interface and table names as text, and the search of the table listing |
| `EgressHost` | the code itself, which sees nothing but those names, and the claim of a free /30 while others go on |
| `EgressRace` | the hand-over of `ip_forward`, one system call at a time, any number of builds and VMs interleaved |
| `Ssrf` | the address classifier and its agreement with the generated packet filter |
| `Subst` | `${VAR}` substitution |
| `Pae` | the DSSE pre-authentication encoding |
| `OciArchive` | saving refs of an OCI layout to an archive and loading them into another |

Code that changes state is written as classes and methods: `FileSystem`,
`DiskFile`, `PartitionView`, `HighWater`, `Source`, `Host`, `ImageLayout`. The
concurrent protocols are step systems over values, because their statements are
about interleavings and whole runs; the methods of `Host`, which work on names, are
proved to refine them. Failures of the operating system are arguments (`Os`,
`SetupEnv`, the arguments of actions), or are allowed by a constant `mayFault`; with
`mayFault` off, several methods are shown to succeed exactly when the data allows it.

## Where the code does less than its text says

Each point is stated by a lemma or a method, with the exact condition under which
the code does meet the promise.

- The handshake can block for ever: the parent stops reading after 8192 bytes of
  error text and then waits for the helper, which may still be writing. It cannot
  happen if and only if the text is at most the pipe capacity plus 8194 bytes, or,
  if a `read` may fail, at most the capacity minus one
  (`Handshake.DeadlockFreeIffTextBounded`).
- The comment above `restore_ip_forward` says the last teardown cannot disable
  forwarding under a running build. It can, in two ways. Listing the tables and
  writing the value are two calls, and a build that comes up between them loses
  forwarding (`EgressRace.CheckThenWriteCanBreak`). And tables are deleted by a name
  that comes from the block: when the kernel has removed a build's veth early and
  another build has taken the block, the first to leave deletes the table of both and
  sees none (`EgressRace.SharedBlockCanBreak`, `EgressRuns.ReusedBlockIsStruck`). In
  every interleaving of builds and VMs a live one is without forwarding at some point
  if and only if a write-back lands while one is live, or while one has written "1"
  and adds its table before anybody writes "1" again (`EgressRace.HarmedIffOvertaken`).
- Builds and VMs do not see each other's tables. A VM that stops writes its value
  back without looking, and the last build does not count VM tables: either can turn
  forwarding off under the other (`EgressRuns.VmStopsForwardingUnderBuild`,
  `EgressRuns.BuildStopsForwardingUnderVm`). With whole steps a live build or VM
  loses forwarding if and only if a teardown writes back while another network is
  live (`EgressRuns.HarmedIffStruck`); without VMs, and while veths last as long as
  their builds, it never happens (`EgressRuns.OrderlyBuildsKeepForwarding`).
- A setup is documented to roll back what it created. A rollback deletes by name, so
  it can take the table of a live build that lost its veth
  (`EgressRuns.FailedSetupTakesTable`, `EgressWorld.LosesExactlyByName`).
- The module documentation says a failed or finished build leaves no host network
  state behind. A build that turned forwarding on and leaves before another one does
  not restore it, and nobody else will (`EgressRuns.HolderLeavesFirst`,
  `EgressRuns.LeftOnForGood`). When everybody is gone, forwarding is what it was if and
  only if no step of the run gave the value up: a holder that left without writing
  back, a setup that turned forwarding on without having read it, or one that read it
  and failed without writing it back (`EgressRuns.ForwardingComesBackIff`). Veths and
  tables are all gone then if no call failed (`EgressRuns.CleanRunLeavesNothing`).
- The boot script's comment says that a module whose dependency comes later in the
  list still lands. It lands if and only if every dependency chain from it is loadable
  and has fewer than four such steps (`ModuleLoader.Boot`, `ModuleLoader.FourPassesSufficeIff`,
  `ModuleLoader.ReversedNeedsEveryPass`).
- `contains_placeholder` also says yes for text that no scope can change, such as
  an unclosed `${` (`Subst.PlaceholderNeedNotExpand`); text is fixed under every
  scope if and only if it holds no expandable token
  (`Subst.UnchangedIffNothingExpandable`).
- The filter drops exactly what the policy denies, except for 0.0.0.0, which the
  policy counts as loopback and no listed network contains
  (`Ssrf.DecisionMatchesFilter`).
- `collect_reachable` marks the config and layers of an image as seen, so a
  manifest that is both a layer of one image and walked itself may not be walked
  (`OciArchive.ManifestAsLayerIsNotWalked`). The collection is the closure if and only
  if every such manifest refers only to what was collected otherwise
  (`OciArchive.CollectionIsClosureIff`). That speaks of the collection itself, because
  what is skipped depends on the order of the walk; what can be told from the store
  alone, that no walked manifest is also a part of a walked image, is sufficient
  (`OciArchive.CollectionIsClosure`).
- `copy_dir_recursive` is documented to create missing parents of the destination;
  it refuses a destination whose parent is missing. A symbolic link of the source
  that meets a regular file is an error, too (`FileTree.CopyDir`, `Compatible`).

## Model

| member | source | states |
|---|---|---|
| `Handshake.RunKeepsInv` | crates/umf-engine/src/rootless.rs:190-313 | every step of either process keeps the invariant that ties descriptors held, pipe contents, `go` order, and what each side knows, so it holds along every run |
| `Handshake.OutcomeIsSafe` | crates/umf-engine/src/rootless.rs:190-297 | in every interleaving, a killed helper included: helpers start only after the unshare, `newgidmap` only after `newuidmap` succeeded; Ok only with both maps applied and the helper reaped; Err only in the host namespace with no helper started; every later failure ends the process; when no read fails and the helper is not killed, Ok if and only if both helpers succeeded |
| `Handshake.HelpersRunAfterUnshare` | crates/umf-engine/src/rootless.rs:208-231 | in every run, each `newuidmap` or `newgidmap` is preceded by the successful unshare |
| `Handshake.SentText` | crates/umf-engine/src/rootless.rs:222-288 | after a failure status, collected text, dropped text and pipe content together are a prefix of the helper's text, and all of it once a helper that was not killed is gone |
| `Handshake.ReadTakes` | crates/umf-engine/src/rootless.rs:277-284 | a read takes up to 512 bytes from the pipe; they are appended to the text, in order, if that was at most 8192 bytes long, and otherwise dropped and the reading ends |
| `Handshake.ReportedTextIsGenuine` | crates/umf-engine/src/rootless.rs:268-297 | the text the parent prints is a prefix of the helper's, and the whole of it when it is at most 8192 bytes, reads do not fail and the helper is not killed |
| `Handshake.StepDecreases` | crates/umf-engine/src/rootless.rs:208-297 | every step of either process lowers one measure |
| `Handshake.RunsAreBounded` | crates/umf-engine/src/rootless.rs:208-297 | no run is longer than 42 plus twice the length of the text |
| `Handshake.FullPipeIsRead` | crates/umf-engine/src/rootless.rs:277-288 | within the bound, a helper that is still sending never faces a full pipe that nobody reads |
| `Handshake.Progress` | crates/umf-engine/src/rootless.rs:208-297 | within the bound, every state that satisfies the invariant and is not final has an enabled step other than a kill |
| `Handshake.ReachDraining` | crates/umf-engine/src/rootless.rs:277-286 | the parent can have taken any number of bytes up to 8193 one at a time |
| `Handshake.LongTextCanBlock` | crates/umf-engine/src/rootless.rs:223-288 | past the bound a run exists after which parent and helper wait for each other |
| `Handshake.DeadlockFreeIffTextBounded` | crates/umf-engine/src/rootless.rs:208-297 | no reachable state blocks until the helper is killed if and only if the text is within the bound, whether or not kills can happen |
| `FileTree.ResolveReal` | crates/umf-builder/src/fsutil.rs:95-110 | path resolution along real directories ends at the very path given, so no link redirects it |
| `FileTree.PlainJoinEscapes` | crates/umf-builder/src/fsutil.rs:102-106 | without the descent, a name joined below a link to the root resolves outside the staging tree |
| `FileTree.LookupMissing` | crates/umf-builder/src/fsutil.rs:55-56 | with a directory missing on the way and no link above, a path does not resolve |
| `FileTree.FileSystem.RemoveExistingSymlink` | crates/umf-builder/src/fsutil.rs:84-89 | for every path: where it resolves, the tree afterwards is the old one without a link there, otherwise it is unchanged, and unchanged on failure |
| `FileTree.PiecesJoin` | crates/umf-builder/src/fsutil.rs:113-124 | splitting a path at slashes loses nothing |
| `FileTree.NormalsConcat` | crates/umf-builder/src/fsutil.rs:111-124 | the components of two lists of pieces, one after the other, are the components of the first and then of the second |
| `FileTree.NormalsOne` | crates/umf-builder/src/fsutil.rs:114-116 | an empty piece and `.` are no component, every other piece is one |
| `FileTree.ComponentsOfJoined` | crates/umf-builder/src/fsutil.rs:111-124 | `a/b` has the components of `a` followed by those of `b`, and a `..` if and only if one of them has |
| `FileTree.ComponentsOfNames` | crates/umf-builder/src/fsutil.rs:111-124 | plain names joined by slashes are their own components, in that order |
| `FileTree.EnterDir` | crates/umf-builder/src/fsutil.rs:135-148 | one step of the descent: a link or a file in the way is reported and changes nothing, a missing directory is made |
| `FileTree.Descend` | crates/umf-builder/src/fsutil.rs:125-150 | the exact tree after a descent, in success and at every point of failure |
| `FileTree.ContainedWritePath` | crates/umf-builder/src/fsutil.rs:111-151 | a `..` is refused, exactly then and with no change; a path written as plain names joined by slashes is never refused and resolves to those names, in order, below the root; otherwise the tree is the old one plus the missing directories, minus a link at the leaf |
| `FileTree.WithDirsFrame` | crates/umf-builder/src/fsutil.rs:125-150 | making the directories changes no path that was there |
| `FileTree.DescentIsContained` | crates/umf-builder/src/fsutil.rs:111-151 | in every outcome a changed path is a directory made on the way down or the removed link at the leaf |
| `FileTree.StoppedIsImpassable` | crates/umf-builder/src/fsutil.rs:135-145 | a descent is stopped by the tree only where something other than a directory stands |
| `FileTree.LaterWriteStaysPut` | crates/umf-builder/src/fsutil.rs:99-110 | after success every prefix is a real directory and the leaf no link, so a later write that follows links lands on that path alone |
| `FileTree.CopyLeaf` | crates/umf-builder/src/fsutil.rs:68-74 | a file or link replaces what is at the path without following it, exactly when the kinds allow |
| `FileTree.CopyEntry` | crates/umf-builder/src/fsutil.rs:58-75 | one round of the loop extends the overlay by one entry, or stops with only copies changed |
| `FileTree.CopyEntries` | crates/umf-builder/src/fsutil.rs:58-77 | the overlay is complete after the loop, in whatever order entries are listed |
| `FileTree.CopyDir` | crates/umf-builder/src/fsutil.rs:41-78 | on success the tree is exactly the old one overlaid by the source; it succeeds only if nothing clashes and the parent exists, and then always unless a call faults; on failure only paths that copies go to differ |
| `FileTree.OverlayLeaf` | crates/umf-builder/src/fsutil.rs:68-74 | laying one leaf over the half-merged tree is one more step of the overlay of the original tree |
| `FileTree.OverlayChild` | crates/umf-builder/src/fsutil.rs:63-67 | merging a child of the half-merged tree is one more step of the overlay of the original tree |
| `FileTree.OverlayComplete` | crates/umf-builder/src/fsutil.rs:58-78 | with every child done the overlay is the merged tree |
| `FileTree.ChildMergeable` | crates/umf-builder/src/fsutil.rs:44-67 | a child clashes in the half-merged tree exactly as it would have at the start |
| `FileTree.SourceUntouched` | crates/umf-builder/src/fsutil.rs:58-76 | merging never changes the source |
| `FileTree.AddToStaging` | crates/umf-builder/src/bootable/mod.rs:957-962 | whatever links the staging tree holds, and whether or not the call succeeds, nothing outside it changes; on success the tree is exactly the prepared one with the source merged or written; without faults it succeeds if and only if nothing is in the way |
| `DiskWindow.PartitionView.constructor` | crates/umf-compile/src/partition.rs:559-566 | a new view stands for the window's bytes at position 0 |
| `DiskWindow.PartitionView.Read` | crates/umf-compile/src/partition.rs:574-586 | a read returns exactly the bytes of the file from window start plus position on, never past the window, and moves the position by their number; it is empty if and only if nothing was asked or the position is at the end; with wrapping 64-bit arithmetic it is the read of a standalone device |
| `DiskWindow.PartitionView.Write` | crates/umf-compile/src/partition.rs:588-607 | exactly the written prefix of the buffer replaces the file's bytes from window start plus position on, and no other byte changes; the window is full if and only if the position is at its end or nothing is offered; it is the write of a standalone device |
| `DiskWindow.PartitionView.Seek` | crates/umf-compile/src/partition.rs:609-625 | with wrapping `i64` arithmetic, the position becomes the offset counted from start, end or position, if and only if that lies between 0 and 2^63 - 1; otherwise it is refused and the position kept |
| `DiskWindow.ReadBack` | crates/umf-compile/src/partition.rs:574-625 | what a write put into the window, a seek back and a read return |
| `DiskWindow.PartitionView.RunOps` | crates/umf-compile/src/partition.rs:544-625 | any sequence of operations, each of which `Read`, `Write` and `Seek` state in terms of the file, gives the replies and contents of the same sequence on a standalone device, and leaves the rest of the file |
| `DiskWindow.RunSnoc` | crates/umf-compile/src/partition.rs:574-625 | a run of the device extended by one operation |
| `DiskWindow.HighWater.constructor` | crates/umf-compile/src/filesystem.rs:324-330 | the mark starts at 0, and the tracked position is right if the output stands at 0 |
| `DiskWindow.HighWater.Write` | crates/umf-compile/src/filesystem.rs:337-348 | the mark becomes the larger of itself and where the write ended |
| `DiskWindow.HighWater.Seek` | crates/umf-compile/src/filesystem.rs:350-355 | a seek keeps the mark and, when it succeeds, makes the tracked position right |
| `DiskWindow.HighWater.RunOps` | crates/umf-compile/src/filesystem.rs:317-355 | after any run of writes and seeks the mark is the largest end of a successful write and fits the window |
| `DiskWindow.WriteEndsSnoc` | crates/umf-compile/src/filesystem.rs:337-348 | one more operation adds its own end, if it wrote |
| `DiskWindow.WritesStayBelowMark` | crates/umf-compile/src/filesystem.rs:317-335 | nothing at or past the mark was changed, and no write ends past the device |
| `DiskWindow.WriteSquashfs` | crates/umf-compile/src/filesystem.rs:176-197 | the reported size is the true end of the image; a failing writer is reported; an image is too large exactly above the capacity, which over a window of that capacity cannot be |
| `DiskWindow.ReadFull` | crates/umf-compile/src/filesystem.rs:431-440 | the buffer holds the next bytes of the source, full unless it ends, whatever the split into reads |
| `DiskWindow.WriteAll` | crates/umf-compile/src/filesystem.rs:415-416 | however little each write moves, all of the chunk lands at the position, or the device is too short for it |
| `DiskWindow.CopyHole` | crates/umf-compile/src/filesystem.rs:405-410 | a chunk of zeros only lengthens the pending skip |
| `DiskWindow.HoleMeaning` | crates/umf-compile/src/filesystem.rs:393-408 | a byte is in a hole if and only if its 65536-byte chunk, or the shorter last one, is all zeros |
| `DiskWindow.DataBytesMeaning` | crates/umf-compile/src/filesystem.rs:396-417 | the count of bytes written is the number of bytes in no hole |
| `DiskWindow.CopyData` | crates/umf-compile/src/filesystem.rs:411-416 | a chunk with data lands behind the pending skip |
| `DiskWindow.PlaceChunk` | crates/umf-compile/src/filesystem.rs:405-416 | one round of the loop advances the copy by one chunk, or shows that the data does not fit |
| `DiskWindow.CopySkippingHoles` | crates/umf-compile/src/filesystem.rs:389-423 | every non-hole byte is copied, hole bytes keep what was there, the count is that of the non-hole chunks and independent of the split into reads; without faults, the final flush included, it succeeds if and only if those bytes fit |
| `DiskWindow.SparseIsDenseIff` | crates/umf-compile/src/filesystem.rs:378-423 | skipping holes equals a plain copy if and only if the window was zero wherever a hole lands |
| `DiskWindow.CopiedOntoZeros` | crates/umf-compile/src/filesystem.rs:378-423 | over a zero window the result is the source, padded or cut to the window |
| `DiskWindow.ProjectDisk` | crates/umf-compile/src/partition.rs:183-222 | after any activity in the ESP window, the root window equals the image padded with zeros, the ESP window holds what its operations wrote, and no other byte changed; a failing ESP writer ends it with the root window untouched |
| `DiskWindow.WindowsApart` | crates/umf-compile/src/partition.rs:588-607 | writing through one window leaves a disjoint one alone |
| `ModuleLoader.Pass` | crates/umf-builder/src/initrd.rs:565-579 | one pass over the list, and its flag is off exactly when nothing new was loaded |
| `ModuleLoader.Boot` | crates/umf-builder/src/initrd.rs:565-579 | despite the early exit, a module is loaded if and only if every dependency chain from it is loadable and has fewer than four steps to a later module |
| `ModuleLoader.Fixpoint` | crates/umf-builder/src/initrd.rs:565-579 | a pass that loads nothing new ends all change, so the early exit loses nothing |
| `ModuleLoader.LoadedStep` | crates/umf-builder/src/initrd.rs:565-579 | a module is loaded after k passes if and only if its earlier dependencies are by pass k and its later ones by pass k - 1 |
| `ModuleLoader.WithinPassesStep` | crates/umf-builder/src/initrd.rs:565-579 | the same recurrence holds for the count of later steps over all chains |
| `ModuleLoader.LoadedIffWithinPasses` | crates/umf-builder/src/initrd.rs:565-579 | loaded after k passes if and only if the pass number is at most k, also on cyclic and missing dependencies |
| `ModuleLoader.FourPassesSufficeIff` | crates/umf-builder/src/initrd.rs:565-579 | four passes load all that any number would if and only if every module whose chains have a bounded number of later steps has none with four or more, which a fifth pass would show |
| `ModuleLoader.ReversedNeedsEveryPass` | crates/umf-builder/src/initrd.rs:565-579 | a chain listed in the wrong order gains one module a pass, so five modules already need five |
| `ModuleClosure.StemIgnoresCompression` | crates/umf-builder/src/initrd.rs:537-546 | all four file suffixes give the same stem |
| `ModuleClosure.KeysAgreeIff` | crates/umf-builder/src/initrd.rs:528-535 | two names have one key if and only if they differ at most in `-` against `_`; a key holds no `-`, and a name without one is its own key |
| `ModuleClosure.KeyOfFile` | crates/umf-builder/src/initrd.rs:533-546 | a file with one of the four suffixes goes by its name without it, whatever its directory, and no other file is a module |
| `ModuleClosure.AlikeSelectionsAgree` | crates/umf-builder/src/initrd.rs:474-495 | selections that differ only in `-` against `_` have the same closure |
| `ModuleClosure.FilesByStem` | crates/umf-builder/src/initrd.rs:454-469 | the map holds the last file of every stem |
| `ModuleClosure.LastByStemIsLast` | crates/umf-builder/src/initrd.rs:454-469 | every module file's stem leads to that file or a later one |
| `ModuleClosure.LastByStemIsSound` | crates/umf-builder/src/initrd.rs:454-469 | every stem leads to a module file of the tree that has it |
| `ModuleClosure.PathLessTotal` | crates/umf-builder/src/initrd.rs:471-495 | the order of the result set is total and strict |
| `ModuleClosure.PathLessTransitive` | crates/umf-builder/src/initrd.rs:471-495 | the order of the result set is transitive |
| `ModuleClosure.StrLessMeaning` | crates/umf-builder/src/initrd.rs:471-473 | names are ordered by their first difference, and a proper prefix comes first |
| `ModuleClosure.PathLessMeaning` | crates/umf-builder/src/initrd.rs:471-473 | a common prefix of two paths does not matter, then the first components that differ decide, and a proper prefix comes first |
| `ModuleClosure.Insert` | crates/umf-builder/src/initrd.rs:487-489 | insertion keeps the set sorted and without duplicates |
| `ModuleClosure.SkipKeeps` | crates/umf-builder/src/initrd.rs:480-489 | a stem without a file, or taken before, can be dropped from the queue |
| `ModuleClosure.TakeKeeps` | crates/umf-builder/src/initrd.rs:487-492 | taking a stem and queueing its dependencies keeps everything justified and nothing forgotten |
| `ModuleClosure.WalkFinishes` | crates/umf-builder/src/initrd.rs:480-493 | whatever the worklist still owes is paid when it ends, also on cycles |
| `ModuleClosure.WalkIsReachable` | crates/umf-builder/src/initrd.rs:480-493 | the worklist sees exactly the stems reachable from the ones it starts with |
| `ModuleClosure.RecordedIsClosure` | crates/umf-builder/src/initrd.rs:471-494 | the sorted files of what it saw are the closure |
| `ModuleClosure.ClosedHoldsWalk` | crates/umf-builder/src/initrd.rs:471-494 | a set closed under dependencies holds the end of every dependency walk |
| `ModuleClosure.Resolve` | crates/umf-builder/src/initrd.rs:471-494 | the worklist ends, also on cycles, with exactly the files of the stems reachable through stems on disk, sorted |
| `ModuleClosure.ClosureUnique` | crates/umf-builder/src/initrd.rs:471-495 | that result is unique, so the order of the worklist does not matter |
| `ModuleClosure.SortPaths` | crates/umf-builder/src/initrd.rs:446-450 | without dependency data the selection comes back sorted, duplicates kept |
| `ModuleClosure.WithDependencies` | crates/umf-builder/src/initrd.rs:444-495 | the closure, under keys in which `-` and `_` are one, over the last file of each key when `modules.dep` has any entry; the sorted selection otherwise |
| `ArchiveOrder.WalkAncestors` | crates/umf-builder/src/initrd.rs:264-276 | the chain of directories from below the root to the path, outermost first |
| `ArchiveOrder.LineageMember` | crates/umf-builder/src/initrd.rs:264-276 | the chain holds exactly the prefixes below the root |
| `ArchiveOrder.PushHead` | crates/umf-builder/src/initrd.rs:143-174 | the fixed entries, in order, with the modules prefix the only directory at or below itself |
| `ArchiveOrder.PushAncestors` | crates/umf-builder/src/initrd.rs:175-186 | exactly the missing directories are pushed, each after its parent |
| `ArchiveOrder.GenerateEntries` | crates/umf-builder/src/initrd.rs:143-210 | for any module paths: the fixed directories, busybox and its six links are there by name; every parent directory comes first, no directory comes twice, and below `lib/modules/<release>` there are exactly the modules and the directories on the way |
| `EgressPlan.ContainerRangesApart` | crates/umf-networking/src/lib.rs:335-349 | a /30 stays in its /16 and in 32 bits, and two are apart unless base and block agree; `ContainerAddress` gives the octets |
| `EgressPlan.ContainerAddress` | crates/umf-networking/src/lib.rs:335-349 | octet by octet: the /30 of block b under base x.y starts at x.y.(4b / 256).(4b % 256), the container has the address two above it, and the last is three above |
| `EgressPlan.VmRangesApart` | crates/umf-networking/src/vmnet.rs:83-118 | VM /29s are apart if and only if the ids differ modulo 8192, and meet a /30 if and only if that was given 10.70 and lies in it; `VmAddress` gives the octets |
| `EgressPlan.VmAddress` | crates/umf-networking/src/vmnet.rs:83-118 | octet by octet: the /29 of a VM starts at 10.70.(8n / 256).(8n % 256), with n the id modulo 8192, and its last address is seven above |
| `EgressPlan.WalkMeetsEachBlockOnce` | crates/umf-networking/src/lib.rs:180-183 | the walk starts at the pid modulo 16384, goes up by one, from 16383 to 0, and meets each block exactly once |
| `EgressWorld.RunKeepsGenuine` | crates/umf-networking/src/lib.rs:519-564 | in every run of builds and VMs, `ip_forward` is "1" or the host's own value, and only that value is ever held |
| `EgressWorld.SetupHoldsWhatItMet` | crates/umf-networking/src/lib.rs:219-282 | a setup that succeeds adds exactly its own veth and rules, turns forwarding on, and holds the value it met unless that was "1" or unreadable |
| `EgressWorld.FailedSetupIsUndone` | crates/umf-networking/src/lib.rs:219-282 | what a failed setup leaves, by how far it came and which calls of the rollback succeed |
| `EgressWorld.VmHoldsWhatItMet` | crates/umf-networking/src/vmnet.rs:315-385 | the same for a VM that comes up |
| `EgressWorld.FailedVmIsUndone` | crates/umf-networking/src/vmnet.rs:315-385 | and for one that does not |
| `EgressRuns.LeftOnForGood` | crates/umf-networking/src/lib.rs:530-564 | once forwarding is on and no network holds a value, it stays on in every run |
| `EgressRuns.LeftOnIffStranded` | crates/umf-networking/src/lib.rs:519-564 | over every run, forwarding is on with nobody to restore it if and only if some step gave the value up, by a guard in the state before it |
| `EgressRuns.ForwardingComesBackIff` | crates/umf-networking/src/lib.rs:23-23 | for every run after which nobody is live, forwarding is the host's value if and only if no step gave it up |
| `EgressRuns.CleanRunLeavesNothing` | crates/umf-networking/src/lib.rs:23-23 | in every run without a failing call each veth and table belongs to a live network, so none is left when all are gone |
| `EgressWorld.RunKeepsNames` | crates/umf-networking/src/lib.rs:394-411 | in every run an interface name exists once, because a setup that meets it is refused |
| `EgressWorld.VethsOwnTheirAddresses` | crates/umf-networking/src/lib.rs:335-349 | in every run the /30s of two existing veths are apart, whatever bases their builds were given |
| `EgressWorld.SharedBlockLacksVeth` | crates/umf-networking/src/lib.rs:213-222 | two live builds that both have their veth have different blocks and disjoint /30s |
| `EgressWorld.LosesExactlyByName` | crates/umf-networking/src/lib.rs:262-311 | a live build loses its rules or its veth in a step if and only if that step deletes the table or veth of its block: a teardown or a rollback of another build with the block, or the kernel |
| `EgressRuns.RunKeepsTables` | crates/umf-networking/src/lib.rs:242-311 | in every run, failed setups included, forwarding is on under every `umf-nat` table unless a VM writes back |
| `EgressRuns.RunKeepsOneHolder` | crates/umf-networking/src/lib.rs:519-564 | in every run, builds and VMs together, one network at most holds a value to restore, and forwarding is on while it does |
| `EgressRuns.StepHarmsIffStrikes` | crates/umf-networking/src/lib.rs:284-311 | one step leaves a live network without forwarding if and only if it is a teardown that writes back while another network is live |
| `EgressRuns.HarmedIffStruck` | crates/umf-networking/src/lib.rs:284-311 | over every run of builds and VMs, some live network is without forwarding at some point if and only if some teardown of the run writes back while another network is live |
| `EgressRuns.StruckBuildsLackRules` | crates/umf-networking/src/lib.rs:546-554 | a build whose forwarding another build takes has no rules left at that point |
| `EgressRuns.HarmNeedsTakenTable` | crates/umf-networking/src/lib.rs:262-311 | without VMs, a live build loses forwarding only in a run in which some step deleted the table of a living build by name |
| `EgressRuns.OrderlyRunKeepsLeases` | crates/umf-networking/src/lib.rs:219-311 | while the kernel removes no veth of a live build, every live build keeps its own veth and its own rules, through every teardown and rollback of others |
| `EgressRuns.OrderlyBuildsKeepForwarding` | crates/umf-networking/src/lib.rs:284-311 | then, without VMs, no live build is ever without forwarding |
| `EgressRuns.ReusedBlockIsStruck` | crates/umf-networking/src/lib.rs:679-701 | for any two builds and any block: after the first lost its veth, its teardown takes the second's table, veth and forwarding |
| `EgressRuns.FailedSetupTakesTable` | crates/umf-networking/src/lib.rs:262-268 | a failed setup takes the table of a live build with the same block |
| `EgressRuns.VmStopsForwardingUnderBuild` | crates/umf-networking/src/vmnet.rs:629-661 | a VM up before a build and down during it leaves the build's table without forwarding |
| `EgressRuns.BuildStopsForwardingUnderVm` | crates/umf-networking/src/lib.rs:546-554 | a build up before a VM and down during it leaves the VM's table without forwarding |
| `EgressRuns.HolderLeavesFirst` | crates/umf-networking/src/lib.rs:298-308 | with no failing call, two builds come and go, the holder first, and forwarding is left on for good |
| `EgressNames.BuildNamesAreInjective` | crates/umf-networking/src/lib.rs:220-222 | interface and table names of different blocks differ |
| `EgressNames.NamesSpelt` | crates/umf-networking/src/lib.rs:220-222 | the names as the kernel and nft see them |
| `EgressNames.VmNamesAreInjective` | crates/umf-networking/src/vmnet.rs:317-321 | so do those of VMs with different numbers |
| `EgressNames.KindsHaveOwnNames` | crates/umf-networking/src/vmnet.rs:317-321 | no name of a build is a name of a VM |
| `EgressNames.LineShows` | crates/umf-networking/src/lib.rs:546-554 | a line of the listing holds the marker if and only if the table's name does |
| `EgressNames.VmTableIsNotNat` | crates/umf-networking/src/vmnet.rs:321-321 | the name of a VM's table never holds the marker |
| `EgressNames.ListedIffRulesRemain` | crates/umf-networking/src/lib.rs:546-554 | the listing holds the marker if and only if some build's rules remain, whatever VM tables there are |
| `EgressNames.RemoveTable` | crates/umf-networking/src/lib.rs:645-648 | deleting a table by name is the removal of the rules of every build with the block, and of no other |
| `EgressNames.RemoveLink` | crates/umf-networking/src/lib.rs:679-701 | deleting an interface by name is the removal of the block's veth, whoever made it |
| `EgressHost.Host.UmfNatTablePresent` | crates/umf-networking/src/lib.rs:546-554 | searching the listing, in whatever order it prints, answers whether rules of a build remain, and yes when there is no listing |
| `EgressHost.Host.EnableForwarding` | crates/umf-networking/src/lib.rs:519-523 | forwarding is on, and what is to be restored is the value before, unless that was "1" or unreadable |
| `EgressHost.Host.RestoreForward` | crates/umf-networking/src/lib.rs:530-539 | by the text search, the value goes back exactly when rules of no build remain and the calls succeed; a change of forwarding means no table carries the marker |
| `EgressHost.Host.SetupEgress` | crates/umf-networking/src/lib.rs:270-282 | container side, forwarding and rules in this order, and what is to be rolled back when one of them fails |
| `EgressHost.Host.SetupBlock` | crates/umf-networking/src/lib.rs:219-268 | working on names, refines the setup of the run theorems; refused if and only if the interface name exists; afterwards the guard's names exist, its container address has the four octets of the block under the base, and no other interface or table was touched |
| `EgressHost.Host.TeardownNet` | crates/umf-networking/src/lib.rs:284-311 | working on the names in the guard, refines the teardown of the run theorems, which takes the rules and veth of every build with the block; no other name is touched, and forwarding changes only when no table carries the marker |
| `EgressHost.Host.SetupVm` | crates/umf-networking/src/vmnet.rs:315-385 | working on names, refines the VM setup of the run theorems; up only if the interface name was free; no name of a build is touched |
| `EgressHost.Host.DropVm` | crates/umf-networking/src/vmnet.rs:390-408 | working on the names in the guard, refines the VM teardown of the run theorems; exactly its own names go |
| `EgressHost.Host.RunSteps` | crates/umf-networking/src/lib.rs:219-311 | any sequence of steps carried out on names is the run of the theorems |
| `EgressHost.Host.Claim` | crates/umf-networking/src/lib.rs:171-196 | while other builds act between attempts, the first block whose veth is free when tried is set up with its own veth, rules and container address; another error stops the walk; no free subnet if and only if all 16384 were refused |
| `EgressHost.EveryBlockWasTaken` | crates/umf-networking/src/lib.rs:171-196 | after no free subnet, every block of the pool had its veth when it was tried |
| `EgressRace.RunKeepsGenuine` | crates/umf-networking/src/lib.rs:519-564 | in every interleaving of single calls of builds and VMs, `ip_forward` is "1" or the host's own value, and only that value is ever held or written back |
| `EgressRace.PunctualRunsForward` | crates/umf-networking/src/lib.rs:519-539 | in every interleaving in which no value is written back while somebody is live, has written "1" or has a `umf-nat` table, forwarding is on under every live build and VM and every such table |
| `EgressRace.AddingWasEnabled` | crates/umf-networking/src/lib.rs:519-523 | whoever adds its table before anybody writes "1" had written "1" before |
| `EgressRace.HarmedIffOvertaken` | crates/umf-networking/src/lib.rs:530-539 | over every interleaving of builds and VMs, a live one is without forwarding at some point if and only if a write-back lands while one is live, or while one has written "1" and adds its table before anybody writes "1" again |
| `EgressRace.CheckThenWriteCanBreak` | crates/umf-networking/src/lib.rs:532-536 | for any two builds and any initial value but "1", a run without a failing call ends with forwarding off under a live build and its table |
| `EgressRace.SharedBlockCanBreak` | crates/umf-networking/src/lib.rs:546-554 | the same for two builds with one block, and there with no table left |
| `EgressRace.VmCanBreak` | crates/umf-networking/src/vmnet.rs:629-661 | for any VM and build, a run without a failing call in which the VM writes back under the build |
| `EgressRace.AloneLeavesNoTrace` | crates/umf-networking/src/lib.rs:242-311 | in every run of one build or VM alone to its end, whether or not its table was added, the `umf-nat` tables are as before, and forwarding is if and only if it was read, or not turned on, or on from the start |
| `Ssrf.V4PrefixMeaning` | crates/umf-networking/src/ssrf.rs:100-110 | membership in the listed IPv4 networks, bit by bit, is the octet test |
| `Ssrf.V6PrefixMeaning` | crates/umf-networking/src/ssrf.rs:206-222 | the same for the IPv6 networks |
| `Ssrf.ClassifyIsMembership` | crates/umf-networking/src/ssrf.rs:171-222 | the classifier answers a category if and only if the address belongs to it, mapped addresses as IPv4 |
| `Ssrf.ClassifyV4IsMembership` | crates/umf-networking/src/ssrf.rs:183-203 | the same for IPv4 alone |
| `Ssrf.CategoriesAreDisjoint` | crates/umf-networking/src/ssrf.rs:171-222 | no address belongs to two categories, so the order of the tests does not matter |
| `Ssrf.MappedDecidesAsV4` | crates/umf-networking/src/ssrf.rs:171-180 | an IPv4-mapped IPv6 address is decided as its IPv4 form, under every policy |
| `Ssrf.DeniedFromMeaning` | crates/umf-networking/src/ssrf.rs:329-335 | an address is in the denied networks if and only if it is in a network of a denied category |
| `Ssrf.DecideMeaning` | crates/umf-networking/src/ssrf.rs:342-347 | an address is denied with a category if and only if it belongs to it and the policy denies it |
| `Ssrf.DecisionMatchesFilter` | crates/umf-networking/src/lib.rs:620-642 | for every policy, policy and filter agree on an address if and only if it is not 0.0.0.0 or loopback is allowed |
| `Subst.PrintInvertsTokenise` | crates/umf-core/src/subst.rs:40-102 | printing the tokens of any text gives the text back |
| `Subst.TokeniseInvertsPrint` | crates/umf-core/src/subst.rs:40-102 | tokenising what canonical tokens print gives the tokens back |
| `Subst.TokeniseIsCanonical` | crates/umf-core/src/subst.rs:40-102 | the tokens of any text are canonical, so the two are inverse |
| `Subst.ReadBraced` | crates/umf-core/src/subst.rs:54-65 | the name up to the first closing brace, or the rest when there is none |
| `Subst.ReadBare` | crates/umf-core/src/subst.rs:79-88 | the longest name at the position |
| `Subst.SubstituteOne` | crates/umf-core/src/subst.rs:47-100 | one round of the loop emits the expansion of exactly the next token; `BareIsReplaced`, `BracedIsReplaced`, `TextIsKept` and `UnclosedIsKept` say what that is |
| `Subst.Substitute` | crates/umf-core/src/subst.rs:40-102 | the output is the tokens with every known, well-formed name replaced once, and values not scanned again; the same four lemmas spell it out |
| `Subst.BareIsReplaced` | crates/umf-core/src/subst.rs:79-95 | `$NAME` before anything that cannot continue the name becomes the value, and stays when the name is unknown; names are letters, digits and `_`, not starting with a digit |
| `Subst.BracedIsReplaced` | crates/umf-core/src/subst.rs:54-76 | `${NAME}` becomes the value if and only if the name is well-formed and known, and stays otherwise |
| `Subst.TextIsKept` | crates/umf-core/src/subst.rs:48-99 | a character other than a dollar is kept, and so is a dollar that starts no name and no brace |
| `Subst.UnclosedIsKept` | crates/umf-core/src/subst.rs:54-75 | `${` without a closing brace is kept to the end of the text |
| `Subst.NoDollarIsText` | crates/umf-core/src/subst.rs:40-44 | text without a dollar is unchanged under every scope |
| `Subst.EmptyScopeIsIdentity` | crates/umf-core/src/subst.rs:40-102 | the empty scope changes nothing |
| `Subst.UnchangedIffNothingExpandable` | crates/umf-core/src/subst.rs:40-121 | text is unchanged under every scope if and only if it has no expandable token |
| `Subst.ContainsPlaceholder` | crates/umf-core/src/subst.rs:110-121 | the quick test holds if and only if some token is not plain text, so it never misses an expandable one |
| `Subst.PlaceholderNeedNotExpand` | crates/umf-core/src/subst.rs:110-121 | the quick test can hold where nothing is expandable |
| `Decimals.DecimalParses` | src/cli/attest.rs:222-233 | a printed length is a decimal without leading zero and parses back |
| `Decimals.DecimalIsUnique` | src/cli/attest.rs:222-233 | every such decimal is the print of its value |
| `Decimals.DigitFromRight` | src/cli/attest.rs:222-233 | the i-th digit from the right is the number divided by ten to the i, modulo ten |
| `Decimals.DecimalIsInjective` | src/cli/attest.rs:222-233 | different lengths print differently |
| `Pae.DssePae` | src/cli/attest.rs:222-233 | the bytes appended step by step are "DSSEv1", length of the type, type, length of the body and body, with single spaces between, and decode to type and body |
| `Pae.DecodeInvertsPae` | src/cli/attest.rs:222-233 | type and body are recovered from the encoding, whatever bytes they hold |
| `Pae.PaeInvertsDecode` | src/cli/attest.rs:222-233 | the decoder accepts nothing but encodings |
| `Pae.PaeIsInjective` | src/cli/attest.rs:222-233 | equal encodings have equal type and body |
| `OciArchive.CollectIsSound` | crates/umf-oci/src/registry/layout.rs:501-536 | the walk collects nothing outside the closure |
| `OciArchive.ReferencesMeaning` | crates/umf-oci/src/registry/layout.rs:519-534 | an image refers to its config and every layer, an index to every child, anything else to nothing |
| `OciArchive.CollectAllExplained` | crates/umf-oci/src/registry/layout.rs:501-536 | what the walk expands is walked and has all its references collected, and whatever else it collects is a part of an image it expanded |
| `OciArchive.CollectionIsClosureIff` | crates/umf-oci/src/registry/layout.rs:501-536 | the walk collects exactly the closure if and only if every walked manifest that it skipped, having met it first as a part, refers only to what was collected otherwise |
| `OciArchive.CollectionIsClosure` | crates/umf-oci/src/registry/layout.rs:501-536 | so it does whenever no walked manifest is also a part of a walked image |
| `OciArchive.ManifestAsLayerIsNotWalked` | crates/umf-oci/src/registry/layout.rs:506-528 | a family in which it does not: a config in the closure is missed |
| `OciArchive.SoundStoreCollectsAll` | crates/umf-oci/src/registry/layout.rs:501-536 | in a content-addressed store the walk never stops on a corrupt manifest |
| `OciArchive.ImageLayout.UpsertRef` | crates/umf-oci/src/registry/layout.rs:262-278 | the entries with the name are gone and the new one is last |
| `OciArchive.RefNameMeaning` | crates/umf-oci/src/archive.rs:109-115 | the name of an entry is the value of the `org.opencontainers.image.ref.name` annotation |
| `OciArchive.LookupIsFirst` | crates/umf-oci/src/registry/layout.rs:280-287 | a name resolves to the first entry that carries it |
| `OciArchive.LookupAfterUpsert` | crates/umf-oci/src/registry/layout.rs:262-288 | afterwards the name resolves to the new entry and every other name as before |
| `OciArchive.ImageLayout.WriteBlobWithDigest` | crates/umf-oci/src/registry/layout.rs:227-244 | only bytes with the stated digest are stored, and a stored blob is never replaced |
| `OciArchive.PickRefs` | crates/umf-oci/src/archive.rs:102-121 | every ref's own entry in order, or a ref that is missing |
| `OciArchive.PackBlobs` | crates/umf-oci/src/archive.rs:131-155 | succeeds if and only if all collected blobs are stored, and then packs exactly those; otherwise names a collected one that is missing |
| `OciArchive.SaveToWriter` | crates/umf-oci/src/archive.rs:92-158 | succeeds if and only if every ref resolves, no manifest is corrupt and every collected blob is stored; the archive then holds the marker, the selected entries and exactly the collected blobs; every error names its cause |
| `OciArchive.StoredClosureIsSavable` | crates/umf-oci/src/archive.rs:92-158 | from a content-addressed store, refs whose whole closure is stored can be saved, and where nothing is shadowed only those |
| `OciArchive.ReadArchive` | crates/umf-oci/src/archive.rs:181-199 | marker, last index and blobs of the archive, refused exactly when an entry is over 8589934592 bytes |
| `OciArchive.ArchiveIndexIsLast` | crates/umf-oci/src/archive.rs:187-188 | of several index entries the last counts |
| `OciArchive.FindCollision` | crates/umf-oci/src/archive.rs:206-215 | a name both sides have, or proof that there is none |
| `OciArchive.WriteBlobs` | crates/umf-oci/src/archive.rs:218-220 | all blobs are stored, or exactly those before the first pair with the wrong digest, which is named; blobs that were there keep their bytes |
| `OciArchive.UpsertAll` | crates/umf-oci/src/archive.rs:223-247 | each incoming name resolves to its last entry, every other name as before |
| `OciArchive.LastTaggedIsLast` | crates/umf-oci/src/archive.rs:223-247 | of several incoming entries with one name the last counts |
| `OciArchive.TaggedNamesInOrder` | crates/umf-oci/src/archive.rs:223-247 | the names returned keep the order of the entries |
| `OciArchive.LoadFromReader` | crates/umf-oci/src/archive.rs:171-249 | it succeeds exactly when nothing is refused, and returns the names of the tagged entries in order; any error leaves the refs, and any but a digest mismatch the blobs too; every blob added comes from the archive; success merges refs and blobs |
| `OciArchive.LastOfSelected` | crates/umf-oci/src/archive.rs:102-121 | the last saved entry of a name is the source's entry for it, even when a ref is listed twice |
| `OciArchive.SavedIsRefusedIff` | crates/umf-oci/src/archive.rs:171-215 | a saved archive is refused if and only if a name is taken and may not be overwritten, or a blob is over the cap |
| `OciArchive.SaveThenLoad` | crates/umf-oci/src/archive.rs:92-249 | the save succeeds if and only if refs and collected blobs are there, so whenever the closure is stored; the load then succeeds if and only if no name is taken and no blob over the cap; every saved ref then resolves to the same entry, every other ref as before, and the whole closure is there; a failure changes nothing |

## Left out

- CopyDir: the source is a directory, disjoint from the destination, and no link stands above the destination, as `contained_write_path` ensures; special files, permissions and time stamps are not modelled.
- AddToStaging: the source is given by its resolved path; `compute_add_destination`, `reject_traversal` and `ensure_source_contained` are not modelled.
- CopySkippingHoles: retrying an interrupted call inside `write_all` is not modelled.
- PartitionView.Seek: wrap-around of the release profile; the overflow panic of a debug build is not modelled.
- WithDependencies: the text of `modules.dep` is not parsed; the dependency map and the list of files on disk are arguments.
- Boot: the script is modelled by what its loop does, not as shell text; the script of the run flavour is left out.
- SetupBlock: the calls inside `setup_host_side` after the veth is added are one; their failure has no rollback in the code and none is claimed.
- RunSteps: setups and teardowns are whole steps there; the calls of forwarding interleave in `EgressRace`, which leaves veths out.
- SetupVm: bridge, tap and DHCP of a VM are one call that succeeds or fails.
- UmfNatTablePresent: tables of others whose name holds `umf-nat-` are taken not to exist; the code would count them.
- DecisionMatchesFilter: the ruleset is a value, not nft text; parsing of the allow list and `filter_resolved` would only add easy members.
- SaveToWriter: tar and JSON bytes, the sorted order of blobs in the archive, and the non-sha256 digest error are not modelled.
- LoadFromReader: malformed JSON, the size cap on the marker and index entries, the `platform` field of an entry, which the code drops, and failures of the disk are not modelled.
- Handshake: parsing of the subordinate id files, `enter` and its process-wide state; the id helpers are assumed to end, also with a helper that is killed, and a one-byte write to `go` to fail only without a reader.
- `lstat` is taken not to fail for reasons outside the tree; all calls that change the tree may.
- GPT, FAT and squashfs writers: they appear as arbitrary sequences of reads, writes and seeks; `compute_disk_plan` and `mkfs` are left out.
- Registry client, signing, key handling, process registry, virtual machines, the command line and benchmarks.
