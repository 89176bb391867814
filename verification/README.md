# Verification of the pear protocol

A Dafny model of how pear keeps many devices and one relay in step, and proofs of what it
promises. `dafny verify dfyconfig.toml` checks everything.

**The converge protocol.** A manifest maps paths to file entries. Each device has a tree, a
base (the head it last agreed on, in `.pear/manifest.json`), and sees the relay's head. A
pass merges the three, puts the result on disk (losers first, then the apply, the pointer
last) and publishes it by compare-and-swap on the head's sequence number.

- `Manifest.dfy`, `Naming.dfy`, `Merge.dfy`, `MergeLaws.dfy`: manifests, conflict-copy
  names, the merge loop against its specification, and the laws of that specification.
- `Disk.dfy`, `Apply.dfy`, `Materialize.dfy`, `Interruption.dfy`: a file system with real
  directories and a trace of every intermediate state, the phased apply, and what a crash
  in the middle leaves.
- `MergeExistence.dfy`: every three file sets have a merge.
- `Tracking.dfy`, `Protocol.dfy`, `ProtocolLaws.dfy`, `Convergence.dfy`: where content goes;
  any number of devices stepping in any order, with edits and crashes; safety over whole runs;
  and convergence once edits stop.
- `Converge.dfy`: the imperative pass with its 32 attempts, against rival writers, with
  requests and commits that fail. `Attempts.dfy` says what its attempts are in the protocol,
  `ConvergeLaws.dfy` when a pass succeeds, what it publishes, and that it is part of a run.

An edit step of the protocol is any change of the tree that is not a finished materialization.
The next scan cannot tell them apart, so a materialization that stopped midway, or an entry
whose mode or time does not land, counts as an edit too.

**The relay.** `Relay.dfy` has its tables, the chunk pool and garbage collection, one method
per section under the database lock; `RelayLaws.dfy` lets them interleave.
`Retention.dfy` is checkpoint retention.

**Self-contained algorithms.** `Uploader.dfy`, `Store.dfy`, `Watch.dfy`, `FetchPlan.dfy`,
`Calendar.dfy`, `ChunkFrame.dfy`, `Base64.dfy` (with `Bytes.dfy`).

Loops and objects that the source updates in place are methods and classes here; each is
tied to a specification over values, and the laws are lemmas about that specification.

## Where the code and its documentation differ

The model follows the code; each point has a lemma.

- Keys with a `.` component are said to be rejected (`crates/core/src/manifest.rs:84-86`). Only a
  leading one is, so two keys can name one file: `SamePlaceExample`, `SamePlaceIff`.
- The tie rule (`crates/core/src/merge.rs:213-216`) is said to make both devices pick the
  same winner. It does unless two differing entries have equal times: `SwapAgreesUnlessTied`.
- Merging valid manifests can give an invalid one, exactly when a file kept from one side is
  a directory of a file kept from the other: `MergedIsValidIff`. The pass is refused, again on
  every retry, until the user or another device changes something: `StuckUntilEdit`.
- A device that meets a published head with its old base does not always land on it quietly:
  `PublishedHeadIsStable` says when (`crates/core/src/merge.rs:706-746` covers the quiet case),
  `SecondCopyExample` shows a copy being made twice.
- A pass that fails may have published: the compare-and-swap comes before the commit, and its
  answer can be lost (`crates/core/src/converge.rs:206-226`): `LostAnswerExample`. `PassPublishes`
  says exactly when it has.
- A crash between the rename of a file and the restoring of its timestamp
  (`crates/core/src/apply.rs:231-247`) leaves the time of the crash, which the next merge can take
  for the newer edit: `RenamedTimeExample`. Content is not affected: `RenamedIsStable`.
- Mode bits above 0o777 are scanned and published but not written. A device that takes such an
  entry over sees an edit of its own in it at the next scan: `LandsExactlyIff`,
  `UnlandedModeExample`.
- The eager chunk store syncs a chunk's bytes, not its directory entry
  (`crates/core/src/store.rs:349-353`): `LocalStore.Put`.
- A sweep is said to leave chunk visibility alone and to cover a push between upload and
  commit (`crates/relay/src/gc.rs:21-30`). The bytes stay, but refs earned by the upload are
  dropped: `VisibleAfterSweep`, `GraceKeepsBytesOnlyExample`.
- An acknowledged upload can be gone when a sweep falls between its two halves, because bytes
  that were already there keep their age: `DanglingUploadExample`. Committed rows are not
  affected: `ServableForever`.
- The uploader loses a chunk if a sink returns too few presence flags: `Conserved`,
  `ShortAnswerLosesAChunk`.
- The base64 decoder is said to refuse non-canonical padding. It does not look at the unused
  bits before the padding: `CanonicalIff`.

## Model

| member | source | states |
|---|---|---|
| Manifests.Validate | crates/core/src/manifest.rs:90-150 | accepts exactly the manifests whose keys are canonical, safe paths with well-formed chunk names and in which no file is also a directory |
| Manifests.KeyIsValidIff | crates/core/src/manifest.rs:115-144 | what an accepted key is good for: a key is accepted iff its components are names, it never goes up, and on no step of the way from the root it stands at the root or in the metadata directory, however that is spelled |
| Manifests.SamePlaceIff | crates/core/src/manifest.rs:119-126 | two keys of an accepted manifest are one place on disk iff they are equal but for `.` components |
| Manifests.SamePlaceExample | crates/core/src/manifest.rs:119-131 | an accepted manifest with two keys for one place |
| Manifests.KeysArePlacesIff | crates/core/src/manifest.rs:119-131 | every key of an accepted manifest is itself a place iff no key has a `.`; then no two are one place and none is in the way of another |
| Manifests.EntryIsValidIff | crates/core/src/manifest.rs:146-153 | an accepted chunk name is 64 lowercase hexadecimal digits |
| Manifests.Diff | crates/core/src/manifest.rs:55-70 | added, changed and deleted are exactly the paths that only the new side has, that both have differently, and that only the old side has |
| Manifests.DiffNamesDisagreements | crates/core/src/manifest.rs:55-70 | a path is named by the diff iff the two sides disagree about it, and by one of the three sets only |
| Naming.CandidateInjective | crates/core/src/merge.rs:266-290 | the names that the numbering loop tries are pairwise different, so it cannot revisit one |
| Naming.CandidateShape | crates/core/src/merge.rs:266-290 | a tried name stays in the directory of its path, is longer than the name it was made from, carries the conflict mark, and is a usable path |
| Naming.ClaimIsUnique | crates/core/src/merge.rs:266-290 | the first free name is determined by what is taken |
| Naming.ClaimShape | crates/core/src/merge.rs:266-290 | a claimed name lies beside its original, whatever the device is called |
| Naming.LabelIsTheName | crates/core/src/merge.rs:295-315 | the label is the device name without the spaces around it, separators and control characters replaced; a blank name has the label `device` |
| Naming.WhitespaceCodes | crates/core/src/merge.rs:295-315 | the spaces are the code points that Unicode lists as white space |
| Naming.PlainNameIsItsLabel | crates/core/src/merge.rs:295-315 | a name that needs no change is its own label |
| Naming.CopyIsCalled | crates/core/src/merge.rs:266-290 | the copy of `stem.ext` is called stem, mark, label, stamp, number from the second on, and keeps its extension last |
| Naming.DecimalIsNumeral | crates/core/src/merge.rs:279-283 | the number is written in decimal without leading zeros |
| Naming.NameSpace.constructor | crates/core/src/merge.rs:251-262 | what is reserved from the start is every key of both sides and every directory above one |
| Naming.NameSpace.Claim | crates/core/src/merge.rs:266-290 | terminates, returns the first name that is not taken, and takes it and nothing else away from later claims |
| Merging.DecideKeepsEdits | crates/core/src/merge.rs:180-231 | the decision table as a promise: an edited side wins or is the preserved loser, a deletion never beats an edit, an unedited side yields |
| Merging.LastWriterWins | crates/core/src/merge.rs:205-226 | of two edits the newer wins, equal times go to the remote, and there is a copy iff the contents differ |
| Merging.SwapAgreesUnlessTied | crates/core/src/merge.rs:180-231 | exchanging the two sides yields the same winner iff the sides are not a differing pair of equal time |
| Merging.TiedSwapExample | crates/core/src/merge.rs:213-216 | an equal-time pair on which the two orders disagree, against the comment on the tie rule |
| Merging.Merge | crates/core/src/merge.rs:73-166 | the outcome meets the full merge specification: winners, copies, names in order, and the set of paths to apply |
| Merging.MergeFiles | crates/core/src/merge.rs:95-138 | the loop yields at each path the winner, beside it one copy per contested path under the first free name, in path order, and nothing else |
| MergeLaws.MergeIsDeterministic | crates/core/src/merge.rs:73-166 | the specification has one solution: the same three manifests, device label and stamp give the same outcome, copy numbers included |
| MergeLaws.NoEditIsLost | crates/core/src/merge.rs:95-138 | every entry that either side changed since the base is in the merged tree or kept as a copy, with its content |
| MergeLaws.NoBytesAreLost | crates/core/src/merge.rs:95-138 | the same field by field: for every entry that either side changed some merged file or some kept copy has its chunk list, mode and size |
| MergeLaws.CopiedIff | crates/core/src/merge.rs:180-231 | a path gets a copy iff both sides changed it and they disagree about chunks, mode or size |
| MergeLaws.CopyIsWhere | crates/core/src/merge.rs:108-133 | a copy of a `.git` file lies in the conflict area and in no manifest; any other is a merged file beside its original, at a path that neither side has |
| MergeLaws.EveryEntryHasAnOrigin | crates/core/src/merge.rs:95-138 | every merged entry is, verbatim, an entry of one side |
| MergeLaws.UneditedSideFollows | crates/core/src/merge.rs:180-231 | a side equal to the base, or to the other side, is followed exactly and without a conflict |
| MergeLaws.CopyClashesWithNothing | crates/core/src/merge.rs:250-290 | a conflict copy is neither a directory of a merged file nor below one |
| MergeLaws.ClashesAreCrossSide | crates/core/src/merge.rs:83-138 | every file/directory clash of a merge is between a path only one side kept and one only the other kept |
| MergeLaws.MergedIsValidIff | crates/core/src/converge.rs:145-153 | the merge of two valid manifests is valid iff no kept file of one side is a directory of a kept file of the other |
| MergeLaws.OutcomeIsValidIff | crates/core/src/converge.rs:145-153 | the same of any merge outcome with usable copy names, whoever computed it |
| MergeLaws.ClashFreeIff | crates/core/src/merge.rs:83-138 | the merged tree is free of clashes iff there is no such cross-side pair |
| MergeLaws.CrossCollisionExample | crates/core/src/converge.rs:145-153 | valid manifests of which every merge is invalid |
| MergeLaws.RemergeTable | crates/core/src/merge.rs:180-231 | per path: meeting the published winner over the old base again gives that winner, with a conflict only for a lost local entry |
| MergeLaws.PublishedHeadIsStable | crates/core/src/merge.rs:706-746 | re-merging a published head over the old base lands on the head iff the copies are new to that base, and is quiet iff every loser was the publisher's |
| MergeExistence.MergeExists | crates/core/src/merge.rs:73-166 | any three file sets have a merge: the loop never gets stuck and never runs out of copy names |
| MergeExistence.SecondCopyExample | crates/core/src/merge.rs:706-746 | a published head whose re-merge by the losing device makes a second copy of the same entry |
| Disks.Disk.RemoveFile | crates/core/src/apply.rs:173-189 | unlinks exactly one file; a missing file is not an error, a directory in its place is |
| Disks.Disk.RemoveDir | crates/core/src/apply.rs:273-284 | removes a directory only if nothing is in it |
| Disks.Disk.CreateDirAll | crates/core/src/apply.rs:227-230 | adds the missing directories above a path, and fails iff a file is among them |
| Disks.Disk.RenameInto | crates/core/src/apply.rs:198-231 | replaces one file whole, with its bytes and mode and the time of the rename, and fails iff a directory is in the way or the parent is missing |
| Disks.Disk.SetTime | crates/core/src/apply.rs:231-247 | the timestamp is restored after the rename, as a state of its own |
| Disks.Disk.CopyFile | crates/core/src/converge.rs:463-490 | a copy may be torn while it is made, and is complete with its time restored at the end |
| Disks.Disk.PruneEmptyParents | crates/core/src/apply.rs:273-284 | climbing from a deleted file removes directories only; wherever no directory was empty none is, if only those above the file could be |
| Apply.PlainIffLandsUnchanged | crates/core/src/apply.rs:198-262 | an entry reads back as written iff its mode is within 0o777 and its nanoseconds are in range |
| Apply.LandsAs | crates/core/src/apply.rs:198-262 | what lands has the chunks, size and seconds of the entry, the nine lowest mode bits, and the nearest nanoseconds in range |
| Apply.ChunksOfAll | crates/core/src/apply.rs:214-219 | having the chunks of an entry means having each of its list |
| Apply.DeleteFile | crates/core/src/apply.rs:173-189 | one file goes, and wherever no directory was empty none is afterwards |
| Apply.WriteFile | crates/core/src/apply.rs:198-247 | succeeds iff its chunks are there, no ancestor is a file, and no directory that stays stands at the path; it changes one path, to what lands, passing through the instant between rename and restored time |
| Apply.DeleteAll | crates/core/src/apply.rs:115-118 | the delete loop removes exactly the named files, and every state on the way is between start and end path by path |
| Apply.WriteAll | crates/core/src/apply.rs:119-126 | the write loop puts exactly the named entries in place; every state on the way is between start and end path by path, or has one file just renamed |
| Apply.CheckFolds | crates/core/src/apply.rs:62-92 | refuses exactly the manifests with two keys that fold to one name |
| Apply.PhasesFit | crates/core/src/apply.rs:99-136 | worktree deletes and writes, then `.git` deletes and writes, never meet a clash between valid trees |
| Apply.ApplyCommit | crates/core/src/apply.rs:55-161 | from a tree that holds exactly the old manifest, with no empty directory where a file is to be written, the result holds exactly the new one; every interrupted state is path by path old, new or just renamed, the worktree before `.git`, the pointer last |
| Apply.ReplacesExactlyIff | crates/core/src/apply.rs:99-158 | the tree ends equal to the new manifest iff every written entry has plain mode and time |
| Materializing.OnDiskShape | crates/core/src/converge.rs:413-436 | after the loser copies the tree is the scanned one plus the local copies, still without clashes |
| Materializing.AppliesWhatWasFetched | crates/core/src/converge.rs:438-444 | the difference that is applied is the one the merge announced: what was fetched is what is written |
| Materializing.CopyLocalLoser | crates/core/src/converge.rs:463-490 | the loser lies beside its original with its bytes and time before anything is overwritten; fails iff a directory stands there |
| Materializing.AssembleLocalCopy | crates/core/src/converge.rs:493-521 | a `.git` loser of the remote is assembled from chunks outside the repository |
| Materializing.CopyLosers | crates/core/src/converge.rs:413-436 | for any scanned tree: the loop copies every local loser and changes no scanned file; every state on the way says so |
| Materializing.OnDiskIsValid | crates/core/src/converge.rs:414-444 | the tree that the apply starts from is a valid manifest when the merge is |
| Materializing.Materialize | crates/core/src/converge.rs:407-457 | for any scanned tree and any head: the tree ends as the merge as it lands on disk, with the local-only copies beside it and the pointer at the head merged against iff something was applied; if merge and tree are valid, the planned chunks are there and no empty directory is in the way, it fails exactly if something has to be applied and two merged names fold together; every interrupted state is described |
| Materializing.ReportNamesCopies | crates/core/src/converge.rs:445-457 | the report lists the path of every copy in order, and as written what else was added or changed |
| Materializing.LocalOnlyIsKept | crates/core/src/converge.rs:493-521 | each `.git` loser has its chunks in the conflict area under its copy name |
| Materializing.LandsExactlyIff | crates/core/src/apply.rs:198-262 | the tree ends equal to the merged manifest iff every entry that had to be written has plain mode and time |
| Interruption.NoLocalByteIsLost | crates/core/src/converge.rs:400-457 | at every instant of a materialization each scanned entry that differed from the base is on disk with its content, but for permission bits that no apply writes |
| Interruption.ChunksStayOnDisk | crates/core/src/converge.rs:400-457 | chunk by chunk: at every instant some file of the tree or of the conflict area has the chunk list of a scanned file that differed from the base |
| Interruption.DecideIsStable | crates/core/src/merge.rs:180-231 | deciding again with the first winner in place of either side picks the same winner |
| Interruption.RenamedIsStable | crates/core/src/merge.rs:180-231 | a crash between rename and restored time changes at most the time that the next merge picks, and makes no copy |
| Interruption.RenamedTimeExample | crates/core/src/apply.rs:231-247 | that time can win: it is then published as an edit |
| Interruption.RemergeFromMidway | crates/core/src/converge.rs:400-457 | if the modes that are written land: re-merging any partial tree, also one with a file just renamed, from the unchanged base against the same head picks the same content at every path, and the same entry unless the file was just renamed |
| Interruption.NextPassRepairs | crates/core/src/converge.rs:400-457 | so the pass after a crash has the same content at every path and has lost no edited entry |
| Interruption.UnlandedModeExample | crates/core/src/apply.rs:198-262 | a set-uid bit that does not land makes the next merge from the same base see a conflict |
| Tracking.EditTracks | crates/core/src/converge.rs:75-78 | whatever a user does to a tree, what it owes to its base stays accounted for: where they differ, what was taken off its path, and which content may be missing |
| Tracking.MergeKeeps | crates/core/src/merge.rs:95-138 | content that neither side lost since the base is in the merge, in place or under the longer name of a copy |
| Tracking.MergeTracks | crates/core/src/converge.rs:206-226 | after a merge the tree owes to the head merged against what it owed to the old base, so that head can be the next base |
| Protocol.StepKeepsInv | crates/core/src/converge.rs:114-232 | every step of every device (edit, fetch, merge, place, publish, commit, crash) keeps the invariant of log and devices |
| Protocol.RunKeepsInv | crates/core/src/converge.rs:114-232 | so does every run |
| Protocol.ReachableInv | crates/core/src/converge.rs:114-232 | the invariant holds in every reachable state of any number of devices |
| ProtocolLaws.BaseNeverRunsAhead | crates/core/src/converge.rs:437-444 | in every reachable state the base on disk is empty or a published head; the tree differs from it only where the user edited or a copy was made, and what it has and the tree lacks was taken off its path by an edit or copied by a merge |
| ProtocolLaws.LogIsAppendOnly | crates/relay/src/routes.rs:1662-1688 | no run rewrites a published head |
| ProtocolLaws.NoLostUpdate | crates/core/src/converge.rs:206-226 | each head is a merge against exactly its predecessor; an entry leaves its path only as a copy of this merge, or because the author's base held that entry there and its tree no longer had the content: taken off by its user since its last commit, or copied by an earlier attempt; worktree content is then still in the head unless the excuses of this head took it |
| ProtocolLaws.HeadKeepsOrExplains | crates/core/src/converge.rs:114-232 | the same of one path of one head, in any log that meets the invariant |
| ProtocolLaws.ContentSurvives | crates/core/src/converge.rs:114-232 | over the whole log worktree content that was in a head is in every later one unless an excuse of a head in between took it off a path that held it; excuses are what the author took off since its last commit, and what the heads after that commit had as excuses |
| ProtocolLaws.ContentSurvivesInLog | crates/core/src/converge.rs:114-232 | the same between any two heads of a log that meets the invariant |
| ProtocolLaws.InSyncExcuses | crates/core/src/converge.rs:206-226 | while every author had committed the head that it replaced, the excuses are exactly what the authors of these heads took off since: nothing older excuses a loss |
| ProtocolLaws.LedgersRecordEdits | crates/core/src/converge.rs:114-232 | whatever the bookkeeping calls taken was taken by an edit step of the run from a tree that held it |
| ProtocolLaws.ContentSurvivesUnlessEdited | crates/core/src/converge.rs:114-232 | in terms of the run: worktree content of a head is in every later head, or one of the excuses of the heads in between took it, and that was an edit step of the run that found the content on a worktree path and left it without |
| ProtocolLaws.ChunksSurvive | crates/core/src/converge.rs:114-232 | chunk by chunk: a worktree file of a head has its chunk list and mode in some worktree file of every later head, unless an edit step of the run removed a file with that chunk list and mode |
| ProtocolLaws.GivingUpMeansContention | crates/core/src/converge.rs:114-232 | a pass ends with its attempts used up only if at least as many heads of others were published while it ran |
| Convergence.PassRunsIff | crates/core/src/converge.rs:145-153 | an uncontended pass of a device with a valid tree runs to its end iff no kept file of one side is a directory of a kept file of the other |
| Convergence.PassExists | crates/core/src/converge.rs:145-153 | there always is a merge for it to run with |
| Convergence.PassEffect | crates/core/src/converge.rs:114-232 | it leaves the device at the head, which is the old one or one more, and the other devices alone |
| Convergence.CrossCollisionBlocks | crates/core/src/converge.rs:145-153 | no pass of any kind gets past such a pair |
| Convergence.StuckUntilEdit | crates/core/src/converge.rs:145-153 | however often the blocked device retries, it publishes nothing and its tree and base do not move until its user edits |
| Convergence.RoundOrCollision | crates/core/src/converge.rs:114-232 | a round of all devices goes through in any order, unless it comes to a device that is blocked at that moment |
| Convergence.TwoRoundsConverge | crates/core/src/converge.rs:114-232 | after one round of uncontended passes a second can always run, in any order; every second round publishes nothing and leaves every tree and base at the head |
| Convergence.CompatibleDevicesConverge | crates/core/src/converge.rs:114-232 | from any reachable state in which no name is a file here and a directory there and no directory is called like a copy, two rounds do run, in any two orders, and converge |
| Convergence.ConvergedIsStable | crates/core/src/converge.rs:154-186 | further passes publish nothing and change nothing |
| Convergence.SettledPassRuns | crates/core/src/converge.rs:154-186 | a device whose tree is its base can always run its next pass, which publishes nothing |
| Convergence.SettledPassFollows | crates/core/src/converge.rs:114-232 | a device without edits of its own takes over the head exactly |
| Attempts.OwnStep | crates/core/src/converge.rs:114-232 | what a device does needs and changes nothing that it cannot see |
| Attempts.SeenPlays | crates/core/src/converge.rs:114-232 | every run of the protocol, seen from one device, is a play of that device: its own steps and the heads others publish |
| Attempts.Weave | crates/core/src/converge.rs:114-232 | every play whose foreign heads other devices do publish is woven with their steps into one run; that the device can do its own steps in that run is derived, not assumed |
| Attempts.TrialPlays | crates/core/src/converge.rs:114-232 | one attempt of the loop, however it ends, is the step sequence get head, merge, place, then adopt or publish and commit, with foreign heads in between |
| Attempts.PassPublishesOnce | crates/core/src/converge.rs:206-226 | every attempt but the last lost its race, and a pass adds at most one head of its own, as its last act |
| Converging.FetchForApply | crates/core/src/converge.rs:308-376 | the fetch batches list the planned chunks, each once; fetches those not stored, or fails iff the pool lacks one |
| Converging.PlanSuffices | crates/core/src/converge.rs:308-376 | what is planned covers every chunk that apply and local-only copies will read |
| Converging.PlanReadsTheHead | crates/core/src/converge.rs:308-376 | a pass reads no chunk that the head does not list |
| Converging.MergeTrees | crates/core/src/converge.rs:149-153 | the merge of tree and head over the base that the device computes, copy names included |
| Converging.OneMerge | crates/core/src/converge.rs:149-153 | a device computes one merge: same base, tree, head and setup give the same files and the same copies |
| Converging.TheMerge | crates/core/src/converge.rs:149-153 | and it computes one for any tree and head |
| Converging.ComputedIsValidIff | crates/core/src/converge.rs:145-153 | for a valid tree and head the computed merge is valid iff there is no cross-side file/directory pair |
| Converging.MergeWithHead | crates/core/src/converge.rs:114-153 | the first half of an attempt: the computed merge against exactly that head, valid, or an error whose cause is there |
| Converging.MergeAndFetch | crates/core/src/converge.rs:114-160 | the same with the planned chunks at hand; missing chunks mean that the head lists one that neither store nor relay has |
| Converging.MergeAndPlace | crates/core/src/converge.rs:114-174 | and put on disk: nothing touched, stopped at a described midway state, or in place as it lands; a failure has its cause in the tree, the head, the computed merge (its names fold together, a file goes where an empty directory is) or a fault that strikes there |
| Converging.Finish | crates/core/src/converge.rs:176-228 | adopts an equal head, publishes by compare-and-swap, or reports the lost race; the head grows by at most its own; each fault strikes at its own stage and nowhere else |
| Converging.TryOnce | crates/core/src/converge.rs:114-228 | one attempt against other writers and faults is one attempt of the protocol on exactly the head it fetched: same log, tree and base afterwards, and an answer that says how it ended and, if it failed, why |
| Converging.ConvergeOnce | crates/core/src/converge.rs:59-235 | the retry loop: in success and failure alike the pass is a sequence of at most 32 such attempts that each met the heads of its turn and merged as the device computes; success leaves the pointer at the merge the last attempt put on disk; the pointer never names an unpublished state |
| ConvergeLaws.CalmAttemptSucceeds | crates/core/src/converge.rs:114-228 | from a state where tree and head are valid and not blocked, the head's chunks can be had and the computed merge can be placed (no two of its names fold together, no empty directory is in the way), an attempt without a rival succeeds exactly if no fault strikes it, and else fails with that fault |
| ConvergeLaws.CalmPassSucceeds | crates/core/src/converge.rs:114-228 | so an undisturbed pass from such a state succeeds at once |
| ConvergeLaws.TwoConflictsExample | crates/core/src/converge.rs:114-228 | conflicts do not disturb it: any two files of one directory changed on both sides, on a case-insensitive disk |
| ConvergeLaws.PassPublishes | crates/core/src/converge.rs:206-226 | the log grows by what others publish and at most one head of this device, its last merge: exactly if that was put on disk, differs from the head, met no rival, and neither upload nor request failed; a success has added it iff it says so and reports its number; a failure has added it iff, besides, the error is the lost answer or the failed commit |
| ConvergeLaws.LostAnswerExample | crates/core/src/converge.rs:206-226 | a pass that fails and has published |
| ConvergeLaws.GivingUpMeansRivals | crates/core/src/converge.rs:225-235 | the pass gives up only if another writer published in each of its 32 attempts |
| ConvergeLaws.PassStaysInProtocol | crates/core/src/converge.rs:59-235 | in any world of the protocol a pass of the loop, with the steps by which others publish the heads it meets, is a run that leaves log and device as the pass does; reachable worlds stay reachable |
| Retention.CheckpointsToPrune | crates/relay/src/db.rs:162-195 | returns exactly the ids of the rows that do not survive, each once and in order |
| Retention.TierBounds | crates/relay/src/db.rs:162-195 | nothing under an hour old is pruned, everything from seven days on is |
| Retention.BucketKeepsOne | crates/relay/src/db.rs:162-195 | each non-empty hour or day bucket keeps exactly one row, its greatest by time and id |
| Retention.HourKeepsItsLatest | crates/relay/src/db.rs:162-195 | in ages alone: of the rows from k to k + 1 hours old, for 1 to 23, all are pruned but the greatest by time and id |
| Retention.DayKeepsItsLatest | crates/relay/src/db.rs:162-195 | and of those from k to k + 1 days old, for 1 to 6 |
| Retention.AgeLimits | crates/relay/src/db.rs:167-174 | nothing under 3600 seconds old is pruned, everything from 604800 on is |
| Retention.AtMostTwentyNine | crates/relay/src/db.rs:162-195 | at most 29 rows survive between one hour and seven days |
| Retention.PruneIsIdempotent | crates/relay/src/db.rs:162-195 | pruning the survivors prunes nothing |
| Retention.InsertedSurvives | crates/relay/src/db.rs:858-861 | the row whose insert triggers the prune survives it |
| Retention.PruneListIsUnique | crates/relay/src/db.rs:192-195 | the answer does not depend on the order of the rows |
| Relays.Relay.StoreBlob | crates/relay/src/routes.rs:1203-1226 | the first half of an upload: accepted iff the name is a chunk hash, the size at most 4 MiB and the body hashes to the name; bytes already there keep their age |
| Relays.Relay.StoreMany | crates/relay/src/routes.rs:1387-1446 | one verdict per entry in order; a bad entry touches no other, and exactly the accepted hashes are confirmed |
| Relays.Relay.PutMany | crates/relay/src/routes.rs:1373-1446 | refused as a whole iff over 256 entries or 32 MiB or for an unknown workspace, and then nothing changes; otherwise as above, nothing enters the pool but under the hash of its bytes, and a reader of the workspace can commit exactly what was confirmed besides what it could before, and nobody else gains what they cannot see elsewhere |
| Relays.SizesAddUp | crates/relay/src/routes.rs:1378-1384 | the size that is compared with the cap is the sum over the entries |
| Relays.Relay.ValidateManifest | crates/relay/src/routes.rs:1704-1800 | accepts iff the manifest is valid, is of this workspace, obeys the `.env` policy, and all its chunks are present and visible to the caller; a refusal counts the missing ones |
| Relays.Relay.ValidateEnvelope | crates/relay/src/routes.rs:1890-1944 | accepts iff the blob is base64 of at least 28 bytes and all hashes are well formed, present and visible |
| Relays.Relay.PutHead | crates/relay/src/routes.rs:1594-1697 | commits iff the submission is acceptable, the base sequence is the current one, and the pool was flushed; a conflict reports the current sequence; a failure changes nothing |
| Relays.Relay.CreateSnapshot | crates/relay/src/routes.rs:1974-2060 | the same boundary without the compare-and-swap; the id is one more than the greatest |
| Relays.Relay.InsertSnapshot | crates/relay/src/db.rs:829-880 | row and refs together; a checkpoint also prunes exactly what retention dooms |
| Relays.Relay.Mark | crates/relay/src/gc.rs:77-104 | the live set of every workspace that parses, and the number of those that do not |
| Relays.Relay.RebuildRefs | crates/relay/src/db.rs:944-972 | refs become the live set of each marked workspace; the others are untouched; the count is of dropped rows |
| Relays.Relay.SweepBlobs | crates/relay/src/gc.rs:119-173 | deletes exactly the unreferenced chunk files older than the cutoff; an unlink error leaves a part of them |
| Relays.Relay.RunPoolGc | crates/relay/src/gc.rs:74-115 | mark, rebuild and sweep together, with an exact report |
| RelayLaws.AcceptedRequestIsAStep | crates/relay/src/routes.rs:1594-1697 | what the route accepts is a step of the run system, and a commit only at the current sequence number |
| RelayLaws.SweepIsAStep | crates/relay/src/gc.rs:74-115 | a complete or interrupted sweep is a step too |
| RelayLaws.ServableForever | crates/relay/src/routes.rs:1680-1697 | in every interleaving of uploads, commits, snapshots, retention and sweeps, every chunk of every retained row is in the pool and in its workspace's refs |
| RelayLaws.ReadersCanFetch | crates/relay/src/db.rs:977-1003 | so no reader of the workspace is missing a chunk of a retained row |
| RelayLaws.PlainIsAcceptableIff | crates/relay/src/routes.rs:1704-1812 | a plaintext commit is accepted iff the workspace is one, the manifest is valid and of this workspace, no key breaks the `.env` policy, and each chunk at each place of each file is in the pool and visible to the caller |
| RelayLaws.EnvelopeIsAcceptableIff | crates/relay/src/routes.rs:1890-1944 | an encrypted one iff the blob is base64 of at least 28 bytes and each listed chunk is well named, in the pool and visible |
| RelayLaws.RetainedChunksStay | crates/relay/src/routes.rs:1680-1697 | from an empty relay on, in every interleaving: every chunk at every place of every file of every retained head and snapshot is in the pool and in the refs of its workspace |
| RelayLaws.ChunkGoesIff | crates/relay/src/gc.rs:74-173 | a sweep deletes a file iff it is chunk-named, older than the cutoff, and no row of a readable workspace lists it at any place and no unreadable workspace has a ref to it |
| RelayLaws.NewestIsSuffix | crates/relay/src/db.rs:794-804 | deleting all rows but the newest fifty leaves the end of the table |
| RelayLaws.HeadsFollowTheLog | crates/relay/src/db.rs:777-812 | the table holds the last fifty of all commits under their numbers, and a commit must name the number of commits before it |
| RelayLaws.CommitIsServed | crates/relay/src/routes.rs:1680-1697 | the newest head after an accepted commit is what was sent, word for word, under the next number |
| RelayLaws.SnapshotIdsAreFresh | crates/relay/src/db.rs:829-880 | ids are never reused whatever is pruned, and a named snapshot is never pruned |
| RelayLaws.SweepIsIdempotent | crates/relay/src/gc.rs:74-173 | a second sweep at the same cutoff drops and deletes nothing |
| RelayLaws.DeletedIff | crates/relay/src/gc.rs:140-172 | a file goes iff it is chunk-named, old, and referenced by no workspace after the rebuild |
| RelayLaws.VisibleAfterSweep | crates/relay/src/gc.rs:28-30 | what a user sees after a sweep is what the rows of its workspaces pin, or the old refs of a skipped one |
| RelayLaws.BytesOutliveGrace | crates/relay/src/gc.rs:126-129 | bytes no older than any cutoff of a run stay in the pool through it |
| RelayLaws.UploadIsPresent | crates/relay/src/routes.rs:1203-1251 | both halves of an upload make the chunk committable |
| RelayLaws.DanglingUploadExample | crates/relay/src/routes.rs:1226-1251 | a sweep between the halves leaves an acknowledged chunk without bytes; committing it is refused |
| RelayLaws.GraceKeepsBytesOnlyExample | crates/relay/src/gc.rs:21-25 | a sweep between upload and commit keeps the bytes but drops the refs, so a user's commit is refused |
| RelayLaws.SkippedWorkspaceHeals | crates/relay/src/gc.rs:58-64 | a skipped workspace parses again once fifty commits have pushed out its unreadable heads |
| Uploading.BatchUploader.Flush | crates/core/src/sync.rs:355-440 | for any answer of the sink: exactly what it did not confirm stays, in order, but for chunks it gave no presence flag, which are lost; success means all others are confirmed |
| Uploading.BatchUploader.BufferChunk | crates/core/src/sync.rs:342-353 | a hash is taken once; the buffer is flushed iff the chunk fills it, with the effect of a flush, for any answer of the sink |
| Uploading.BatchUploader.UploadFile | crates/core/src/sync.rs:328-336 | returns the hashes of the file, all of them handed in; a failure loses none, and nothing is lost if the sink answers for every hash it is asked about |
| Uploading.Conserved | crates/core/src/sync.rs:355-440 | kept and confirmed are disjoint, and together the whole buffer iff there was one flag per hash |
| Uploading.DroppedIff | crates/core/src/sync.rs:364-364 | a flush loses chunks iff the sink did not answer for every hash |
| Uploading.ShortAnswerLosesAChunk | crates/core/src/sync.rs:364-364 | a presence answer that is too short drops a chunk from the buffer without confirming it |
| Storing.LocalStore.Put | crates/core/src/store.rs:309-355 | which error, whether the chunk is there afterwards, what is queued and what is at risk: the eager store never settles the directory entry, the deferred one at its 64th put |
| Storing.LocalStore.Flush | crates/core/src/store.rs:243-254 | succeeds iff every queued directory can be fsynced; then the deferred store has nothing at risk; else the failed directory is first in line, and exactly the chunks of the synced ones are settled |
| Storing.FlushBatch | crates/core/src/store.rs:259-290 | each directory once, up to the first failure; the rest stays in order |
| Storing.LocalStore.LossWindow | crates/core/src/store.rs:61-76 | a deferred store has no more chunks at risk than entries queued |
| Storing.LocalStore.SweepUnreferenced | crates/core/src/store.rs:178-217 | removes exactly the chunk files that are not kept, in listing order up to the first whose unlink fails |
| Watching.WatchLoop | crates/core/src/watch.rs:119-211 | every cycle after the first was called for by a relevant trigger or a failure since its predecessor started, was debounced, and started at once when it was due: a window closed on something relevant, a failed cycle was followed by silence, a kick came in outside a window; the loop ends or waits only where nothing due was passed over, and for the stated cause |
| Watching.Listen | crates/core/src/watch.rs:125-192 | between two cycles: keeps everything relevant on the queue, starts a cycle only when called for and debounced, passes over nothing that is due |
| Watching.CalmRunsOnce | crates/core/src/watch.rs:190-192 | if every path of every event lies under the metadata directory and cycles succeed, the first cycle is the only one |
| Watching.NoChangeIsMissed | crates/core/src/watch.rs:119-211 | unless the loop has ended or runs a cycle: a kick, a watcher error, an event without paths or with some path outside the metadata directory, followed by silence after the last cycle, came in before some cycle started |
| Watching.ChangeIsAnswered | crates/core/src/watch.rs:156-189 | a change is followed by the next cycle as soon as a wait is silent or one more trigger comes after the cap |
| Watching.FailureIsRetried | crates/core/src/watch.rs:140-152 | a failed cycle is followed by the next after one silent wait, if no file event opened a window |
| Watching.KickIsAnswered | crates/core/src/watch.rs:84-88 | a kick is followed by the next cycle at once, or when the running one ends, if no file event opened a window |
| Watching.RelevantIff | crates/core/src/watch.rs:223-229 | these are the triggers that ask for a cycle; the others name paths under the metadata directory only |
| Watching.EmptyMeansNone | crates/core/src/watch.rs:153-158 | an empty queue at a wait means that nothing relevant came in since the cycle started |
| Watching.Coalesce | crates/core/src/watch.rs:163-189 | a window: it lets nothing relevant go without wanting a cycle, and ends with the silence or the trigger that closes it |
| Watching.RunCycle | crates/core/src/watch.rs:195-210 | triggers that arrive during a cycle stay queued in order |
| Watching.ArrivalsAre | crates/core/src/watch.rs:193-198 | the queue after a cycle is exactly what arrived in it |
| FetchPlanning.PlanFetchBatches | crates/core/src/sync.rs:1001-1027 | batches concatenate to the first occurrences of all needed chunks; each is a run of whole files, within both caps or of a single file, and closes only when its next file would overflow it |
| FetchPlanning.FetchedOnce | crates/core/src/sync.rs:1001-1012 | every needed chunk is fetched, and once |
| FetchPlanning.OversizedIsOneFile | crates/core/src/sync.rs:987-1000 | a batch over the hash cap is the contribution of one file |
| Calendar.EpochIsJanuaryFirst1970 | crates/core/src/merge.rs:332-343 | day 0 is 1970-01-01 |
| Calendar.NextDayIsTomorrow | crates/core/src/merge.rs:332-343 | for every day the closed form is a Gregorian date and the next day its successor |
| Calendar.StampsIncrease | crates/core/src/merge.rs:318-328 | the fields of the stamp strictly increase with the second |
| Calendar.StampTellsTheSecond | crates/core/src/merge.rs:318-328 | the fields are the date and the hours, minutes and seconds since its midnight |
| Calendar.EpochIsMidnight | crates/core/src/merge.rs:318-328 | second 0 is 1970-01-01 00:00:00 |
| Calendar.StampsFollowTheClock | crates/core/src/merge.rs:318-328 | two clocks have ordered stamps iff they are ordered and the later one is past the epoch |
| ChunkFrame.Encode | crates/core/src/chunk_frame.rs:53-73 | produces the count-prefixed frame |
| ChunkFrame.FrameIsLaidOut | crates/core/src/chunk_frame.rs:53-73 | byte by byte: the count, lowest byte first, then for each entry the 64 letters of the hash, the length, lowest byte first, and the blob |
| ChunkFrame.Decode | crates/core/src/chunk_frame.rs:80-130 | total, equal to the grammar of frames, and never allocates more than the bytes could hold |
| ChunkFrame.FirstFault | crates/core/src/chunk_frame.rs:80-130 | decoding stops at the first fault behind the entries that can be read, and says which it is and in which entry |
| ChunkFrame.RoundTripIff | crates/core/src/chunk_frame.rs:53-130 | decode inverts encode iff the length fields can carry the entries |
| ChunkFrame.AcceptedIsCanonical | crates/core/src/chunk_frame.rs:80-130 | every accepted frame is the encoding of what it decodes to |
| ChunkFrame.AcceptedFits | crates/core/src/chunk_frame.rs:80-130 | what is decoded has well-formed names and fits the fields |
| Base64.Encode | crates/core/src/crypto.rs:588-611 | the loop over groups of three |
| Base64.EncodesSixBitsAtATime | crates/core/src/crypto.rs:588-611 | bytes 3g to 3g + 2 become symbols 4g to 4g + 3: their bits six at a time from the highest on, in the alphabet of RFC 4648, padding where no bit is |
| Base64.SymbolsAreTheAlphabet | crates/core/src/crypto.rs:583-597 | the symbols are the alphabet of RFC 4648 in its order |
| Base64.Decode | crates/core/src/crypto.rs:616-651 | the loop over groups of four, with its errors |
| Base64.RefusedIff | crates/core/src/crypto.rs:616-651 | a group is refused for its padding iff that is out of order, and else for its first character that is neither in the alphabet nor padding |
| Base64.RoundTrip | crates/core/src/crypto.rs:588-651 | decoding inverts encoding |
| Base64.CanonicalIff | crates/core/src/crypto.rs:613-651 | an accepted text is the encoding of its bytes iff its padding leaves no stray bits |
| Base64.StrayBitsExample | crates/core/src/crypto.rs:613-651 | two accepted texts with the same bytes |

## Left out

Weaker than the source, or with an assumption:

- Interruption.NextPassRepairs: for merges whose written modes land; UnlandedModeExample shows why. It speaks of content: RenamedTimeExample shows a time that is not repaired.
- Interruption.RemergeFromMidway: likewise.
- ProtocolLaws.BaseNeverRunsAhead: a finished materialization is one step of the run system; one that stops midway is a crash and an edit; no user edit falls between the scan and the materialization of one attempt, and the scan reads exactly the tree; what is on disk at each instant is the subject of Interruption.
- ProtocolLaws.ContentSurvives: stated for worktree paths; a `.git` copy outlives its own merge, but a later attempt of the same pass can overwrite it, since the stamp is fixed once per pass.
- Convergence.TwoRoundsConverge: the first round must have run; RoundOrCollision and CompatibleDevicesConverge say when it does. Names that fold together on a case-insensitive disk are outside the run system.
- Converging.ConvergeOnce: the tree is not edited by its user while a pass runs (in the run system it can be), chunk counters are not reported, and a fault is one of seven kinds. Whether a failure to fetch stops an attempt is left open, since it depends on what the local store lacks by then.
- MergeLaws.PublishedHeadIsStable: a base key equal to a new copy name is part of the stated condition.
- Storing.LocalStore.Flush: for calls that do not overlap; with overlap one caller can return while another still holds the drained batch.
- Naming.NameSpace.Claim: the counter of the source is 32 bits wide; the model's does not overflow.
- Converging.TryOnce: the body of the source's loop is split into methods; errors are classified, not worded; other writers publish between the fetch of the head and the compare-and-swap (a head published between two attempts counts as published in the first).

Not modelled:

- Devices that also run `sync_cycle` or `push_inner`, which write the base file too.
- HTTP, WebSocket, TLS, CLI, daemon IPC, SQL text; roles and team membership (the workspaces a caller can read are a parameter); the device header.
- BLAKE3, AES-GCM, X25519, ed25519 and FastCDC: hashes are names, chunk lists are data.
- Torn blobs and delete-on-verify: stored bytes are assumed to match their name.
- The gitignore walk of the scan, its cache, and unreadable files.
- The keyring, key wrapping, and snapshot and clone flows, which reuse the same engine.
- File fsyncs and directory fsyncs of the apply, refusal of symbolic links, staging cleanup.
- Manifest keys as text: a path is its list of components, an interior `.` included; the sorted order of maps is a parameter that lists each key once, the same way for the same keys.
- Case folding, device clocks, the contents of the relay's pool and what other writers do are parameters; so are lateness, silence and outcomes in the watch loop.
- A power loss that rolls back relay transactions; the byte count of the sweep's report; error texts.
- Base64 text is a sequence of characters; text outside ASCII is refused, but the model may name another error than the source, which counts bytes.
- The text form of a conflict stamp: only its date and time fields.
