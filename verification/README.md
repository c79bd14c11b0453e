# Verified models of the overlay, the browser ring and the provisioning formats

This project models, in Dafny, the parts of the repository whose correctness rests on state, offsets and
interleavings rather than on the systems around them, and proves what those parts promise.

* **The disk overlay** (`executor/host/overlay.cpp`). A read-only image, a log of block, meta and commit records, and
  changed blocks in memory. `OverlayFormat` parses the file byte by byte, `OverlayStore` gives every operation as a
  function of the whole state, and the class in `Overlay.dfy` runs the original's loops over fields and a read buffer
  and is proved to compute those functions. `OverlayRun` proves that any run of writes, reads, syncs, reopenings, failed
  I/O and crashes answers as a flat byte array does that has a durable copy and knows which blocks have been gathered
  since: with 4096 of them a write makes everything durable.
* **The browser ring** (`MacBrowser/browser_shm.c`). `RingMachine` gives producer and consumer a step for each byte
  stored or loaded and each index committed, in any order; either side works from indices that may be old. `RingSafety`
  keeps one invariant through every step, `RingRun` draws the conclusions for whole interleavings, and `RingBuffer` has
  push and pop in place on an array. The ring's size (65536), its 4-byte head and its alignment are those of
  `src/common/include/MacBrowser.h`.
* **Resource forks and fat files** (`provisioning/fat_cfm.py`). The fork's layout, its reader, the round trip between
  them, which files a merge makes and refuses and what it keeps, and the header's CRC as a remainder of polynomials.
* **NDIF images, alias records, MacBinary and AppleDouble** (`provisioning/ndif.py`, `build.py`, `aliases.py`,
  `populate_disk.py`, `snapshot.py`, `containers.py`). Writers against the readers written separately from them, raw
  images and rewritten aliases told from the bytes they are made of.
* **Four small machines.** The tabs' control lease (`executor/server/session.go`), codec fallback
  (`client/codec-fallback.js`), the volume-sizing loop (`provisioning/installers.py`) and the bake waves
  (`provisioning/bake.py`).

## What does not hold, and exactly when

Some of what one would expect of this code is false of some inputs. Each case is stated as an equivalence with a
condition on the input or the state (past 24 bits, where what happens to be there can hide it, also as what is read in
its place), and shown to arise by an example:

* A compaction that writes a meta record of more than 64 KB is found empty by every later load
  (`CompactionKeepsIffMetaFits`; `CompactionLosesAll` for a file whose own record is within the limit in tighter JSON).
  No file this code has written for a disk that is not empty meets the limit (`OwnRecordFits`). A first sync is lost
  alike (`FirstSyncCountsIffMetaFits`), but the name it writes is the image's file name, and no system the program runs
  on opens a file of a 64 KB name: there the condition is one of the model and not of a real input. Runs start from
  names whose record fits, and keep to them.
* An empty ring need not have room for a message over half its size: whether it does depends on where its indices
  stand (`EmptyRingTakes`, `HalfRingIff`), and where it does not it never will (`StarvesIff`). That can befall every
  such message (`HalfWayIsReached`, `OverHalfStarves`).
* A resource whose name starts at offset 0xFFFF of the name list loses it (`RoundTripIffNamesClear`;
  `CrowdedNameIsLost`).
* A resource whose data starts 16 MB or more into the data section reads as another: the offset's upper bits are in the
  attributes (`WordBackIff`, `RoundTripIff`). Grouping by type can move data there that was not there before, so that a
  list survives one round trip and not the next (`SecondRoundTripIff`; `HeavyFailsTheSecondTime`).
* A fragment of the first file that runs past its data fork, or that is empty at its end, selects more in the merged
  file (`FirstSelectsTheSameIff`; `EmptyAtEndGrows`). A 'cfrg' entry cut short by the end of its resource spoils the
  ones after it (`FragmentsKeptIff`; `CutShortIsLost`).
* A merge writes its resources by the same writer, which has no more than 24 bits for an offset: the longer 'cfrg' can
  push another resource out of reach, the 'cfrg' itself can be out of reach where the first file lists it late, and so
  can what a classic merge adds (`MergedResources`, `ClassicMerge`; `LongerCfrgPushesOut`, `LateCfrgIsLost`,
  `ClassicPushesOut`).
* An NDIF image comes out longer than its sectors where a chunk stored as it is goes past the last one
  (`JustSectorsIff`; `LongChunkLengthens`).
* NDIF's MacBinary reader does not recognise a file without a name (`ReadersAgree`; `NamelessIsNotRead`).
* The search for a volume size never ends from 60681 forks that are not empty on (`EndsIff`; `NeverEnough`).
* A second take forgets a hand-over still pending (`HandingEndsIff`; `SecondTakeForgets`), and a tab can be told to wait
  for itself (`WaitsForItselfIff`, over runs `RunWaitsForItselfIff`; `HandingToItself`).
* A resolution change can leave a fallback timer running on httpstream (`TimerOnHttpIff`; `TimerOnHttpHappens`).
* A codec can be selected while the emulator is off (`SelectsWhileOffIff`, over runs `SelectsWhileOffOnceWoken`;
  `SelectsWhileOffHappens`), and a controller can count as connected without one (`FrameConnectsIff`, which has the
  example too).

## Reading the files

`Numbers`, `Bytes` and `Layout` hold small functions on numbers, fixed-width integers, slices and byte strings laid end
to end; `Grouping` is the grouping of a dictionary of lists. Below them each subject has a file with what the code
computes (`OverlayFormat`, `OverlayStore`, `RingMachine`, `ResourceFork`, `FatMerge`, `Adc`, `Ndif`, `Alias`,
`MacFiles`, `Tabs`, `Codec`, `VolumeSize`, `BakeWaves`) and files with what is proved about it and with its loops as
methods (`OverlayLoad`, `OverlayCommit`, `OverlayRun`, `OverlayLimits`, `Overlay`, `RingSafety`, `RingRun`,
`RingBuffer`, `ForkRoundTrip`, `ForkAgain`, `ForkCode`, `FatMergeProof`, `FatResources`, `FatFragments`, `FatDecides`,
`FatExamples`, `FatMergeCode`, `CrcProof`, `NdifProof`, `AliasProof`, `TabsProof`, `TabReplies`, `CodecProof`). Where
the code raises an exception or returns an error the model has `None` or a named outcome. `dafny verify dfyconfig.toml`
checks everything.

## Model

| member | source | states |
|---|---|---|
| OverlayMeta.JsonRoundTrip | executor/host/overlay.cpp:111-142 | the JSON written of any name and any 64-bit size parses back to that size and to the name without its control characters, even where the name itself contains `"size` or `"name` |
| OverlayMeta.PrintableIffSame | executor/host/overlay.cpp:130-142 | the name comes back unchanged exactly when it holds no control character |
| OverlayMeta.EscapePrintable | executor/host/overlay.cpp:130-142 | names that differ only in control characters are written alike |
| OverlayMeta.JsonInBytes | executor/host/overlay.cpp:130-142 | the text of the record, quotes and backslashes escaped and a control character left out, byte for byte |
| OverlayFormat.ParseIffBytes | executor/host/overlay.cpp:211-237 | the loader takes a record at an offset if and only if that record's bytes are there (and a meta record is at most 64 KB) |
| OverlayFormat.ParseCutShort | executor/host/overlay.cpp:211-237 | of a record cut short anywhere the loader takes nothing |
| OverlayFormat.ParsePrefix | executor/host/overlay.cpp:211-237 | a record the loader takes is taken alike when the file goes on longer |
| OverlayFormat.RecordOnDisk | executor/host/overlay.cpp:396-411 | the bytes of each kind of record and of the header, numbers lowest byte first |
| OverlayLoad.LoadAppended | executor/host/overlay.cpp:206-272 | loading a file that ends in a commit with more records appended folds those records onto what it loaded to before |
| OverlayLoad.LoadCutShort | executor/host/overlay.cpp:206-272 | with any strict prefix of records that end in their only commit appended, a load finds just what it found before, at the old length |
| OverlayLoad.CutBackIsWhole | executor/host/overlay.cpp:266-271 | any file cut back to its last commit loads to the same thing and needs no further cutting |
| OverlayLoad.LoadIsFold | executor/host/overlay.cpp:206-265 | any file with a header starts with the bytes of a list of records, after which the loader can read none; what it finds is the meaning of those records one by one, the uncommitted ones at the end included |
| OverlayLoad.LoadStopsAtLongMeta | executor/host/overlay.cpp:226-237 | a load stops at a meta record of more than 64 KB, whatever follows it |
| OverlayLoad.BlocksAreLiveOrDead | executor/host/overlay.cpp:238-251 | the block records before the last commit number the live blocks and the dead ones together |
| OverlayLoad.LoadPoints | executor/host/overlay.cpp:216-251 | every index entry a load makes points at the 4096 bytes of a block record of that number and version |
| OverlayLoad.SupersededPlaced | executor/host/overlay.cpp:246-251 | counting superseded blocks one record at a time gives the number of written blocks that were in the index |
| OverlayStore.PutView | executor/host/overlay.cpp:356-380 | block-by-block writing changes exactly the bytes written, with block edges, partly and wholly written blocks alike, and leaves the durable copy |
| OverlayCommit.SyncedAgrees | executor/host/overlay.cpp:387-432 | after a sync a load of the file finds the index, version, reset version, dead count, name and size that are in memory |
| OverlayCommit.SyncedView | executor/host/overlay.cpp:387-432 | a sync changes no byte that can be read and makes all of them durable |
| OverlayCommit.SyncedValid | executor/host/overlay.cpp:405-424 | every place a sync puts in the index lies within the file it wrote |
| OverlayCommit.ReopenView | executor/host/overlay.cpp:178-273 | closing and opening gives back the durable bytes, the index, versions, dead count, name and size |
| OverlayCommit.CrashBeforeCommit | executor/host/overlay.cpp:206-271 | atomicity: with any strict prefix of a sync's bytes in the file, opening gives the state before the sync and the old file |
| OverlayCommit.CrashAfterCommit | executor/host/overlay.cpp:206-271 | with all its bytes in the file, opening gives the state the sync was writing, acknowledged or not |
| OverlayCommit.RewrittenAgrees | executor/host/overlay.cpp:436-498 | the compacted file loads to the same versions, name and size, its own index, and nothing dead |
| OverlayCommit.RewrittenView | executor/host/overlay.cpp:436-498 | compaction changes no byte that can be read, durable or not |
| OverlayCommit.FirstSyncCountsIffMetaFits | executor/host/overlay.cpp:226-229 | a first sync is found by a later load exactly when its meta record fits in 64 KB; otherwise the load finds an empty overlay |
| OverlayCommit.CompactionKeepsIffMetaFits | executor/host/overlay.cpp:444-466 | compaction of a file with live blocks keeps them exactly when the meta record it writes first fits; otherwise the file loads as a new one |
| OverlayLimits.OwnRecordFits | executor/host/overlay.cpp:396-402 | a file whose last meta record was written by this code, for a disk that is not empty, opens to a name and size whose record fits again: only another writer's file can meet that limit |
| OverlayLimits.CompactionLosesAll | executor/host/overlay.cpp:226-229 | an example: a meta record of exactly 64 KB in tighter JSON and 255 dead blocks; one byte written, the sync answers true and the byte reads back, and the file opens as if nothing had ever been written |
| OverlayCommit.SpaceAccounted | executor/host/overlay.cpp:419-424 | the block records in the file number the index and the dead count together |
| OverlayRun.StepRefines | executor/host/overlay.cpp:320-498 | one step: every write, read, sync, reopening and crash does what a flat byte array with a durable copy and the blocks gathered since does, from any state a run can be in; a write that succeeds makes everything durable if 4096 blocks are gathered with it, and nothing if fewer are; one that meets a block it cannot read stops before it, at a block written in part |
| OverlayRun.RunRefines | executor/host/overlay.cpp:146-498 | every run of those operations, with any failures of I/O (blocks that cannot be read, writes, compactions) and crashes anywhere in a write or a compaction, gives the answers of a run of that flat array |
| OverlayRun.WriteFlushes | executor/host/overlay.cpp:356-384 | one write, told of the blocks it touches and those gathered before: with under 4096 together the file and its index are untouched; with 4096 or more a write that succeeds leaves nothing in memory and the durable copy is the current one; it succeeds whenever every block can be read and either they are fewer or the I/O works |
| OverlayRun.RunUnder | executor/host/overlay.cpp:356-384 | memory is bounded: through every run from under 4096 gathered blocks whose writes all succeed there are always under 4096 |
| OverlayRun.WriteLeavesUnder | executor/host/overlay.cpp:356-384 | in every run, whatever failed before, a write that succeeds leaves under 4096 blocks gathered |
| OverlayRun.PutGathers | executor/host/overlay.cpp:363-380 | a write gathers exactly the blocks its bytes are in |
| OverlayRun.ReachIsFirst | executor/host/overlay.cpp:363-380 | a write stops at the first block that it covers in part, that is on the disk and not in memory, and that cannot be read |
| OverlayRun.DieRuns | executor/host/overlay.cpp:387-498 | opened after a crash at any byte of a sync or on either side of the rename, the disk is as before the sync or as after it |
| OverlayRun.SyncRuns | executor/host/overlay.cpp:387-432 | a sync that fails leaves the durable copy, one that succeeds makes the current one durable; neither changes what is read |
| OverlayRun.SpaceAfterSync | executor/host/overlay.cpp:387-439 | after a sync that wrote and compacted where it should, fewer than max(256, live) of the file's block records are dead |
| OverlayRun.SyncAppends | executor/host/overlay.cpp:387-439 | a sync only adds to the end of the file, unless 256 block records and as many as are live are dead with it |
| OverlayRun.VersionCounts | executor/host/overlay.cpp:394-431 | each sync counts the version one up, in 32 bits, and gives it to the blocks it writes |
| OverlayRun.CompactionKeepsVersions | executor/host/overlay.cpp:436-498 | compaction keeps the blocks, their versions and the commit version, and leaves nothing dead |
| OverlayRun.NewDisk | executor/host/overlay.cpp:295-318 | an overlay without a file reads as its image and is a state runs start from |
| OverlayRun.UntouchedByte | executor/host/overlay.cpp:302-318 | a byte of a block never written is the image's, or zero past its end |
| OverlayRun.OldDisk | executor/host/overlay.cpp:178-273 | so is any file with a header, whatever it ends in: it is a prefix of that file and reads the same durable as current |
| OverlayRun.RefusedIff | executor/host/overlay.cpp:192-197 | a file is refused exactly if it does not start with XOVL and format 1 |
| Overlay.Overlay.Make | executor/host/overlay.cpp:146-166 | opening as a method gives the state Open computes, or no overlay where the header is not one |
| Overlay.Overlay.Load | executor/host/overlay.cpp:178-273 | the record loop with its flags and pending list leaves the fields that Load of the whole file describes, and cuts the file |
| Overlay.Overlay.ReadRecord | executor/host/overlay.cpp:211-264 | one turn of the loop is one step of the scan, and stops where the scan stops |
| Overlay.Overlay.CommitRecord | executor/host/overlay.cpp:238-260 | a commit record settles the pending blocks, a changed reset version dropping what was before |
| Overlay.Overlay.SettlePending | executor/host/overlay.cpp:246-251 | the pending loop counts superseded blocks and leaves the last place of each |
| Overlay.Overlay.ReadBlock | executor/host/overlay.cpp:302-318 | dirty over indexed over image block, zeros past the image's end; a failure exactly when the block has to be read and cannot be |
| Overlay.Overlay.RunLength | executor/host/overlay.cpp:335-338 | a run is of whole blocks that are neither dirty nor in the index |
| Overlay.Overlay.CopyRun | executor/host/overlay.cpp:339-345 | a run copied from the image at once and zero-filled is what reading it block by block gives; it fails exactly when a block of the image in it cannot be read |
| Overlay.Overlay.CopyPart | executor/host/overlay.cpp:347-351 | part of one block copied into the buffer is those bytes of the disk, unless the block cannot be read |
| Overlay.Overlay.Pread | executor/host/overlay.cpp:320-354 | -1 exactly when a block the read covers, in no memory and not all past the image's end, cannot be read; otherwise the buffer gets min(n, size - offset) bytes of the disk, whichever blocks are dirty or indexed; the rest of the buffer is untouched |
| Overlay.Overlay.Pwrite | executor/host/overlay.cpp:356-384 | a write leaves the state Write computes, of which WriteFlushes says when it is flushed: refused without effect, gathered up to a block that cannot be read, or gathered whole, with a sync from 4096 blocks on |
| Overlay.Overlay.PutBytes | executor/host/overlay.cpp:363-380 | the write loop gathers the blocks as Put does, up to the first partly written one that cannot be read |
| Overlay.Overlay.PutBlocks | executor/host/overlay.cpp:405-411 | the block loop appends the records of all blocks in order and notes where each one's data starts |
| Overlay.Overlay.Sync | executor/host/overlay.cpp:387-432 | sync as a method leaves the state Sync computes |
| Overlay.Overlay.AppendBatch | executor/host/overlay.cpp:396-431 | one version is appended with one write, and memory changes only if that write succeeds |
| Overlay.Overlay.UpdateIndex | executor/host/overlay.cpp:419-424 | the index loop merges the new places and counts those that superseded one |
| Overlay.Overlay.MaybeCompact | executor/host/overlay.cpp:436-498 | compaction as a method leaves the state Compacted computes |
| RingLayout.HeadRoundTrip | MacBrowser/browser_shm.c:22-34 | a message head written is the kind and length read |
| RingLayout.HoldsAppend | MacBrowser/browser_shm.c:36-72 | a ring that holds a queue of messages holds it with one more once that message's bytes are stored after it |
| RingSafety.FreeIsFree | MacBrowser/browser_shm.c:15-20 | the modular free-space formula is the ring size less 4 less what is between the two positions |
| RingSafety.PlanStores | MacBrowser/browser_shm.c:57-66 | the stores of a push, one byte at a time, leave the wrap mark, head and payload where they belong |
| RingSafety.StoresInFreeSpace | MacBrowser/browser_shm.c:45-66 | no store of an accepted push is to a place between the read and write positions |
| RingSafety.PopHeadKeeps | MacBrowser/browser_shm.c:83-97 | reading a head, a wrap mark included, keeps the invariant: the two defensive ways out are not taken |
| RingRun.StepKeeps | MacBrowser/browser_shm.c:36-110 | every step of either side keeps the invariant that ties indices, stored bytes and both sides' progress to the queue of messages |
| RingRun.PoppedIsPushed | MacBrowser/browser_shm.c:36-110 | in every interleaving the popped messages are the first of the pushed ones, each with its kind, true length and payload up to the capacity; equal indices mean all are popped; the defensive branches are never reached |
| RingRun.NothingOverwritten | MacBrowser/browser_shm.c:36-71 | in every interleaving no store changes a byte that is still to be read, however old the read index it counted with |
| RingRun.PushArrives | MacBrowser/browser_shm.c:57-71 | once a push has been accepted and the producer has made its stores, whatever the consumer did in between, the commit adds just that message to what was sent |
| RingRun.EmptyIffAllPopped | MacBrowser/browser_shm.c:81-81 | the indices are equal exactly when every pushed message has been popped |
| RingRun.AcceptedIffRoom | MacBrowser/browser_shm.c:45-55 | a push is accepted exactly when used bytes, the skipped tail and the message leave 4 bytes spare |
| RingRun.PushInNumbers | MacBrowser/browser_shm.c:36-71 | which pushes are reserved, too long, refused or accepted, the index and the room, as numbers |
| RingRun.PushInBytes | MacBrowser/browser_shm.c:22-66 | the bytes an accepted push stores and where: zeros at a skipped end, kind, length, payload |
| RingRun.EmptyRingTakes | MacBrowser/browser_shm.c:45-55 | for every write index, exactly which messages an empty ring accepts |
| RingRun.HalfRingIff | MacBrowser/browser_shm.c:45-55 | a message is accepted by an empty ring wherever its indices stand if and only if it takes up no more than half the ring |
| RingRun.HalfWayIsReached | MacBrowser/browser_shm.c:36-110 | a run from a new ring to an empty one with both indices half way round |
| RingRun.StarvesIff | MacBrowser/browser_shm.c:45-55 | an empty ring takes a message at once or never: it stays as it is through every interleaving of steps that push nothing else, exactly if it refuses the message where its indices stand |
| RingRun.OverHalfStarves | MacBrowser/browser_shm.c:36-110 | for every message over half the ring there is a run from a new ring to an empty one that never takes it, whatever steps follow that push nothing else |
| RingBuffer.BrRing.Push | MacBrowser/browser_shm.c:36-72 | push on the array: its result code, and a ring that holds the queue with the message added or is unchanged |
| RingBuffer.BrRing.Pop | MacBrowser/browser_shm.c:74-110 | pop on the array: the first message's kind, length and payload up to the capacity, and a ring that holds the rest |
| Grouping.OrderSorted | provisioning/fat_cfm.py:57-69 | the order of grouping is by when a key is first met, then by position |
| Grouping.OrderComplete | provisioning/fat_cfm.py:57-69 | every position is in that order and no other |
| Grouping.GroupedTwice | provisioning/fat_cfm.py:57-69 | grouping what is grouped moves nothing |
| ForkRoundTrip.ReadsBack | provisioning/fat_cfm.py:31-81 | for every list of resources that write_rsrc packs without an error, data offsets past 24 bits included: exactly what read_rsrc returns of it |
| ForkRoundTrip.RoundTripIffNamesClear | provisioning/fat_cfm.py:31-81 | with data offsets of 24 bits that is the resources grouped by type, with ids, attributes, names and data, if and only if no name starts at 0xFFFF in the name list |
| ForkRoundTrip.RoundTripIff | provisioning/fat_cfm.py:31-81 | with any offsets, where the bits past the 24th show among the attributes: the round trip holds if and only if all offsets fit 24 bits and no name starts at 0xFFFF |
| ForkRoundTrip.WordBackIff | provisioning/fat_cfm.py:43-73 | one reference: attributes and offset are read back if and only if the offset fits 24 bits; otherwise its upper bits are or-ed into the attributes |
| ForkRoundTrip.CrowdedNameIsLost | provisioning/fat_cfm.py:69-73 | 257 named resources that are written without error and do not read back |
| ForkRoundTrip.ForkWords | provisioning/fat_cfm.py:74-81 | the four words at the start of a fork and again of its map, the data length that no reader looks at included; where the data, the map, the types and the names are; zeros between |
| ForkRoundTrip.UnusedIsZero | provisioning/fat_cfm.py:73-73 | the last word of every reference is zero |
| ForkAgain.SecondRoundTrip | provisioning/fat_cfm.py:31-81 | what was read can be written and read once more without change, given a bound on the data of the original list alone: all of it but the last resource of the regrouped list starts within 16 MB |
| ForkAgain.SecondRoundTripIff | provisioning/fat_cfm.py:31-81 | and only then, where the bits past the 24th show among the attributes |
| ForkAgain.ReachesIff | provisioning/fat_cfm.py:57-60 | all offsets fit 24 bits exactly when the data without the last resource's is under 16 MB |
| ForkAgain.PacksAgain | provisioning/fat_cfm.py:54-81 | regrouped resources are packed without an error when the original ones were, with every name at the same place |
| ForkAgain.HeavyFailsTheSecondTime | provisioning/fat_cfm.py:31-81 | three resources that come back from the first round trip, by type, and not from the second |
| ForkCode.WriteRsrc | provisioning/fat_cfm.py:54-81 | the grouping and packing loops write that layout, or raise exactly when a number does not fit its field |
| ForkCode.Collect | provisioning/fat_cfm.py:56-60 | the grouping loop leaves the types as first met, each with its resources and data offsets in order |
| ForkCode.AddReferences | provisioning/fat_cfm.py:68-73 | the reference loop of one type appends its references and names, or stops where one cannot be packed |
| ForkCode.ReadRsrc | provisioning/fat_cfm.py:31-51 | the nested reading loops return what ReadFork describes, for any bytes at all |
| FatMergeProof.TakenBackIff | provisioning/fat_cfm.py:84-92 | walking a rebuilt 'cfrg' from any member on gives the members put in exactly when the size found where each starts is its length (or more, for the last) |
| FatFragments.MergeKeepsFragments | provisioning/fat_cfm.py:121-154 | the whole of a merge, wherever the first file's 'cfrg' starts within 24 bits of the resources it lists: what is read back lists both files' members in order exactly under the condition of FragmentsKeptIff; the k-th is the one it was but for offset and length, and selects from the merged data fork what it selected from its own, always or, for the first file's, exactly when it stays within its fork |
| FatMergeProof.FragmentsKeptIff | provisioning/fat_cfm.py:130-144 | the merged 'cfrg' lists the members it was made of exactly when the sizes of both files' members, one after another, read as their lengths |
| FatMergeProof.FragmentsKeptByFirst | provisioning/fat_cfm.py:84-92 | for files whose entries have 42 bytes at least that is: one has no members, or the last entry of the first is whole |
| FatExamples.EmptyAtEndGrows | provisioning/fat_cfm.py:121-154 | two whole files that merge accepts: an empty fragment at the end of the first one's fork selects something in the merged file |
| FatExamples.CutShortIsLost | provisioning/fat_cfm.py:121-154 | two whole files that merge accepts: the first one's last entry is cut short, and the merged 'cfrg' cannot be read |
| FatMergeProof.MovedFields | provisioning/fat_cfm.py:137-141 | moving a member changes its offset and, where 0 meant to the end, its length; nothing else |
| FatMergeProof.SecondSelectsTheSame | provisioning/fat_cfm.py:135-146 | every member of the second file selects from the merged data fork the bytes it selected in its own, also where it runs past the end |
| FatMergeProof.FirstSelectsTheSameIff | provisioning/fat_cfm.py:135-146 | a member of the first file does so exactly when it stays within its fork, or starts past the merged one, or nothing follows |
| FatResources.MergedFile | provisioning/fat_cfm.py:121-154 | the merged MacBinary reads as the two data forks end to end and as a fork written of the first file's resources, only 'cfrg' 0 changed, to a length told from both files' members |
| FatResources.MergedResources | provisioning/fat_cfm.py:121-154 | what is read of that fork, told from the two inputs: the new 'cfrg' if the first file's starts within 24 bits, and otherwise what is where the lower 24 lead; all other resources by type and unchanged if all start within 24 bits at the new length and the first file's names are clear, and only if where offsets past 24 bits show among the attributes |
| FatResources.CfrgBack | provisioning/fat_cfm.py:31-81 | of any list that is packed, the 'cfrg' 0 that is found on reading it back, in range or not |
| FatExamples.LongerCfrgPushesOut | provisioning/fat_cfm.py:121-154 | two whole files that merge accepts: the first one reads back as it is, and with the longer 'cfrg' its last resource no longer does |
| FatExamples.LateCfrgIsLost | provisioning/fat_cfm.py:121-154 | two whole files that merge accepts: listed by type the first one's 'cfrg' comes past 16 MB, and the merged file's reads as empty |
| FatResources.ClassicMerge | provisioning/fat_cfm.py:100-129 | a classic build merged with another, given in either order: the classic one's header and resources, those of the other it lacks, the other's data fork; the resources are read back by type if all start within 24 bits and the names are clear, and only if where offsets past 24 bits show |
| FatDecides.ClassicIff | provisioning/fat_cfm.py:95-97 | which builds are classic: no data fork, some CODE resource, no cfrg |
| FatDecides.FoundIff | provisioning/fat_cfm.py:132-133 | the cfrg 0 that is used is the first listed |
| FatDecides.MergeOutcomes | provisioning/fat_cfm.py:134-144 | of two files with fragments: refused for a shared machine exactly if two members begin with the same four bytes; for a fragment elsewhere exactly if such a member comes before any other that cannot be moved; made exactly if neither is so and every number fits |
| FatDecides.MovedAllIff | provisioning/fat_cfm.py:137-141 | the members can all be moved exactly if each is 32 bytes at least, in the data fork and its numbers fit; what stops the first that cannot |
| FatDecides.JoinedFork | provisioning/fat_cfm.py:135-148 | the second data fork starts at the next multiple of 16, after zeros |
| FatDecides.NewCfrgHead | provisioning/fat_cfm.py:142-144 | the new cfrg has the first one's head but for the count, then the members |
| FatDecides.MissingJoins | provisioning/fat_cfm.py:109-110 | what a classic build takes over is in the other's order, resource by resource |
| FatDecides.MissingOne | provisioning/fat_cfm.py:109-110 | and is each one of which it has none of that type and ID |
| FatExamples.ClassicPushesOut | provisioning/fat_cfm.py:100-118 | two whole files that are each read back and whose classic merge is not |
| FatMergeProof.ForksBack | provisioning/fat_cfm.py:147-154 | a header stamped with lengths and CRC over padded forks reads back as those forks |
| FatMergeProof.WithCfrgByType | provisioning/fat_cfm.py:145-147 | replacing the 'cfrg' data and grouping by type commute, so every other resource survives in place |
| FatMergeCode.ReadMembers | provisioning/fat_cfm.py:84-92 | the member loop returns the entries Members describes, or raises where the resource is too short |
| FatMergeCode.MoveMembers | provisioning/fat_cfm.py:137-141 | the patch loop moves every member, or stops at the first that cannot be moved, with its reason |
| FatMergeCode.ComputeCrc | provisioning/fat_cfm.py:157-164 | the nested CRC loops compute Crc, which CrcIsRemainder says is the remainder by x^16 + x^12 + x^5 + 1 |
| CrcProof.CrcIsRemainder | provisioning/fat_cfm.py:157-164 | the CRC of any bytes is the one 16-bit number congruent, over the field of two elements, to the bytes as a polynomial times x^16 modulo x^16 + x^12 + x^5 + 1 |
| CrcProof.CrcOfOne | provisioning/fat_cfm.py:157-164 | of the one byte 1 it is 0x1021 |
| FatMergeCode.MergeFiles | provisioning/fat_cfm.py:121-154 | merge as a method computes Merge, errors and their order included |
| Adc.DecompressExpands | provisioning/ndif.py:26-51 | decompressing the bytes of any valid tokens gives their byte-at-a-time expansion, cut to the length asked for |
| Adc.ParseIff | provisioning/ndif.py:30-44 | a byte string is the encoding of at most one list of tokens, the one Parse finds |
| Adc.CopyIsBack | provisioning/ndif.py:45-50 | the slice copy and the overlapping loop are both the byte-at-a-time copy |
| Adc.BackRepeats | provisioning/ndif.py:45-50 | which repeats the last off bytes over and over |
| Adc.TokenAtIff | provisioning/ndif.py:31-44 | the bit fields of the three kinds of token: one is at an offset exactly when its bytes are |
| Adc.AdcDecompress | provisioning/ndif.py:26-51 | the decoding loop, negative indices and short input included, returns what Decompress describes |
| Adc.CopyBack | provisioning/ndif.py:45-50 | the copy loop of one back reference, or the IndexError it raises |
| Adc.FarBack | provisioning/ndif.py:45-50 | a back reference past the start, by Python's negative indices: exactly when it raises, and the bytes it copies otherwise |
| Adc.TokensInBytes | provisioning/ndif.py:31-44 | the bytes of each kind of token at both ends of its ranges |
| Ndif.StoredInPlace | provisioning/ndif.py:88-100 | the stored bytes of every chunk that lie in its sectors are in the image at those sectors, whatever the other chunks hold |
| Ndif.RawImageBytes | provisioning/ndif.py:75-100 | with chunks in order that fit, the image has just its sectors: in each chunk's what the chunk stores, then zeros |
| Ndif.JustSectorsIff | provisioning/ndif.py:88-100 | with any chunks the image has its sectors at least, and no more exactly if nothing stored goes past the last one; of chunks in order, exactly if none that is stored as it is does |
| Ndif.LastStoredWins | provisioning/ndif.py:88-100 | of chunks that start within the image, in any order and of any length, each byte is the one stored there last, or zero |
| Ndif.LongChunkLengthens | provisioning/ndif.py:88-100 | an image of one sector that comes out 513 bytes long |
| Ndif.LookupIsFirst | provisioning/ndif.py:54-72 | where read_rsrc succeeds, the independent finder returns the first resource of that type and ID it lists |
| Ndif.LookupBeforeDamage | provisioning/ndif.py:54-72 | where read_rsrc raises, the finder still returns the first such resource among the types that could be read before |
| Ndif.FindResource | provisioning/ndif.py:54-72 | the finder as its nested loops, on any bytes: what it returns and where it raises |
| Ndif.ReadChunksIff | provisioning/ndif.py:84-87 | a 'bcem' reads as given chunks exactly when their 12-byte entries, start in three bytes and kind in one, are there one after another |
| Ndif.ReadBcem | provisioning/ndif.py:81-87 | the entry loop returns the sectors and chunks ReadImage describes, or raises where the resource ends too soon |
| Ndif.ToRaw | provisioning/ndif.py:75-100 | to_raw as a method: it computes Raw, of which FirstBcemDecides and MadeRaw say what it is |
| Ndif.Unpack | provisioning/ndif.py:81-100 | the chunk loop builds RawImage, or raises on an unknown kind or a bad stream |
| NdifProof.MadeRaw | provisioning/ndif.py:75-100 | the image told from the bytes of its entries and its data fork: in the sectors of a chunk of ADC tokens their expansion, cut to fit; of one stored as it is its bytes; then zeros, and only zeros for empty chunks, comments and the end; and just the sectors the header says |
| NdifProof.RaisesIff | provisioning/ndif.py:75-100 | to_raw raises exactly when the header or an entry is cut short, or some chunk is of no known kind or of ADC bytes that do not decode |
| NdifProof.SmallImage | provisioning/ndif.py:75-100 | an image of one sector whose one chunk is the bytes 80 41: 41 and zeros |
| NdifProof.FirstBcemDecides | provisioning/ndif.py:75-80 | the first bcem 128 of the resource fork makes the image; without one the data fork is the image |
| Alias.RewrittenParses | provisioning/build.py:247-279 | a rewritten alias parses as the new volume (27 bytes at most), the new date, ID 0 and the joined new path; other tags keep order and bytes, the rest of the head is kept, the length field is the length |
| Alias.TagsBack | provisioning/aliases.py:159-165 | tags written with their padding are the tags read, in order, up to the end mark or to fewer than four bytes |
| Alias.NewTagsKeep | provisioning/build.py:267-275 | rewriting drops the folder IDs, sets every path tag and leaves the others in order |
| Alias.SetIdsParses | provisioning/build.py:311-318 | setting the IDs changes the parsed file ID and nothing else that parses |
| Alias.SplitJoinIff | provisioning/build.py:261-272 | a joined path splits into its segments exactly when there are some and none has a colon |
| Alias.JoinSplit | provisioning/build.py:261-272 | splitting and joining a path changes nothing |
| Alias.RewriteRecord | provisioning/build.py:247-279 | rewrite_alias as its loops: it computes RewriteAlias, of which RewritesIff says which records it rewrites and to what |
| AliasProof.RewritesIff | provisioning/build.py:247-279 | for every record: it is rewritten exactly if its head names the target volume, its last path tag is there and not empty, the mapper gives something for the segments after the first and the new record fits its length field, and then to what the mapper gave; exactly when it raises; and left alone otherwise |
| AliasProof.GoesOnSplit | provisioning/build.py:261-261 | the segments handed to the mapper are those that joined by colons after a first make the path |
| Alias.WriteTags | provisioning/build.py:270-277 | the tag-writing loop, or the error where a tag is too long |
| Alias.Parse | provisioning/aliases.py:150-169 | parse_alias as its loop over a dictionary of tags |
| AliasProof.ParsedFields | provisioning/aliases.py:150-169 | what is parsed of a record, byte by byte, with a path tag and without |
| MacFiles.ReadersAgree | provisioning/populate_disk.py:150-181 | the two readers that do not look at the name find type, creator, flags and both forks of every file that is built; the third finds the forks exactly when the name is not empty |
| MacFiles.NamelessIsNotRead | provisioning/populate_disk.py:150-181 | an empty file of no name, which two readers take and the third does not |
| MacFiles.ThroughAppleDouble | provisioning/containers.py:255-273 | a file built, turned into AppleDouble and parsed has the same resource fork and Finder information |
| MacFiles.DoubleBack | provisioning/populate_disk.py:119-134 | both AppleDouble readers find the resource fork, one the Finder information too |
| MacFiles.BuiltFields | provisioning/populate_disk.py:150-181 | what each header field of a built file reads as, and where the forks are |
| MacFiles.BuiltRest | provisioning/populate_disk.py:150-181 | the rest of a built file: the name cut to 63 bytes, the CRC of the 124 bytes before it, forks filled up to multiples of 128, zeros in every unused field |
| MacFiles.DoubleFields | provisioning/containers.py:255-273 | the header and entries of the AppleDouble file that is made, byte by byte |
| MacFiles.CrcChecks | provisioning/populate_disk.py:137-147 | the CRC over any bytes followed by their own CRC is zero |
| MacFiles.BuiltChecks | provisioning/populate_disk.py:169-170 | so the CRC over the first 126 bytes of a built file is zero |
| MacFiles.BuildMacBinary | provisioning/populate_disk.py:150-181 | filling in the header field by field and padding the forks gives that file |
| MacFiles.ParseDouble | provisioning/populate_disk.py:119-134 | the entry loop returns what ParseAppleDouble describes |
| TabsProof.RunSound | executor/server/session.go:30-105 | in every run with clocks that do not go back: holder and handing are nobody or tabs heard from within the lease, and a screen has a holder |
| TabsProof.OneController | executor/server/session.go:48-71 | over whole runs: between two tabs being told they have control the first was silent for a lease, let go, or had control taken by another |
| TabsProof.ControlLostIff | executor/server/session.go:59-84 | a live holder loses control exactly when another tab takes it or it lets go |
| TabsProof.HolderStays | executor/server/session.go:59-84 | a holder heard from within the lease keeps control through any run in which nobody takes it and it does not let go |
| TabsProof.ScreenIsTheHolders | executor/server/session.go:86-95 | a screen that is kept was put by the present holder, which has held control ever since |
| TabReplies.ScreenAnswer | executor/server/session.go:97-105 | over every run, on the answers alone: getScreen serves a picture exactly if some tab put it and was answered true, has had control and been heard from within ten seconds ever since, this call included, and has put no other since that was answered true |
| TabReplies.PutAnswer | executor/server/session.go:86-95 | a picture is taken exactly from the tab that was told it has control and has been in touch, not let go and not had it taken since |
| TabReplies.BeatAnswer | executor/server/session.go:48-71 | what a tab that beats is told: control exactly if it takes it or no other tab has it, held exactly if it has not, how many other tabs are there, and to wait exactly if it has control and a tab is waited for |
| TabReplies.SeenIs | executor/server/session.go:31-46 | the tabs listed are those that have beaten and been in touch and not let go since, each with the time of its last beat |
| TabReplies.HolderIs | executor/server/session.go:48-84 | the holder is the tab that was told it has control and has kept it |
| TabReplies.HandingIs | executor/server/session.go:48-84 | who is handing over is the tab control was last taken from, while it is in touch and has not let go |
| TabsProof.HandingEndsIff | executor/server/session.go:59-84 | a hand-over ends exactly when its tab lets go or lapses, or control is taken from another tab |
| TabsProof.HandingSeen | executor/server/session.go:48-71 | until then every holder is told to wait |
| TabsProof.TakerWaits | executor/server/session.go:48-71 | taking control from a live holder drops its screen, and while that tab is heard and nobody else is taken from, every holder is told to wait for it |
| TabsProof.SecondTakeForgets | executor/server/session.go:67-69 | a second take forgets the first hand-over although its tab is live and has not let go |
| TabsProof.WaitsForItselfIff | executor/server/session.go:59-84 | from any state in which no tab waits for itself, an event makes one exactly if the tab being waited for beats while nobody has control |
| TabsProof.RunWaitsForItselfIff | executor/server/session.go:30-105 | so in a run a tab comes to wait for itself if and only if at some event a tab being waited for beats while nobody has control |
| TabsProof.HandingToItself | executor/server/session.go:65-68 | four events that bring it about |
| Tabs.TabSessions.Prune | executor/server/session.go:31-46 | the pruning loop keeps exactly the tabs heard from within the lease |
| Tabs.TabSessions.AnswerFor | executor/server/session.go:48-57 | the counting loop counts the live tabs other than the holder |
| Tabs.TabSessions.Beat | executor/server/session.go:59-71 | beat as a method: the state after and the answer |
| Tabs.TabSessions.Release | executor/server/session.go:73-84 | release as a method |
| Tabs.TabSessions.PutScreen | executor/server/session.go:86-95 | putScreen as a method: only the holder's is taken |
| Tabs.TabSessions.GetScreen | executor/server/session.go:97-105 | getScreen as a method: the state after and the answer, of which ScreenAnswer says what it is |
| CodecProof.BuildChainExact | client/codec-fallback.js:47-59 | the chain holds exactly the codecs that are available and fit while no better one of their tier does |
| CodecProof.BuildChainRises | client/codec-fallback.js:47-59 | its codecs are of strictly later and later tiers |
| CodecProof.ChainByName | client/codec-fallback.js:17-59 | the chain by name, each codec's limits told: VP9 or else H.264, WebP or else PNG, the HTTP stream |
| CodecProof.RequestRises | client/codec-fallback.js:275-290 | so are those of a manual pick's chain, a codec of no tier included: of a chain of later and later tiers it has the pick and exactly what that had of later tiers |
| CodecProof.EventsByName | client/codec-fallback.js:210-241 | which codecs losing ICE and a socket's end act on, by name |
| CodecProof.TimerByName | client/codec-fallback.js:128-148 | the next codec is selected, with a timer unless it is the HTTP stream |
| CodecProof.FrameEnds | client/codec-fallback.js:244-254 | the first frame ends its attempt's timer and is said once |
| CodecProof.NoneLeft | client/codec-fallback.js:128-204 | where no codec is left, at the end of a chain or at a start or a size that none fits, that is said and no timer runs |
| CodecProof.PhaseIsSaid | client/codec-fallback.js:85-290 | after every event the phase said last is the controller's |
| CodecProof.RunSound | client/codec-fallback.js:85-290 | after every run of events: the index is in range, at most one timer is pending and is the one held, and the codecs selected since the last reset are of strictly later tiers, three at most |
| CodecProof.TimerOnHttpIff | client/codec-fallback.js:179-204 | a timer is left running on httpstream exactly by a resolution change that leaves only httpstream while one was running |
| CodecProof.TimerOnHttpHappens | client/codec-fallback.js:179-204 | two events that do it |
| CodecProof.SelectsWhileOffIff | client/codec-fallback.js:85-290 | in every off state the invariant allows: a codec is selected exactly at a start with the emulator running and a codec to offer, at a resolution change that rebuilds the chain, or where the codec in use is given up and the chain has another |
| CodecProof.SelectsWhileOffOnceWoken | client/codec-fallback.js:85-290 | over every run: other than a start, whatever selects a codec while off is such a resolution change or follows one since the controller went off |
| CodecProof.SelectsWhileOffHappens | client/codec-fallback.js:179-242 | a run that selects while off twice, at a resolution change and when a socket closes after it |
| CodecProof.PickAfterHttp | client/codec-fallback.js:275-290 | after httpstream was picked by hand a later pick can fall back to nothing else |
| CodecProof.FrameConnectsIff | client/codec-fallback.js:244-254 | a frame leaves a controller connected without a codec exactly when none is in use and no frame was seen since; before any start, for one |
| Codec.CodecFallbackController.StepChain | client/codec-fallback.js:128-148 | stepping the chain: state, what is emitted and the codec returned |
| Codec.CodecFallbackController.OnResolutionChange | client/codec-fallback.js:179-204 | a resolution change: retained, rebuilt or exhausted |
| Codec.CodecFallbackController.OnCodecChangeRequested | client/codec-fallback.js:275-290 | a manual pick: the loop over later tiers, the first attempt and the codec returned |
| Codec.CodecFallbackController.Begin | client/codec-fallback.js:154-172 | start: the chain built, the first attempt and the codec returned |
| Codec.CodecFallbackController.OnIceFailed | client/codec-fallback.js:210-222 | ICE failed: nothing unless a WebRTC codec is in use, else its timer cancelled and the next codec tried |
| Codec.CodecFallbackController.OnWsState | client/codec-fallback.js:225-241 | a socket closed or in error: nothing unless connecting or connected on one of the two later tiers, else the next codec tried |
| Codec.CodecFallbackController.OnFirstFrame | client/codec-fallback.js:244-254 | the first frame: the timer cancelled and connected, once |
| Codec.CodecFallbackController.OnEmulatorState | client/codec-fallback.js:256-267 | the emulator going off puts the controller before its chain; coming on does nothing more |
| Codec.CodecFallbackController.TimerFires | client/codec-fallback.js:106-119 | the no-frames timer |
| Codec.BuildCodecChain | client/codec-fallback.js:47-59 | the loops over tiers and codecs build the chain |
| VolumeSize.EndsIff | provisioning/installers.py:165-177 | the search for a size ends if and only if the items have at most 60680 forks that are not empty |
| VolumeSize.NeverEnough | provisioning/installers.py:165-177 | 60681 files of one byte for which it does not, and 60680 for which it does |
| VolumeSize.VolumeMb | provisioning/installers.py:165-177 | where it ends: the size is enough, is the first of those tried that is, and needs no more than 65535 blocks |
| VolumeSize.EnoughIff | provisioning/installers.py:172-175 | a size is enough exactly if the rounded forks and 600 bytes an item leave 31 MB and 8 percent to spare |
| VolumeSize.NothingTakes64 | provisioning/installers.py:168-176 | no items take 64 MB, the first size tried |
| VolumeSize.EnoughIsRoom | provisioning/installers.py:172-176 | a size that is enough holds every fork, rounded or not, and 600 bytes an item |
| VolumeSize.TooManyForksRaise | provisioning/installers.py:171-177 | with more forks every pass raises the size by 32 MB at least, whatever is in them |
| VolumeSize.RaisesBelowBound | provisioning/installers.py:171-177 | with fewer, no size that is raised exceeds a bound computed from the items |
| VolumeSize.AllocatedAllBounds | provisioning/installers.py:173-173 | the rounded forks take up their lengths and at most one block for each that is not empty, and one at least |
| VolumeSize.BlockBounds | provisioning/installers.py:172-172 | the block size is enough for 65535 of them and no larger than that needs |
| VolumeSize.BlockSectors | provisioning/installers.py:172-172 | it is of whole sectors, one at least |
| BakeWaves.EachRunsOnce | provisioning/bake.py:1070-1078 | the waves together are the listed bakes, each as often as it is listed, whatever depends on what |
| BakeWaves.InOrderIff | provisioning/bake.py:1073-1076 | every bake is in a later wave than all listed bakes it depends on if and only if the fallback is never used |
| BakeWaves.WaitsForOne | provisioning/bake.py:1075-1075 | where the fallback is not used a bake after the first wave depends on one of the wave before its own: it runs in the first wave it can |
| BakeWaves.AllAtOnce | provisioning/bake.py:1075-1076 | where every listed bake waits for one, they all run at once |
| BakeWaves.NeverStuckIff | provisioning/bake.py:1075-1075 | the fallback is never used if and only if no listed bakes depend on each other round in a circle, and if and only if they can be ranked |
| BakeWaves.RunWaves | provisioning/bake.py:1073-1078 | the loop ends and runs those waves |
| BakeWaves.BaseDepsExact | provisioning/bake.py:1030-1047 | base_deps ends on every set of definitions and finds just what the System and all below it need, circles or not |

## Left out

- Overlay.Overlay.Pread: which blocks cannot be read is a parameter, as are failed creation, writing, flushing and
  compaction; what a failed read leaves in the part of the buffer it was for is not modelled.
- Reads that fail while a file is opened: they end the load early, as an end of the file would.
- Torn and reordered writes: a crash leaves a prefix of the bytes being written, as the format has no checksums; a
  crash before the 8-byte header is whole makes open fail and is not modelled. Truncation succeeds.
- Offsets near 2^64 and disks of more than 2^44 bytes: block numbers fit 32 bits and offset + n does not overflow.
- Windows branches, fsync and errno, the Go twin of the overlay, and the opener that hands overlays out.
- Overlay.Overlay.MaybeCompact: one flag stands for every way a compaction can fail, since each leaves the old file; the
  new one is written in one piece, where the original writes a record at a time to a name nothing reads before the
  rename.
- Memory ordering: ring steps are sequentially consistent; the fences that make them so on hardware are assumed.
- A null payload or buffer and the poisoning the host's copy of the ring adds.
- br_log and the log slots: lossy on purpose.
- ForkRoundTrip.RoundTripIff: where an offset has bits past the 24th that the attributes already have, the round trip
  can hold by what else is in the file; ReadsBack then says what is read.
- FatResources.MergedResources: likewise.
- Bytearrays patched in place by the merge are sequences that are replaced; no two names share one.
- MacRoman: text is bytes; a character MacRoman lacks, replaced by a question mark, does not arise.
- Mappers, redirects and Chooser records of build.py: rewrite_alias takes any mapping of segments.
- Alias files as a whole: that the resources beside an edited 'alis' survive is the round trip of resource forks again.
- MacBinary types and creators of other than 4 bytes, and the sidecar files NDIF's reader looks for.
- HTTP handlers, cookies and claims around the tabs, and listeners that call back into the codec controller.
- Debug events of the codec controller, the times in them, and the codec and reason its phase events carry.
- VolumeSize.VolumeMb: asks for few enough forks, since the original does not end otherwise (EndsIff); 1.08 is exact
  where the original multiplies in floating point.
- used, staged_size and unlisted of installers.py: easy next to the sizing loop.
- The bakes themselves: processes, logs, up-to-date checks and the thread pool of a wave; derives run after the waves.
- Hashing, hfsutils, archives, guests and all user interface code.
