# A Dafny model of a littlefs kernel

This project models the parts of a copy-on-write, power-loss-safe flash
filesystem whose correctness is hardest to see from the code, and proves what
they are for. Each layer uses the theorems of the one below it.

- **Files.** `CtzLayout` shows that the closed-form index of a CTZ skip list is
  exact for every offset and block size. `CtzChain` reads chains: the
  logarithmic seek, the backward collector, the range reader. `CtzImage`,
  `CtzWrite` and `CtzStream` write them: build, streaming append, copy-on-write
  shrink. `File` puts a file handle on top; in every run its staged chain reads
  as the abstract bytes while the last synced file survives every device state.
- **The metadata log.** `Tags` and `Crc` give words and checksums, `Scanner` the
  theory of a chained log over any decoder, `Log` its metadata instance. The
  reader (`LogReader`), both iterators (`LogBackward`) and the commit builder
  (`LogWriter`) meet in the state they all track: what is written is read,
  forward and backward, and a verified commit is never lost. `LogChecks` says over raw
  bytes which commits are verified, `LogWindows` what is read behind them,
  `CrcChanges` that the checksum notices one changed byte. `Vectors` holds known
  answers from outside the definitions.
- **Directories.** `Directory` replays splices, `Attributes` shows that the
  backward attribute walk equals the forward replay. `Operations`, `Compaction`
  and `Rebuild` prove that appending and rebuilding mean the same for every
  operation, `Effects` what that is in the bytes stored, `WellFormedness` and
  `Sizes` that both keep the log well formed and that a forced rebuild fits.
  `Prefixes` is the listing of a log without splices. `BlockItems` carries this to bytes. `Split` cuts a
  directory into a chain that lists the same entries.
- **Global state.** `Gstate` is the XOR over the reachable pairs, `Protocol` and
  `Rename` the cross-directory rename and mount recovery, `Recovery` the mount on
  any global state, `Conservation`, `Unthread` and `Relocation` what splits, drops and moves of pairs keep, `Addresses`
  what directories read as after a move. A commit
  here is one atomic step on what a pair reads as; `Rebuild` shows that both ways of
  committing are that step, and `Landings` that a commit that splits its pair reads
  the same to all who read directories. So every commit of a rename, a write, a
  drop, a relocation or a mount may split. `Runs` puts them together: any run of
  these with a crash before, between or inside any of their commits. `Twins`,
  `Sweep` and `Phantoms` are the relocation that needs two commits, which is not
  among them.
- **Blocks.** `Structs`, `ChainScan` and `Scan` show the used-block scan
  complete, `Liveness` says so of what directories show, `Bitmaps` that the
  lookahead cache never calls a used block free, and `Supply` that an open file
  gets blocks neither of its versions owns.
- **Small refinements.** `Brent` (cycle detection), `Nor` (the NOR write-back
  window) and `Storage` (the aligned range reader).

The arithmetic and bit-counting behind them is in `Words`, `Bits` and `Grid`.

Block addresses, offsets, ids and lengths are naturals, with the `u32` range
stated where it matters; bytes and checksums are bit vectors. A tag is carried
as its four fields, and `Tags` proves that joining, splitting and XOR act on
them as on the word. The log theory takes the wire format (`Log.Wire`) as a
parameter with laws; `Log.LittlefsLawful` shows that the concrete format obeys
them. Capacities (queue, slots, bitmap, cuts) are parameters; a bounded walk says when it
succeeds.

## What was found

The model follows the code, also where the code does not do what its
documentation says. In eight places it does not, and for each the exact condition is
proved.

- **A half-failed `set_len` is not synced.** `set_len` extends a file in chunks
  and marks the handle dirty after the last one (`src/file.rs:573-598`), so a
  failing later chunk leaves a clean handle over a longer file and `sync`
  (`src/file.rs:606-609`) returns success without a commit.
  `File.HalfGrownFileIsLost` is the input. `File.File.Sync` makes the staged file
  durable if and only if this has not happened since the last clean point.
- **A mount during a two-commit relocation counts the pair twice.** Between the
  parent's commit and the predecessor's (`src/fs.rs:4894-4928`) the tree names
  the new address and the thread the old one. `accumulate_gstate` follows both
  (`src/fs.rs:967-1011`), before the sweep that would tell them apart
  (`src/fs.rs:5695-5727`), so a total that a completed rename or relocation left
  on the pair is read as one in flight. `Phantoms.FileLostExample` loses a file this
  way. `Twins.WearWindowReads` and `Twins.WornWindowReads` say when the mount
  reads right: if and only if the pair's own totals are idle.
- **Reading right is not enough there.** After a wear relocation the stale and the
  new copy share a block. The mount's cancel goes to the stale copy; if it has no
  room to append (`src/fs.rs:3607-3614`) it rebuilds into the shared block, which
  thereby becomes the new copy's active one. The balancing body then counts twice,
  the sweep no longer knows the twin (`src/fs.rs:1122-1147`) and unthreads the pair.
  `Sweep.WearWindowHeals` is the exact condition, whether the cancel appends, and
  `Sweep.SweepLosesPair` what a rebuild ends in.
- **Reads near 4 GiB overflow.** `read_ctz_at` adds up block capacities in a `u32`
  (`src/ctz.rs:494-501`). A read that enters a last block ending past the range
  panics in a build with overflow checks. In a wrapping one the block may be
  skipped, and `File::read` still reports and passes the bytes
  (`src/file.rs:472-481`). `CtzChain.LastBlockLostExample` is the input;
  `CtzChain.ReadAt` and `CtzChain.WholeUnlessLost` are exact, and
  `CtzChain.SmallBlocksNeverLap` shows who is safe.
- **The scan's slot array is shared and never cleared.** `gather_live_structs`
  is described as recording inline entries as bearing no block, latest tag first
  (`src/alloc.rs:91-93`). It leaves an earlier chain in place when an entry
  becomes inline (`Structs.StaleChainExample`), and `scan_used_blocks` hands it
  the array of the pair before (`src/alloc.rs:238-261`), so a compacted log may
  gather that pair's layouts too (`Structs.SharedArrayExample`).
  `Structs.ExactIffNeverLingers` says when neither happens, whatever the array
  held. The scan still marks all it must (`Scan.ScanComplete`), provided every
  layout left in the array is sound: a leftover chain whose blocks are another
  pair's by then could have that pair taken for visited.
- **Erased bytes do not always end the log.** They are said to
  (`src/tag.rs:38-40`). `LogWriter.ErasedEndsLog` is the exact condition: the link
  before them is valid, or the tag they decode to runs out of the block. After the
  revision word and after an odd chunk they decode as one stray tag
  (`LogWriter.ErasedBlockEmpty`); no commit is read or lost either way
  (`LogWriter.SealedRoundTrip`).
- **Padding does not always fit its tag.** A commit's padding is said to be
  representable with any program unit up to 1018 bytes (`src/meta.rs:614-617`). A
  commit that ends its block promises no window, so its commit tag carries the whole
  padding: with units of 1008 bytes or more, which the geometry checks allow
  (`src/geometry.rs:183-190`), 1023 bytes may be needed. `LogWindows.LongUnitsFail` is
  the input, `LogWindows.SealsExactly` the exact condition.
- **A mount does not always leave nothing in flight.** It is said to bring the state
  back to zero (`src/fs.rs:5733-5736`). `Recovery.MountSettles` proves that it does if
  and only if the move word has no bits but those of a move: the bit that the C writer
  packs in for orphans stays at every mount, as the code's own notes on it expect
  (`src/gstate.rs:166-183`).

## Model

| member | source | states |
|---|---|---|
| `Words.LeNatRoundTrip` | src/gstate.rs:238-248 | an address written as four little endian bytes reads back as itself, for every `u32` |
| `Crc.UpdateStreams` | src/crc.rs:53-62 | feeding a checksum piece by piece equals feeding the concatenation, for every register and every split |
| `Crc.TableIsBitwise` | src/crc.rs:53-90 | the nibble table computes the bit by bit register, for every seed and every input |
| `CrcChanges.ChangeDetected` | src/crc.rs:53-90 | from any register, two inputs of one length that differ in exactly one byte have different checksums |
| `Vectors.CheckValue` | src/crc.rs:99-113 | the published check value: the register after the nine digits |
| `Tags.TypeRoundTrip` | src/tag.rs:214-273 | decoding an encoded type returns it exactly when the type is in its natural domain; outside it never does |
| `Tags.KindsExact` | src/tag.rs:447-461 | the commit, forward checksum and tail classes are exactly the decoded types, and the parity bit is the chunk's |
| `Vectors.NameWords` | tests/property_tag.rs:80-118 | hand-encoded words of name tags decode to their fields and back; the same table gives layouts, attributes, splices, commits, tails and states |
| `Vectors.StructItems` | src/alloc.rs:170-192 | what such words say to a directory: which layout of which entry |
| `Vectors.WrittenStates` | src/fs.rs:3629-3670 | the words written for tails and global state, which belong to no entry |
| `Vectors.WindowBytes` | src/meta.rs:199-222 | a forward checksum's body is the window's size, then its checksum, both little endian |
| `Tags.SplitJoin` | src/tag.rs:290-300 | splitting a tag word into its fields undoes joining them |
| `Tags.JoinSplit` | src/tag.rs:290-300 | every word is the join of its fields, so no word is lost in decoding |
| `Tags.JoinXor` | src/tag.rs:398-400 | XOR of tag words, digit by digit, is XOR field by field |
| `Tags.TagWordsXor` | src/tag.rs:398-400 | ... and the XOR of digits is the machine's XOR of 32 bit words |
| `Tags.XorCancel` | src/tag.rs:36-46 | XORing with the predecessor twice gives the tag back |
| `Tags.XorUndo` | src/meta.rs:718-744 | a raw word and a tag known up to its valid bit determine the tag before it up to its valid bit |
| `Scanner.TagsFromSpelled` | src/meta.rs:829-863 | the forward iterator cut off after a run of entries yields exactly that run |
| `Scanner.ReplayCheckpoint` | src/meta.rs:163-223 | a scan's committed entries are a prefix of its entries, and replay passes through the state right after the last verified commit |
| `Scanner.RunThrough` | src/meta.rs:163-223 | a scan from the header passes through every state the block reaches |
| `Scanner.RunKeepsCommits` | src/meta.rs:119-263 | two blocks that agree below the first one's committed end: the first one's committed entries are a prefix of the second's |
| `Scanner.BackwardFrom` | src/meta.rs:718-744 | a backward walk that undoes one entry at a time yields the reverse of the spelled entries |
| `Log.LittlefsLawful` | src/tag.rs:1-46 | the concrete wire format satisfies the laws the log theory assumes: streaming checksum, tags and their four bytes one to one in both directions, faithful checksums, erased bytes read as the first link |
| `Log.SpelledXor` | src/tag.rs:36-46 | chaining tags field by field is chaining their words as they lie on disk |
| `Log.TagAtLocal` | src/meta.rs:163-187 | decoding looks only at the bytes of the entry it returns and never past the block |
| `Log.DurableCommits` | src/meta.rs:119-263 | a verified commit is never lost: any block of the same length that agrees below the committed end yields all its tags, with an end no smaller |
| `Log.ForwardExact` | src/meta.rs:829-863 | the forward iterator yields exactly the verified tags, and their sizes add up to the committed end |
| `LogChecks.ReadsExactly` | src/meta.rs:119-223 | what the reader takes of a block is, over raw bytes, exactly the spelled runs of tags whose every commit stores the checksum of all bytes since the commit before it |
| `LogChecks.CommitsExactly` | src/meta.rs:163-223 | the committed end is that of the last commit read, with the promise made since the one before, and the scan stops at the end of the tags or at a commit that does not match |
| `LogChecks.TornCommitEnds` | src/meta.rs:195-198 | behind a matching run a commit that stores anything else ends the log, and the commit before it stands |
| `LogBackward.BackwardExact` | src/meta.rs:718-744 | on every block the backward iterator yields the exact reverse of the forward one, valid bits masked |
| `LogReader.FindLatest` | src/meta.rs:418-463 | the scan loop returns what the latest tag that says anything says |
| `LogReader.ScanForTail` | src/meta.rs:418-469 | the latest tail tag wins, and a null pair reads as no tail |
| `LogReader.ScanLog` | src/meta.rs:119-223 | the first pass, which checksums the raw bytes, ends at the last verified commit, with its link and its forward checksum |
| `LogReader.Parse` | src/meta.rs:119-263 | the reader fails exactly on blocks shorter than the revision, and otherwise reports end, link, tail and erased state of the verified scan |
| `LogReader.SuccessorNewer` | src/meta.rs:754-758 | the successor revision is newer, across the wrap, and equal revisions tie |
| `LogReader.LoneBlockRead` | src/meta.rs:790-826 | with commits in only one block of a pair, that block is read at any revision and in either position |
| `LogReader.NewerBlockRead` | src/meta.rs:790-826 | with commits in both, the block whose revision is ahead by less than 2^31, across the wrap, is read in either position, and the other counts as an alternate |
| `LogReader.TiedBlockRead` | src/meta.rs:790-826 | with equal revisions the first block is read |
| `LogReader.PairCorrupt` | src/meta.rs:790-826 | a pair is corrupt if and only if a block is shorter than a revision or neither holds a commit |
| `LogWriter.ErasedEndsLog` | src/tag.rs:38-40 | erased bytes end the log if and only if the link before them is valid or the tag they decode to runs out of the block |
| `LogWriter.ErasedBlockEmpty` | src/meta.rs:163-187 | an erased block holds no commit: its first word decodes as one stray tag and its second ends the log |
| `LogWriter.SealedRoundTrip` | src/meta.rs:119-263 | a sealed buffer over an erased tail parses to exactly the written tags, whatever the last chunk, and is erased when and only when the last commit promised its window |
| `LogWriter.BlankSum` | src/meta.rs:651-660 | the byte by byte checksum of an erased window is the checksum of the window |
| `LogWindows.PadsOnce` | src/meta.rs:618-650 | a padded commit ends at the one program boundary at or past twenty more bytes, or past the block if that is nearer, with less than a unit of padding |
| `LogWindows.PromisesExactly` | src/meta.rs:640-650 | it promises its window if and only if the forward checksum fits before that end and the window after it |
| `LogWindows.SealsExactly` | src/meta.rs:614-668 | the padding fits its tag for every commit of a block if and only if the program unit has at most 1007 bytes or the block at most 1030 |
| `LogWindows.PromiseKept` | src/meta.rs:224-250 | a promised window reads as erased if and only if it is in the block and its checksum is that of erased bytes |
| `LogWindows.TouchedWindow` | src/meta.rs:224-250 | a window with one programmed byte never reads as erased |
| `LogWriter.NewCommit` | src/meta.rs:509-516 | a buffer under eight bytes is refused; any other holds the revision and no tags, in step with a reader |
| `LogWriter.ResumeCommit` | src/meta.rs:528-533 | refused exactly without eight bytes of room; at a reader's end and link it resumes at the last verified commit |
| `LogWriter.Commit.Append` | src/meta.rs:539-560 | the three error cases, and otherwise one more tag chained onto the log with every byte behind it unchanged; a tag with its valid bit clear keeps the writer in step with a reader |
| `LogWriter.Commit.Finish` | src/meta.rs:571-584 | a bare commit tag at the end or an exact error; a chunk below 0x80 seals the tags written so far |
| `LogWriter.Commit.FinishPadded` | src/meta.rs:618-686 | the exact end, the exact error condition, the forward checksum exactly when it fits, and, for a chunk below 0x80, the sealed tags |
| `LogWriter.Commit.ReadsBack` | src/meta.rs:119-263 | a commit sealed over an erased tail parses to the writer's own tags, offset and link, erased exactly as promised |
| `Directory.SpliceStep` | src/dir.rs:76-124 | Create and Delete shift the slot array in place as one insertion or removal; counts and both error cases |
| `Directory.GatherLiveSlots` | src/fs.rs:198-251 | the gathered slots are the names and layouts of the forward replay, or its error |
| `Attributes.FindExact` | src/dir.rs:140-169 | on every well formed log the backward walk with a running splice difference finds exactly the value the forward replay holds |
| `Attributes.AttrGet` | src/dir.rs:140-169 | the loop with its difference variable computes that walk |
| `Attributes.EmittedFaithful` | src/dir.rs:180-218 | the enumeration yields no attribute twice and exactly those the single lookup finds |
| `Attributes.ForEachLiveAttr` | src/dir.rs:180-218 | the loop with its seen set makes exactly those calls, newest first |
| `Attributes.EmittedExact` | src/dir.rs:180-218 | on every well formed log the enumerated attributes are exactly the replayed attribute map |
| `Operations.TwoWordsRead` | src/fs.rs:475-545 | a layout's eight bytes read back as its two words, in order |
| `Effects.EffectMeans` | src/fs.rs:465-548 | the effect, decoded from the stored bytes entry by entry: the created entry's kind, name, layout and attributes, a chain's head in the first word and its size in the second, a directory's pair, what one update changes and all it leaves alone |
| `Operations.AppendMeansEffect` | src/fs.rs:465-548 | appending any operation's tags to any log has that operation's effect on the listing |
| `Effects.AppendMeans` | src/fs.rs:465-548 | appending the operation's tags to any log has that decoded meaning |
| `Compaction.ReplaySlot` | src/fs.rs:689-765 | the tags of a rebuilt slot replay to the slot with the operation applied: renamed, re-laid out, attribute replaced or removed |
| `Compaction.RebuiltOnce` | src/fs.rs:689-765 | a rebuilt entry spells each attribute once, the one being set included |
| `Compaction.ReplayRange` | src/fs.rs:689-826 | a rebuilt range replays to exactly its entries, in order, with local ids from zero |
| `Compaction.ListedSplit` | src/fs.rs:676-688 | adjacent rebuilt ranges list adjacent entries, wherever the cut falls |
| `Compaction.ListedMeansEffect` | src/fs.rs:599-651 | the whole rebuilt range lists exactly the operation's effect |
| `Compaction.EmitRangeSucceeds` | src/fs.rs:703-719 | a rebuild succeeds exactly when every surviving slot has a name and a layout, and otherwise fails with `Corrupt` |
| `Compaction.EmitCompactRange` | src/fs.rs:689-826 | the loop numbers and emits the range as specified, or stops at the first error |
| `Prefixes.LastSaid` | src/dir.rs:53-75 | a log without splices, as the C writer compacts, is read exactly when no name is past the table, and lists for every entry what was said of it last |
| `Rebuild.AppendMeansIntended` | src/fs.rs:3616-3674 | an in-place append leaves the listing, tail and folded totals the commit is meant to leave |
| `Rebuild.RebuildMeansIntended` | src/fs.rs:835-912 | a rebuilt block leaves them too, although it omits zero totals and absent tails |
| `Rebuild.CompactionRefinesAppend` | src/fs.rs:3607-3745 | for every well formed log and every operation, whenever the rebuild succeeds the rebuilt block and the appended log read the same |
| `Rebuild.RebuildOmits` | src/fs.rs:852-912 | a rebuilt block spells no total of zero and no tail without a first block |
| `Effects.RebuildMeans` | src/fs.rs:599-651 | a rebuilt block has the operation's decoded meaning too |
| `WellFormedness.AppendWellFormed` | src/dir.rs:53-75 | an append keeps the log well formed |
| `WellFormedness.RebuildWellFormed` | src/dir.rs:53-75 | a rebuilt block is well formed without any prefix |
| `WellFormedness.SplitWellFormed` | src/fs.rs:4413-4436 | so is every block a split writes, the continuations' and the pair's own |
| `Sizes.LogPays` | src/fs.rs:3812-3822 | a log whose entries were all created in it holds at least the bytes its live part costs to rebuild |
| `Sizes.OpDsizeExact` | src/fs.rs:1201-1217 | the reserved size is exactly the operation's tags and one commit tag |
| `Sizes.RequestDsizeExact` | src/fs.rs:3597-3604 | the room asked for is exactly the items an append of the whole request writes and one commit tag |
| `Sizes.RebuiltEntriesCost` | src/fs.rs:3812-3822 | the rebuilt entries cost at most the live ones and the operation |
| `Sizes.ForcedRebuildFits` | src/fs.rs:3597-3614 | if the append had room, the rebuilt image with a relocation state the log never held leaves the eight bytes its commit tag needs |
| `BlockItems.BackwardItems` | src/meta.rs:352-375 | the backward iterator spells the same items in the opposite order |
| `BlockItems.ReaderTail` | src/meta.rs:418-469 | the tail and hard flag the reader reports are those of the view of its committed items |
| `BlockItems.ItemRoundTrip` | src/tag.rs:308-317 | every item within its field widths is decoded from the tag and body written for it |
| `BlockItems.ErasedRoom` | src/fs.rs:3812-3822 | a block whose window is erased holds, beyond its items, a forward checksum and a commit tag |
| `BlockItems.EmitItems` | src/fs.rs:465-548 | items written in order become exactly the decoded tags, and fail exactly when they do not fit |
| `BlockItems.BuildBlock` | src/fs.rs:835-912 | building succeeds whenever the items and the commit tag have room; the block then ends at the padded commit with its revision, reads back as the view of its items, and is erased behind exactly as promised |
| `BlockItems.AppendBlock` | src/fs.rs:3616-3674 | an append succeeds whenever the items and the commit tag have room, touches only the bytes of the new commit, and whatever lies beyond, the committed tags begin with the old items and the new ones up to the returned end; over erased bytes that is the whole view |
| `Split.ComputeSplit` | src/fs.rs:1366-1387 | the loop halves the gap to the range's end until the upper piece fits, and fails only on an incomplete slot |
| `Split.HalvingProbes` | src/fs.rs:1366-1387 | the index found is the first of the points at a half, a quarter, an eighth of the gap below the range's end that is good |
| `Split.PieceCount` | src/fs.rs:1366-1387 | a piece is good if and only if it is a single entry, or at most 254 entries within the budget |
| `Split.BudgetIsHalf` | src/fs.rs:1302-1307 | the budget is the first program boundary at or past half a block, or what the reserve of 40 bytes leaves if that is less |
| `Split.HalvingFits` | src/fs.rs:1361-1365 | the piece found is one entry or within count and budget, and it is the whole range exactly when the whole range is |
| `Split.ContinuationFits` | src/fs.rs:1302-1307 | a piece within the budget fits its block with its tail and commit tag |
| `Split.OverflowIsSingle` | src/fs.rs:1366-1387 | a piece that halving found overflows its block only if it is a single entry |
| `Split.CutOff` | src/fs.rs:4438-4533 | the cut loop: pieces that fit, strictly decreasing cuts, a remainder that fits unless the ceiling was reached; it fails only when pairs run out or a piece is too big for its block |
| `Split.LowerCommit` | src/fs.rs:4722-4790 | the lower commit links the continuations in, and the chain lists the operation's effect |
| `Split.SplitDirectory` | src/fs.rs:4438-4551 | for any cuts the chain lists the unsplit entries in order, the pair alone carries state, and every state before the last commit reads as before; the failures are named |
| `Gstate.SumOrder` | src/gstate.rs:11-30 | the XOR over a set of pairs does not depend on the order of visits |
| `Gstate.Accumulate` | src/fs.rs:938-1016 | the breadth first walk folds every pair that links reach exactly once, tree and thread alike, and fails if and only if there are more of them than its queue holds |
| `Protocol.MoveBodyDecodes` | src/gstate.rs:208-262 | the state of one move decodes to that move, and is not zero |
| `Protocol.RelocateBodyDecodes` | src/gstate.rs:129-248 | the state of one relocation decodes to that relocation, and is not zero |
| `Protocol.RelocationDecodesOnly` | src/gstate.rs:129-248 | no other state decodes to it |
| `Recovery.MovesExactly` | src/gstate.rs:208-229 | a state decodes as a move if and only if its word has the type bits of a Delete tag, whatever its other bits; entry and pair are its bytes |
| `Recovery.LeftoverIdle` | src/gstate.rs:147-183 | what finishing the move leaves of a state decodes as no move, and is nothing if and only if the word had neither the valid bit nor a length |
| `Protocol.CommitMovesSum` | src/fs.rs:3624-3660 | a commit moves the sum over the thread by exactly its delta |
| `Landings.SplitLanding` | src/fs.rs:4413-4417 | a split is one way for a commit to land: the chain reads as intended, nothing else changes, and all is well formed; it fails only where the split does |
| `Landings.LandingReads` | src/fs.rs:4399-4417 | however a commit lands, in one block or split over continuations, the thread runs on, and the aggregate and every directory are those of the plain commit |
| `Landings.LandingSpans` | src/fs.rs:938-1016 | however a commit lands, the pairs that links reach are the same and its continuations, with the same aggregate |
| `Landings.TwoLandings` | src/fs.rs:3722-3745 | two commits on different pairs, each landing as it may, leave the thread, aggregate and directories of the two plain ones |
| `Landings.OffThread` | src/fs.rs:4399-4406 | whatever is programmed off the thread, the thread, aggregate and directories are the same |
| `Rename.Mount` | src/fs.rs:5606-5630 | mounting accumulates over the pairs links reach, finishes the decoded move and cancels the decoded relocation, each by a commit that lands as it may; with more pairs than its queue holds it fails |
| `Recovery.MountSettles` | src/fs.rs:5606-5630 | for every global state that points at the thread, a move and a relocation at once or a state no writer of this crate leaves: the mount succeeds, makes the owed deletion and changes no directory otherwise, a second mount changes nothing, and nothing is in flight if and only if the move word has no bits but those of a move |
| `Recovery.MountFails` | src/fs.rs:5779-5790 | a move out of a pair or an entry that is not there, or a relocation of such a pair, fails the mount as corrupt; with nothing pending it changes nothing |
| `Rename.RenameAtomic` | src/fs.rs:3420-3458 | whichever of the two commits and of the mount's split, and whatever a commit cut short left off the thread: mounting before the first changes nothing, mounting between the two leaves every directory as after both, mounting after them changes nothing |
| `Rename.MovedListings` | src/fs.rs:3420-3458 | after the move, with any splits, the entry is listed at the end of the destination's chain with its layout and attributes, the source's chain lists all but it, and no other pair has changed |
| `Runs.NextSettled` | src/gstate.rs:11-30 | renames, writes, drops and relocations, whichever of their commits split, keep the thread and a zero aggregate, and leave the directories that plain commits would |
| `Runs.CrashRecovers` | src/fs.rs:5600-5623 | a crash before, between or inside any of their commits mounts to a settled forest whose directories read as before the event, as after it, or as after the request a relocation carried |
| `Runs.RunRecovers` | src/fs.rs:5600-5623 | over any run of such events, wherever the power fails and however the mount's own commits land, a mount leaves such a forest, ready for the next run |
| `Runs.Restart` | src/fs.rs:5600-5630 | the mount itself, run from the root of what a crash left, returns one of those forests, or fails if and only if more pairs are reachable than its queue holds |
| `Conservation.SplitConserves` | src/fs.rs:4413-4417 | a split moves the sum over the thread by the commit's delta alone |
| `Conservation.SplitKeepsThread` | src/fs.rs:4413-4417 | after a split, also one that sets the pair's tail, the continuations stand on the thread right behind their pair |
| `Unthread.Steal` | src/fs.rs:4993-5027 | the walk folds every pair of the dropped directory and stops at the pair behind it |
| `Unthread.UnthreadAndSteal` | src/fs.rs:4976-5049 | one commit on the predecessor, which may split it, takes the stolen totals and links past the directory |
| `Unthread.DropConserves` | src/fs.rs:4952-4975 | dropping a whole hard-linked directory with its state stolen conserves the sum of either kind of state |
| `Unthread.DropKeepsThread` | src/fs.rs:4983-4992 | with no live link left into it, the remaining pairs are the thread |
| `Unthread.DropLanding` | src/fs.rs:4952-4992 | however the drop lands, the aggregate is conserved over a thread without the directory's pairs, and of all directories exactly that one is gone |
| `Relocation.CarryingIsBoth` | src/fs.rs:4025-4042 | carrying the body in the caller's commit is the caller's commit and the body's, whatever state the caller changes |
| `Relocation.RepointedConserves` | src/fs.rs:4885-4948 | after the one-commit repoint the aggregate over the new thread is what it was over the old one, for every aggregate |
| `Relocation.WearRelocationCrashPoints` | src/fs.rs:4013-4151 | for every request, thread-changing ones too: from the programmed alternate on, whatever is off the thread, a mount cancels the relocation and leaves the directories the request alone would; after the repoint, however it lands, nothing is in flight on a thread through the new pair |
| `Relocation.FreshRelocationCrashPoints` | src/fs.rs:4203-4215 | no crash point of a relocation onto a fresh block alone shows any state, also when the pair was about to split; after the repoint the directories are those of plain commits |
| `Relocation.RepointedThread` | src/fs.rs:4885-4948 | the one commit that repoints the predecessor's tail, and its entry unless the pair is a HardTail continuation, puts the new pair on the thread in the old one's place |
| `Addresses.WearDirs` | src/fs.rs:4885-4948 | after a wear relocation, however the repoint lands, the directories are those of the request alone, with the one address changed where it heads a directory and where an entry names it; no two are joined and none is cut |
| `Addresses.FreshDirs` | src/fs.rs:4203-4215 | the same after a move off a worn block, also when the pair splits on the way |
| `Twins.WindowAggregate` | src/fs.rs:5695-5705 | between the two commits of a relocation whose parent is not its predecessor, however the first landed, a mount reads the caller's aggregate and the totals of the stale copy |
| `Twins.WearWindowReads` | src/fs.rs:5613-5632 | it reads exactly the relocation in flight if and only if the pair's own totals spell no move and no relocation |
| `Twins.WornWindowReads` | src/fs.rs:5613-5632 | after a move off a worn block it reads nothing in flight under the same condition |
| `Phantoms.PhantomMove` | src/fs.rs:5748-5800 | a move that the stale copy's total still spells is done again: the mount fails, or the entry that now has its number is gone from that directory |
| `Phantoms.FileLostExample` | src/fs.rs:5613-5623 | three directories after a completed rename: a mount in the window deletes a file of a directory no operation touches |
| `Sweep.WearWindowCancels` | src/fs.rs:5811-5832 | with idle totals the mount commits the balancing body on the stale copy, and nothing else |
| `Sweep.WearWindowHeals` | src/fs.rs:3607-3614 | that commit leaves things right exactly when it appends: the new copy keeps the body, nothing is in flight, and the sweep finds the twin; a rebuild writes the block both copies share |
| `Sweep.SweepLosesPair` | src/fs.rs:5695-5729 | after such a rebuild the sweep's commit leaves no thread: the entry names a pair that no tail leads to |
| `Twins.RethreadedQuiet` | src/fs.rs:5695-5727 | whatever stands at the old address, the commit that repoints the predecessor, the relocation's or the sweep's, settles the forest on the new thread, however it lands |
| `Twins.TwinCrashPoints` | src/fs.rs:4846-4948 | every crash point of the two-commit relocation, either commit landing as it may |
| `Addresses.RethreadedDirs` | src/fs.rs:5695-5727 | the same once the predecessor is repointed, by the relocation or by the sweep |
| `Structs.GatherLeaves` | src/alloc.rs:135-196 | whatever the reused array held, the outcome and the count are the log's own and so is every slot the log fills; any other slot is empty or a leftover |
| `Structs.GatherCovers` | src/alloc.rs:135-196 | on every log, into any array, every live chain and every live directory is gathered |
| `Structs.ExactIffNeverLingers` | src/alloc.rs:135-196 | from any array, the gathered layouts are exactly the live ones at every point if and only if no tag takes the blocks from a live entry or raises the count over a slot that holds a layout where the log parked none |
| `Structs.SharedArrayExample` | src/alloc.rs:238-261 | a chain left by an earlier pair is gathered for an inline file of a later, compacted one |
| `Structs.WellFormedParksNothing` | src/dir.rs:61-75 | a well-formed log whose compacted prefix leaves no parked layout leaves none beyond its count |
| `Structs.StaleChainExample` | src/alloc.rs:179-192 | an inline rewrite of a chain file leaves the old chain gathered |
| `Structs.GatherLiveStructs` | src/alloc.rs:135-196 | the loop over an array it does not clear computes that gathering, or its error |
| `ChainScan.WalkChain` | src/alloc.rs:368-430 | on success every block of a well formed chain, and nothing else, is newly marked |
| `Scan.ScanUsedBlocks` | src/alloc.rs:219-342 | from an empty bitmap and with one array for all pairs, success means a visited set that is closed under links and fully marked, and nothing marked but its pairs and chains an array held; it succeeds whenever the logs are readable and everything is in range |
| `Scan.ScanComplete` | src/alloc.rs:198-342 | after a successful scan every pair on any path of live links has both blocks marked, and so has every block of its live chains |
| `Liveness.ReachableMarked` | src/alloc.rs:198-342 | in terms of what a directory shows, its view's tail and entries: every block on a path of such links from the root, and of every file listed there, is among the marked ones |
| `Bitmaps.TakeFreeBlocks` | src/alloc.rs:713-738 | the lowest free blocks, in order, marked with the exclusions; it succeeds if and only if the exclusions are in range and enough blocks are free |
| `Bitmaps.Lookahead.Alloc` | src/alloc.rs:758-821 | blocks handed out are distinct, in range, not excluded and neither live nor in flight, and the cache stays an over-approximation; whatever the cache held, an allocation succeeds when a scan does and enough blocks are free |
| `Bitmaps.Lookahead.Publish` | src/alloc.rs:686-706 | a commit that makes blocks reachable and drops others keeps the over-approximation |
| `Supply.Supply` | src/alloc.rs:758-821 | scan, cache and allocation together: the blocks handed out belong neither to the staged file nor to the synced one, and there are enough whenever enough blocks belong to nobody |
| `Brent.BrentTailWalk.Advance` | src/fs.rs:134-145 | corruption is reported exactly when the next node is the saved one, which was visited |
| `Brent.BrentTailWalk.DetectedWithin` | src/fs.rs:100-115 | a tail of mu and a cycle of lambda nodes are not walked undetected for 3 * (mu + lambda) steps, also after the counter saturates |
| `Brent.ListChain` | src/fs.rs:5197-5230 | every chain that ends is listed whole, whatever its length, and a walk is rejected only when it leads back into itself |
| `Brent.RejectedNeverEnds` | src/fs.rs:5197-5230 | what is rejected has no end |
| `Nor.NorAlignedStorage.Flush` | src/nor.rs:105-123 | the device becomes what was shown, by one window-aligned program at most |
| `Nor.NorAlignedStorage.LoadWindow` | src/nor.rs:125-145 | switching windows changes nothing a reader sees |
| `Nor.NorAlignedStorage.Program` | src/nor.rs:220-243 | a byte program of any extent ANDs into the plain device, across windows |
| `Nor.NorAlignedStorage.Read` | src/nor.rs:158-180 | a read returns the plain device's bytes, pending ones included |
| `Nor.NorAlignedStorage.ReadDevice` | src/nor.rs:205-218 | the device's own bytes are those of the plain device once an overlapping window is flushed |
| `Nor.NorAlignedStorage.Erase` | src/nor.rs:245-253 | an erase blanks the block on the plain device, pending window included |
| `Nor.NorAlignedStorage.Sync` | src/nor.rs:255-258 | after a sync the inner device is the plain device |
| `Storage.ReadRange` | src/storage.rs:214-278 | the requested bytes if and only if the units that cover them lie in the block, from at most three aligned reads that tile the covering windows, and one when the window holds them all |
| `CtzLayout.BlockIndexAtOffset` | src/ctz.rs:160-179 | for every `u32` offset and block size of at least 128 the closed form names a block whose content range holds the offset, and its position past the header |
| `CtzLayout.LongestHeader` | src/geometry.rs:12-20 | the least block size of 128 is exactly what the longest header of a chain takes |
| `CtzLayout.IndexUnique` | src/ctz.rs:160-179 | that block is the only one, so any block whose range holds the offset is the one returned |
| `CtzLayout.BlockCountExact` | src/ctz.rs:141-146 | `block_count` blocks reach the size and one fewer do not |
| `CtzLayout.BlockCountByWalking` | src/ctz.rs:590-612 | counting block by block gives the closed form's count |
| `CtzChain.HopProgress` | src/ctz.rs:355-376 | every hop stays at or above the target and spends one unit of a budget of at most twice the logarithm of the distance, plus one |
| `CtzChain.SeekBlock` | src/ctz.rs:404-434 | on a well formed chain the seek lands exactly on the target within that many pointer reads, and stays in the device on any other |
| `CtzChain.CollectChain` | src/ctz.rs:295-345 | the two-pointer backward walk recovers every address of a well formed chain |
| `CtzChain.ReadAt` | src/ctz.rs:465-529 | for every start and length, a chain that holds a content reads as that slice, but for a read into a last block that ends past the `u32` range: a checked build panics, a wrapping one loses the block if its wrapped end is not past the start |
| `CtzChain.ReadToExact` | src/ctz.rs:488-493 | the buffer's length counts modulo 2^32, as its cast to a word does |
| `CtzChain.WholeUnlessLost` | src/ctz.rs:494-501 | a wrapping build reads the whole slice if and only if it does not lose that block |
| `CtzChain.LastBlockLostExample` | src/ctz.rs:494-501 | the input: 2^32 - 1 bytes in 129 blocks of 32 MiB, and any read within the last 987 bytes |
| `CtzChain.SmallBlocksNeverLap` | src/ctz.rs:494-501 | no chain of at most 256 blocks of less than 16 MiB is affected |
| `CtzImage.HoldsFrame` | src/ctz.rs:465-529 | a chain still holds its content when cells past the content change |
| `CtzWrite.BuildChain` | src/fs.rs:1865-1899 | after the build the chain holds the content, and the durable file was readable after every device action |
| `CtzStream.StreamExtend` | src/fs.rs:2387-2658 | the open file grows by the data, or is as before; it fails exactly when the new size is over the limit or the allocator runs out, a dirty tail's copy included; the durable file stays readable at every device state and every in-place program hits erased cells |
| `CtzStream.FillExact` | src/fs.rs:2436-2450 | a tail is filled in place exactly if any bytes programmed there would read back |
| `CtzStream.ShrinkHead` | src/fs.rs:2687-2789 | the open file keeps exactly the prefix, at a tail the next append may fill; the exact failures |
| `File.File.Read` | src/file.rs:447-482 | the bytes of the abstract file from the cursor, and the cursor moved by as many; or a panic; or the end of the bytes lost while the cursor moves over it, in exactly the cases of the chain reader |
| `File.File.Seek` | src/file.rs:425-440 | anywhere a `u32` reaches from the start, the cursor or the end, or an error and no move |
| `File.File.Write` | src/file.rs:501-531 | the abstract file grows by the data and the cursor is at its end, or nothing changes but the cursor in append mode, with the exact condition; the synced file stays readable throughout |
| `File.File.Shrink` | src/file.rs:555-571 | the prefix is kept, with the exact condition, or nothing changes |
| `File.File.Grow` | src/file.rs:572-599 | zeros arrive chunk by chunk; on failure whole chunks have landed, up to the longest chain if blocks suffice, and the handle is as dirty as before |
| `File.File.SetLen` | src/file.rs:542-601 | the abstract file becomes its prefix or is extended by zeros, by all of them exactly on success; an equal length changes nothing |
| `File.File.Sync` | src/file.rs:606-633 | success is always reported and only the mark, the entry and what is durable change; the staged file becomes the durable one, with an entry that records its last block and size or that it is empty, if and only if no extension has failed part way on a clean handle with nothing staged since, which a caller can tell by the size |
| `File.HalfGrownFileIsLost` | src/file.rs:573-609 | the input: 128 byte blocks, an empty file, a length of 40000; 30720 bytes land, `sync` succeeds and none is durable |
| `File.PowerLossRecovers` | src/file.rs:17-27 | whichever device state power failed in, reopening from the recorded entry finds the last synced content, ready for more writes |

## Left out

- Storage.ReadRange: buffers are values, so copying piece by piece into the caller's slice, and aliasing of the two buffers, are not modelled; the same holds for the CTZ readers.
- LogWriter.Commit.Append: after a tag with the invalid flag, or a seal with a chunk of 0x80 or more, which no caller writes, nothing is claimed about what a reader makes of the buffer.
- Log.DurableCommits: bytes past the committed end that happen to carry a matching checksum count as a commit, as they do in the code; no claim is made about how likely that is.
- Directory.GatherLiveSlots: 16 bit body offsets; in blocks over 64 KiB the code returns `OutOfRange` for a name or layout past that offset (`src/fs.rs:213-247`).
- BlockItems.ItemRoundTrip: bodies are at most 0x3FE bytes, because 0x3FF is the sentinel for no body.
- Rebuild.CompactionRefinesAppend: a create requires a free slot; the code emits the entry and fails at the next read instead.
- Sizes.ForcedRebuildFits: for logs whose every entry carries its own Create tag, as this writer's do.
- Split.SplitDirectory: the allocator's pairs come as a list, and worn continuations and the root fullness guard are not modelled; a worn alternate is `Relocation.FreshRelocationCrashPoints`.
- Gstate.Accumulate: pairs are compared as ordered addresses, so an image that names one pair both ways round is not covered.
- Rename.Mount: the address checks before recovery, the search for a relocated source pair and the deorphan sweep are left out; `Twins.Rethreaded` is the commit the sweep makes for a relocated pair.
- Rename.RenameAtomic: no relocation falls inside the two commits, so the source keeps its address; the mount's own commits succeed.
- Runs.RunRecovers: relocations in two commits are not among its events, because a mount between the two need not recover (`Twins`, `Sweep`).
- Relocation.WearRelocationCrashPoints: the pair that holds the entry is also the thread predecessor, or no entry names the pair; `Twins` is the other case.
- Sweep.WearWindowHeals: the parent's commit and the cancel land in one block, and the rebuild that cancels does not itself relocate.
- Landings.LandingReads: continuations are pairs the forest does not hold; `Runs` may forget at any point what is off the thread, so freed pairs are used again.
- Scan.ScanComplete: distinct pairs share no block, chains own no pair's block, and the layouts left in the slot array are well formed.
- Bitmaps.Lookahead.Alloc: the rescan's result is a parameter that covers the live blocks; `Supply` proves that for the two-buffer scan, and the single-buffer scan is left out.
- Supply.Supply: scans before every allocation; the code scans only when the cache cannot serve.
- CtzStream.StreamExtend: the head's bounds check and a chain that is not well formed, for which the code reports `Corrupt`; a size that would overflow `u32`; a rescan that hands out, within one call, a block the call itself orphaned.
- File.File.Sync: the metadata commit itself succeeds.
- File.File.Write: the access flags of an open file, whose check comes first, and an inline file opened with truncation, which is staged like an empty one.
- Brent.ListChain: at most 2^32 - 1 distinct pairs have tails; more would need pairs that share blocks.
- Worn blocks, read-back verification and device faults: a step succeeds or leaves the state as it was.
- Name lookup, path resolution, `mkdir`, `rmdir`, listing and seeking: they add dispatch over the operations modelled here.
- The superblock's encoding and the mount's geometry checks: fixed layouts and comparisons; the geometry they establish appears as preconditions.
- The staging buffer of a rename's attributes and its size limit: the attributes are a list.
- Stack budgets and the size of the lookahead window: no effect on what is proved.
