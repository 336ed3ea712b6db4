/**
 Extending and shrinking an open CTZ file (`stream_ctz_extend` and
 `shrink_ctz_head` in `src/fs.rs`), with the durable file pinned throughout.
 */
module CtzStream {
  import opened CtzChain
  import opened CtzImage
  import opened CtzLayout
  import opened CtzWrite
  import opened Storage
  import opened Words

  /** The open file `mem` is on the device as `(head, size)`. */
  ghost predicate Open(f: Flash, blockSize: nat, mem: CtzFile, head: nat, size: nat) {
    Readable(f.disk, blockSize, mem) && Distinct(mem.chain) && |mem.content| == size &&
    (mem.chain != [] ==> mem.chain[|mem.chain| - 1] == head)
  }

  /** The position in the last block just past the last byte of the file. */
  function TailEnd(n: nat, size: nat, blockSize: nat): int
    requires n > 0
  {
    HeaderBytes(n - 1) + (size - Start(n - 1, blockSize))
  }

  /** The durable file uses no cell of the open file's last block past its end. */
  ghost predicate TailFree(mem: CtzFile, file: CtzFile, blockSize: nat) {
    mem.chain != [] ==>
      var n := |mem.chain|;
      BlockFree(mem.chain[n - 1], TailEnd(n, |mem.content|, blockSize), file, blockSize)
  }

  /** The durable file uses no cell of block `b` from `end` on. */
  ghost predicate BlockFree(b: nat, end: int, file: CtzFile, blockSize: nat) {
    end >= 0 && (end < blockSize ==>
      forall i :: 0 <= i < |file.chain| && file.chain[i] == b ==> CellsBelow(i, end, file.content, blockSize))
  }

  /** Blocks the allocator may hand out: fresh, and not part of the open file either. */
  ghost predicate Spare(f: Flash, blocks: seq<nat>, mem: CtzFile, file: CtzFile) {
    Fresh(f, blocks, file) && forall i :: 0 <= i < |blocks| ==> blocks[i] !in mem.chain
  }

  ghost predicate SpareBlock(f: Flash, b: nat, mem: CtzFile, file: CtzFile) {
    b < |f.disk| && b !in file.chain && b !in mem.chain
  }

  lemma TailEndInBlock(n: nat, size: nat, blockSize: nat)
    requires n > 0 && Reaches(n, size, blockSize)
    ensures HeaderBytes(n - 1) < TailEnd(n, size, blockSize) <= blockSize
    ensures FileOffset(n - 1, blockSize, blockSize) == Start(n, blockSize)
  {
  }

  /** The end of the tail block's content, as the kernel computes it from the closed form. */
  method TailEndOf(size: nat, blockSize: nat, n: nat) returns (end: nat)
    requires size < U32_RANGE && blockSize >= BLOCK_SIZE_MIN && n > 0 && Reaches(n, size, blockSize)
    ensures end == TailEnd(n, size, blockSize)
  {
    TailEndInBlock(n, size, blockSize);
    StartAtLeast(n - 1, blockSize);
    IndexUnique(size - 1, blockSize, n - 1);
    var position := BlockIndexAtOffset(size - 1, blockSize);
    end := position.1 + 1;
  }

  // ---- Extend --------------------------------------------------------------------

  /** The chain after an append: the old one with its tail possibly moved, then the new blocks. */
  function Extended(chain: seq<nat>, tail: nat, extra: seq<nat>): seq<nat> {
    if chain == [] then extra else chain[..|chain| - 1] + [tail] + extra
  }

  /** Blocks before the tail are full, so they serve the longer file and chain unchanged. */
  lemma PrefixOk(disk: Disk, disk': Disk, blockSize: nat, mem: CtzFile, data: seq<byte>, chain: seq<nat>, i: nat)
    requires Readable(disk, blockSize, mem) && i < |mem.chain| - 1 && i < |chain|
    requires forall j :: 0 <= j <= i ==> chain[j] == mem.chain[j]
    requires |disk'| == |disk| && disk'[mem.chain[i]] == disk[mem.chain[i]]
    ensures BlockOk(disk', blockSize, chain, mem.content + data, i)
  {
    assert LinkedAt(disk, mem.chain, i) && CarriesAt(disk, blockSize, mem.chain, mem.content, i);
    var image := disk[mem.chain[i]];
    LinksFrame(image, image, mem.chain, chain, i);
    StartMonotone(i + 1, |mem.chain| - 1, blockSize);
    FullCarries(image, mem.content, mem.content + data, i, blockSize);
  }

  /** The copy-on-write image of the tail: kept bytes, the new data, the rest erased. */
  lemma CowOk(disk: Disk, blockSize: nat, mem: CtzFile, data: seq<byte>, chain: seq<nat>, end: nat, fill: nat,
              image: seq<byte>)
    requires Readable(disk, blockSize, mem) && mem.chain != [] && |mem.chain| <= |chain|
    requires forall j :: 0 <= j < |mem.chain| - 1 ==> chain[j] == mem.chain[j]
    requires end == TailEnd(|mem.chain|, |mem.content|, blockSize) && end <= blockSize
    requires fill == Min(blockSize - end, |data|)
    requires |disk[mem.chain[|mem.chain| - 1]]| == blockSize
    requires image == disk[mem.chain[|mem.chain| - 1]][..end] + data[..fill] + Blank(blockSize - end - fill)
    ensures |image| == blockSize
    ensures LinksAt(image, chain, |mem.chain| - 1)
    ensures Carries(image, mem.content + data, |mem.chain| - 1, blockSize)
  {
    var i := |mem.chain| - 1;
    assert LinkedAt(disk, mem.chain, i) && CarriesAt(disk, blockSize, mem.chain, mem.content, i);
    TailEndInBlock(|mem.chain|, |mem.content|, blockSize);
    var was := disk[mem.chain[i]];
    var cleared := was[..end] + Blank(blockSize - end);
    assert Carries(cleared, mem.content, i, blockSize) by {
      FrameBlock(was, cleared, mem.chain, mem.content, i, end, blockSize);
    }
    FillCarries(cleared, mem.content, data, i, blockSize, end, fill);
    assert Splice(cleared, end, data[..fill]) == image;
    assert image[..HeaderBytes(i)] == was[..HeaderBytes(i)];
    LinksFrame(was, image, mem.chain, chain, i);
  }

  /** The new contents of a tail block relocated with its first `keep` bytes and `data` after them. */
  function Relocated(block: seq<byte>, keep: nat, data: seq<byte>, blockSize: nat): (image: seq<byte>)
    requires keep <= |block| && keep + |data| <= blockSize
    ensures |image| == blockSize
  {
    block[..keep] + data + Blank(blockSize - keep - |data|)
  }

  /** The cells of a block from `end` that the next `more` bytes would fill are erased. */
  predicate FillErased(block: seq<byte>, end: int, more: nat, blockSize: nat) {
    0 <= end <= blockSize <= |block| &&
    block[end..end + Min(blockSize - end, more)] == Blank(Min(blockSize - end, more))
  }

  /** Cells programmed with `data` read as `data`. */
  ghost predicate TakesAll(cells: seq<byte>, data: seq<byte>) {
    |cells| == |data| && Anded(cells, data) == data
  }

  lemma OnesNeutral(x: byte)
    ensures x & ERASED == x && ERASED & x == x
  {
  }

  lemma ErasedTakesAll(data: seq<byte>)
    ensures TakesAll(Blank(|data|), data)
  {
    forall i | 0 <= i < |data|
      ensures Anded(Blank(|data|), data)[i] == data[i]
    {
      OnesNeutral(data[i]);
    }
  }

  lemma TakesOnes(cells: seq<byte>)
    requires TakesAll(cells, Blank(|cells|))
    ensures cells == Blank(|cells|)
  {
    forall i | 0 <= i < |cells|
      ensures cells[i] == ERASED
    {
      assert Anded(cells, Blank(|cells|))[i] == cells[i] & ERASED;
      OnesNeutral(cells[i]);
    }
  }

  /** The cells count as erased exactly if any bytes programmed there would read back. */
  lemma FillExact(block: seq<byte>, end: nat, more: nat, blockSize: nat)
    requires end <= blockSize <= |block|
    ensures var n := Min(blockSize - end, more);
            FillErased(block, end, more, blockSize) <==> forall data: seq<byte> :: |data| == n ==> TakesAll(block[end..end + n], data)
  {
    var n := Min(blockSize - end, more);
    var cells := block[end..end + n];
    if cells == Blank(n) {
      forall data: seq<byte> | |data| == n
        ensures TakesAll(cells, data)
      {
        ErasedTakesAll(data);
      }
    } else if TakesAll(cells, Blank(n)) {
      TakesOnes(cells);
    }
  }

  /** The tail block has residue where the next `more` bytes go. */
  ghost predicate TailDirty(disk: Disk, blockSize: nat, mem: CtzFile, more: nat) {
    mem.chain != [] &&
    var b := mem.chain[|mem.chain| - 1];
    b < |disk| && !FillErased(disk[b], TailEnd(|mem.chain|, |mem.content|, blockSize), more, blockSize)
  }

  /** Where step 1 leaves the tail: in place if its fill region is erased, else on a spare block. */
  ghost predicate TailChoice(f: Flash, blockSize: nat, head: nat, end: nat, more: nat, tail: nat, mem: CtzFile,
                             file: CtzFile)
  {
    head < |f.disk| &&
    if tail == head then
      FillErased(f.disk[head], end, more, blockSize)
    else
      !FillErased(f.disk[head], end, more, blockSize) && SpareBlock(f, tail, mem, file)
  }

  /** Blocks an append of `more` bytes asks of the allocator: one for a dirty tail, then the overflow. */
  ghost function Demand(disk: Disk, blockSize: nat, mem: CtzFile, more: nat): int
    requires |mem.content| + more < U32_RANGE && blockSize >= BLOCK_SIZE_MIN
  {
    Copies(disk, blockSize, mem, more) + BlockCount(|mem.content| + more, blockSize) - |mem.chain|
  }

  ghost function Copies(disk: Disk, blockSize: nat, mem: CtzFile, more: nat): (n: nat)
    ensures n <= 1
  {
    if TailDirty(disk, blockSize, mem, more) then 1 else 0
  }

  /** `chain` continues the blocks of `was`, the last of them now at `tail`. */
  ghost predicate Prolongs(was: seq<nat>, tail: nat, chain: seq<nat>, bound: nat) {
    0 < |was| <= |chain| && chain[|was| - 1] == tail &&
    (forall j :: 0 <= j < |was| - 1 ==> chain[j] == was[j]) &&
    forall j :: 0 <= j < |chain| ==> chain[j] < bound
  }

  /** What step 1 of `stream_ctz_extend` decided about the tail block. */
  datatype TailPlan = TailPlan(tail: nat, consumed: nat, deferred: bool)

  /**
   Step 1 of `stream_ctz_extend`: decide how much of `data` fits the tail block.
   If its free cells are erased, `tail` is the block itself and the fill is
   deferred; if a torn append left residue there, the tail is rebuilt
   copy-on-write on the spare block `tail`.
   */
  method PlanTail(f: Flash, unit: nat, blockSize: nat, head: nat, end: nat, data: seq<byte>, tail: nat,
                  ghost mem: CtzFile, ghost file: CtzFile, ghost chain: seq<nat>)
    returns (plan: TailPlan, g: Flash)
    requires Geometry(f.disk, unit, blockSize) && Pinned(f, blockSize, file)
    requires Open(f, blockSize, mem, head, |mem.content|) && mem.chain != []
    requires end == TailEnd(|mem.chain|, |mem.content|, blockSize) && end <= blockSize
    requires TailChoice(f, blockSize, head, end, |data|, tail, mem, file)
    requires Prolongs(mem.chain, tail, chain, |f.disk|)
    ensures Geometry(g.disk, unit, blockSize) && |g.disk| == |f.disk|
    ensures Pinned(g, blockSize, file) && g.clean == f.clean
    ensures plan.consumed == Min(blockSize - end, |data|) && plan.tail == tail < |g.disk|
    ensures forall j :: 0 <= j < |mem.chain| ==> g.disk[mem.chain[j]] == f.disk[mem.chain[j]]
    ensures plan.deferred ==> plan.consumed > 0 && plan.tail == head && g.disk[head][end..end + plan.consumed] == Blank(plan.consumed)
    ensures !plan.deferred
            ==> BlockOk(g.disk, blockSize, chain, mem.content + data, |mem.chain| - 1)
  {
    var fill := Min(blockSize - end, |data|);
    g := f;
    var i := |mem.chain| - 1;
    TailEndInBlock(|mem.chain|, |mem.content|, blockSize);
    if fill == 0 {
      assert end == blockSize || data == [];
      plan := TailPlan(tail, 0, false);
      FullTailOk(f.disk, blockSize, mem, data, chain, end);
    } else if tail == head {
      plan := TailPlan(head, fill, true);
    } else {
      var image := Relocated(f.disk[head], end, data[..fill], blockSize);
      PinnedWriteBlock(f, blockSize, file, tail, image);
      WriteBlockResult(f, tail, image);
      g := WriteBlock(f, tail, image);
      plan := TailPlan(tail, fill, false);
      CowOk(f.disk, blockSize, mem, data, chain, end, fill, image);
    }
  }

  /** A tail block with no room, or an empty append, already serves the new file. */
  lemma FullTailOk(disk: Disk, blockSize: nat, mem: CtzFile, data: seq<byte>, chain: seq<nat>, end: nat)
    requires Readable(disk, blockSize, mem) && mem.chain != [] && |mem.chain| <= |chain|
    requires forall j :: 0 <= j < |mem.chain| ==> chain[j] == mem.chain[j]
    requires end == TailEnd(|mem.chain|, |mem.content|, blockSize) && (end == blockSize || data == [])
    ensures BlockOk(disk, blockSize, chain, mem.content + data, |mem.chain| - 1)
  {
    var i := |mem.chain| - 1;
    assert LinkedAt(disk, mem.chain, i) && CarriesAt(disk, blockSize, mem.chain, mem.content, i);
    LinksFrame(disk[chain[i]], disk[chain[i]], mem.chain, chain, i);
    if data == [] {
      assert mem.content + data == mem.content;
    } else {
      TailEndInBlock(|mem.chain|, |mem.content|, blockSize);
      FullCarries(disk[chain[i]], mem.content, mem.content + data, i, blockSize);
    }
  }

  /** How the block counts before and after an append relate to the tail fill. */
  lemma OverflowCounts(nOld: nat, nNew: nat, size: nat, more: nat, consumed: nat, blockSize: nat)
    requires blockSize >= BLOCK_SIZE_MIN && size + more < U32_RANGE
    requires Reaches(nOld, size, blockSize) && Reaches(nNew, size + more, blockSize)
    requires nOld == 0 ==> consumed == 0
    requires nOld > 0 ==> consumed == Min(blockSize - TailEnd(nOld, size, blockSize), more)
    ensures nOld <= nNew && (consumed == more ==> nNew == nOld)
    ensures consumed < more ==> nOld < nNew && Start(nOld, blockSize) == size + consumed
  {
    ReachesMonotone(nOld, size, nNew, size + more, blockSize);
    if nOld > 0 {
      TailEndInBlock(nOld, size, blockSize);
    }
    if consumed == more {
      ReachesMonotone(nNew, size + more, nOld, size + more, blockSize);
    }
  }

  lemma ExtendedShape(mem: CtzFile, tail: nat, extra: seq<nat>, bound: nat)
    requires Distinct(mem.chain) && Distinct(extra)
    requires forall j :: 0 <= j < |extra| ==> extra[j] !in mem.chain && extra[j] != tail && extra[j] < bound
    requires forall j :: 0 <= j < |mem.chain| ==> mem.chain[j] < bound
    requires mem.chain != [] ==> tail < bound && (tail == mem.chain[|mem.chain| - 1] || tail !in mem.chain)
    ensures Distinct(Extended(mem.chain, tail, extra))
    ensures forall j :: 0 <= j < |Extended(mem.chain, tail, extra)| ==> Extended(mem.chain, tail, extra)[j] < bound
  {
    var n, chain := |mem.chain|, Extended(mem.chain, tail, extra);
    forall i, j | 0 <= i < j < |chain|
      ensures chain[i] != chain[j]
    {
      if j >= n {
        assert chain[j] == extra[j - n];
      }
    }
  }

  /** The existing blocks, with the tail possibly moved, form a well formed chain on their own. */
  lemma ExistingLinked(disk: Disk, disk': Disk, blockSize: nat, mem: CtzFile, chain: seq<nat>)
    requires Readable(disk, blockSize, mem) && |disk'| == |disk| && |mem.chain| <= |chain| < U32_RANGE
    requires forall j :: 0 <= j < |chain| ==> chain[j] < |disk|
    requires forall j :: 0 <= j < |mem.chain| - 1 ==> chain[j] == mem.chain[j] && disk'[chain[j]] == disk[chain[j]]
    requires mem.chain != [] ==> LinksAt(disk'[chain[|mem.chain| - 1]], chain, |mem.chain| - 1)
    ensures Linked(disk', chain[..|mem.chain|])
  {
    var prefix := chain[..|mem.chain|];
    forall i | 0 <= i < |prefix|
      ensures LinkedAt(disk', prefix, i)
    {
      if i < |mem.chain| - 1 {
        assert LinkedAt(disk, mem.chain, i);
        LinksFrame(disk[mem.chain[i]], disk'[prefix[i]], mem.chain, prefix, i);
      } else {
        LinksFrame(disk'[chain[i]], disk'[prefix[i]], chain, prefix, i);
      }
    }
  }

  /** What an extension leaves, failed or not: blocks from the pool at most, a tail to append to, and the synced file intact. */
  ghost predicate Leaves(f: Flash, g: Flash, unit: nat, blockSize: nat, drawn: seq<nat>, mem: CtzFile, grown: CtzFile, file: CtzFile) {
    && Draws(grown.chain, mem.chain, drawn) && TailFree(grown, file, blockSize) && Pinned(g, blockSize, file)
    && Geometry(g.disk, unit, blockSize) && |g.disk| == |f.disk| && g.clean == f.clean
  }

  /**
   `stream_ctz_extend` on a fault-free device. The open file grows by `data`;
   the durable file was readable after every device action, and every program
   hit only erased cells. `pool` lists the blocks the allocator has left, in the
   order it hands them out; the first `used` of them are taken. The append fails
   exactly when the new size is over the limit or the allocator runs out, and
   then the open file is as before.
   */
  method StreamExtend(f: Flash, unit: nat, blockSize: nat, head: nat, size: nat, data: seq<byte>,
                      pool: seq<nat>, maxBlocks: nat, ghost mem: CtzFile, ghost file: CtzFile)
    returns (r: Result<(nat, nat)>, g: Flash, used: nat, ghost grown: CtzFile)
    requires Geometry(f.disk, unit, blockSize) && Pinned(f, blockSize, file) && size + |data| < U32_RANGE
    requires Open(f, blockSize, mem, head, size) && TailFree(mem, file, blockSize)
    requires Spare(f, pool, mem, file) && maxBlocks < U32_RANGE
    ensures r.Ok? <==> size + |data| <= Start(maxBlocks, blockSize) && Demand(f.disk, blockSize, mem, |data|) <= |pool|
    ensures r.Err? ==> r.error == OutOfRange && grown == mem && Open(g, blockSize, mem, head, size)
    ensures size + |data| > Start(maxBlocks, blockSize) ==> g == f
    ensures r.Ok? ==> grown.content == mem.content + data && Open(g, blockSize, grown, r.value.0, r.value.1)
    ensures used <= |pool| && (r.Ok? ==> used == Demand(f.disk, blockSize, mem, |data|))
    ensures Leaves(f, g, unit, blockSize, pool[..used], mem, grown, file)
  {
    g, used, grown := f, 0, mem;
    var nOld, nNew, within := AppendBounds(size, |data|, maxBlocks, blockSize, |mem.chain|);
    if !within {
      return Err(OutOfRange), g, used, grown;
    }
    if nOld == 0 {
      DemandIs(f.disk, blockSize, mem, |data|, 0, nNew);
      r, g, used, grown := ExtendEmpty(f, unit, blockSize, head, data, pool, nNew, mem, file);
    } else {
      r, g, used, grown := ExtendChain(f, unit, blockSize, head, size, data, pool, nOld, nNew, mem, file);
    }
  }

  /** The bounds checks up front: block counts before and after, and whether both are under the limit. */
  method AppendBounds(size: nat, more: nat, maxBlocks: nat, blockSize: nat, ghost n: nat)
    returns (nOld: nat, nNew: nat, within: bool)
    requires blockSize >= BLOCK_SIZE_MIN && size + more < U32_RANGE && maxBlocks < U32_RANGE
    requires Reaches(n, size, blockSize)
    ensures nOld == n <= nNew == BlockCount(size + more, blockSize) && Reaches(nNew, size + more, blockSize)
    ensures within <==> size + more <= Start(maxBlocks, blockSize)
  {
    nOld := CountBlocks(size, blockSize, n);
    nNew := CountBlocks(size + more, blockSize, BlockCount(size + more, blockSize));
    BlockCountExact(size + more, blockSize);
    ReachesMonotone(nOld, size, nNew, size + more, blockSize);
    FitsBlocks(nNew, size + more, maxBlocks, blockSize);
    within := nOld <= maxBlocks && nNew <= maxBlocks;
  }

  /** A block count is within a limit exactly when that many blocks hold the size. */
  lemma FitsBlocks(n: nat, size: nat, limit: nat, blockSize: nat)
    requires blockSize >= BLOCK_SIZE_MIN && size < U32_RANGE && limit < U32_RANGE && Reaches(n, size, blockSize)
    ensures n <= limit <==> size <= Start(limit, blockSize)
  {
    ReachesBound(n, size, blockSize);
    if n <= limit {
      StartMonotone(n, limit, blockSize);
    } else {
      StartMonotone(limit, n - 1, blockSize);
    }
  }

  /** The append to an empty file: every block is new. */
  method ExtendEmpty(f: Flash, unit: nat, blockSize: nat, head: nat, data: seq<byte>, pool: seq<nat>, nNew: nat,
                     ghost mem: CtzFile, ghost file: CtzFile)
    returns (r: Result<(nat, nat)>, g: Flash, used: nat, ghost grown: CtzFile)
    requires Geometry(f.disk, unit, blockSize) && Pinned(f, blockSize, file) && |data| < U32_RANGE
    requires Open(f, blockSize, mem, head, 0) && mem.chain == [] && Spare(f, pool, mem, file)
    requires nNew == BlockCount(|data|, blockSize) && Reaches(nNew, |data|, blockSize)
    ensures r.Ok? <==> nNew <= |pool|
    ensures r.Err? ==> r.error == OutOfRange && grown == mem && g == f
    ensures r.Ok? ==> grown.content == mem.content + data && Open(g, blockSize, grown, r.value.0, r.value.1)
    ensures used <= |pool| && (r.Ok? ==> used == nNew)
    ensures Leaves(f, g, unit, blockSize, pool[..used], mem, grown, file)
  {
    g, used, grown := f, 0, mem;
    if nNew > |pool| {
      return Err(OutOfRange), g, used, grown;
    }
    var newHead;
    newHead, g := BuildFresh(f, unit, blockSize, head, data, pool[..nNew], file);
    used, grown := nNew, CtzFile(pool[..nNew], mem.content + data);
    assert mem.content + data == data;
    if nNew > 0 {
      TailEndInBlock(nNew, |data|, blockSize);
    }
    r := Ok((newHead, |data|));
  }

  /** Write `data` into a chain of its own. */
  method BuildFresh(f: Flash, unit: nat, blockSize: nat, head: nat, data: seq<byte>, chain: seq<nat>, ghost file: CtzFile)
    returns (newHead: nat, g: Flash)
    requires Geometry(f.disk, unit, blockSize) && Pinned(f, blockSize, file) && |data| < U32_RANGE
    requires Fresh(f, chain, file) && Reaches(|chain|, |data|, blockSize)
    ensures Readable(g.disk, blockSize, CtzFile(chain, data)) && newHead == if chain == [] then head else chain[|chain| - 1]
    ensures Pinned(g, blockSize, file)
    ensures Geometry(g.disk, unit, blockSize) && |g.disk| == |f.disk| && g.clean == f.clean
  {
    newHead, g := head, f;
    ChainBelowU32(|chain|, |data|, blockSize);
    if chain != [] {
      g := WriteOverflow(f, unit, blockSize, head, 0, |chain|, chain, data, chain, data, file);
      newHead := chain[|chain| - 1];
    }
    HoldsFromBlocks(g.disk, blockSize, chain, data);
  }

  /**
   The append to a file that has blocks. A tail that must be copied takes the
   first block of the pool, before the overflow blocks are asked for.
   */
  method ExtendChain(f: Flash, unit: nat, blockSize: nat, head: nat, size: nat, data: seq<byte>,
                     pool: seq<nat>, nOld: nat, nNew: nat, ghost mem: CtzFile, ghost file: CtzFile)
    returns (r: Result<(nat, nat)>, g: Flash, used: nat, ghost grown: CtzFile)
    requires Geometry(f.disk, unit, blockSize) && Pinned(f, blockSize, file) && size + |data| < U32_RANGE
    requires Open(f, blockSize, mem, head, size) && TailFree(mem, file, blockSize) && nOld == |mem.chain| > 0
    requires Spare(f, pool, mem, file)
    requires nOld <= nNew == BlockCount(size + |data|, blockSize) && Reaches(nNew, size + |data|, blockSize)
    ensures r.Ok? <==> Demand(f.disk, blockSize, mem, |data|) <= |pool|
    ensures r.Err? ==> r.error == OutOfRange && grown == mem && Open(g, blockSize, mem, head, size)
    ensures r.Ok? ==> grown.content == mem.content + data && Open(g, blockSize, grown, r.value.0, r.value.1)
    ensures used <= |pool| && (r.Ok? ==> used == Demand(f.disk, blockSize, mem, |data|))
    ensures Leaves(f, g, unit, blockSize, pool[..used], mem, grown, file)
  {
    g, used, grown := f, 0, mem;
    assert pool[..0] == [] && Leaves(f, f, unit, blockSize, [], mem, mem, file);
    var end := TailEndOf(size, blockSize, nOld);
    TailEndInBlock(nOld, size, blockSize);
    var copies, tail := ChooseTail(f, blockSize, head, end, |data|, pool, mem, file);
    DemandIs(f.disk, blockSize, mem, |data|, copies, nNew);
    if copies > |pool| {
      return Err(OutOfRange), g, used, grown;
    }
    if nNew - nOld > |pool| - copies {
      g := CopyTail(f, unit, blockSize, head, end, data, tail, mem, file);
      return Err(OutOfRange), g, used, grown;
    }
    used := copies + (nNew - nOld);
    var newHead;
    newHead, g, grown := ExtendOverflow(f, unit, blockSize, head, size, data, end, tail, pool[copies..], nOld, nNew, mem, file);
    LeavesTaken(f, g, unit, blockSize, mem, grown, file, tail, pool, copies, nNew - nOld);
    r := Ok((newHead, size + |data|));
  }

  /** The dirty check of step 1: the tail stays, or moves to the first block of the pool. */
  method ChooseTail(f: Flash, blockSize: nat, head: nat, end: nat, more: nat, pool: seq<nat>, ghost mem: CtzFile,
                    ghost file: CtzFile)
    returns (copies: nat, tail: nat)
    requires mem.chain != [] && mem.chain[|mem.chain| - 1] == head < |f.disk|
    requires end == TailEnd(|mem.chain|, |mem.content|, blockSize) && Spare(f, pool, mem, file)
    ensures copies == Copies(f.disk, blockSize, mem, more)
    ensures copies <= |pool| ==> tail == if copies == 1 then pool[0] else head
    ensures copies <= |pool| ==> TailChoice(f, blockSize, head, end, more, tail, mem, file)
    ensures copies <= |pool| ==> SpareTail(f, head, tail, pool[copies..], mem, file)
  {
    copies := if FillErased(f.disk[head], end, more, blockSize) then 0 else 1;
    tail := if copies == 1 && pool != [] then pool[0] else head;
    if copies <= |pool| {
      assert forall j :: 0 <= j < |pool| - copies ==> pool[copies..][j] == pool[copies + j];
    }
  }

  lemma DemandIs(disk: Disk, blockSize: nat, mem: CtzFile, more: nat, copies: nat, n: nat)
    requires blockSize >= BLOCK_SIZE_MIN && |mem.content| + more < U32_RANGE
    requires copies == Copies(disk, blockSize, mem, more) && n == BlockCount(|mem.content| + more, blockSize)
    ensures Demand(disk, blockSize, mem, more) == copies + n - |mem.chain|
  {
  }

  lemma TakenFrom(chain: seq<nat>, was: seq<nat>, tail: nat, pool: seq<nat>, copies: nat, more: nat)
    requires copies + more <= |pool| && Draws(chain, was, [tail] + pool[copies..][..more])
    requires copies <= 1 && if copies == 1 then tail == pool[0] else tail in was
    ensures Draws(chain, was, pool[..copies + more])
  {
    var taken, drawn := pool[..copies + more], [tail] + pool[copies..][..more];
    forall b | b in chain && b !in was
      ensures b in taken
    {
      var j :| 0 <= j < |drawn| && drawn[j] == b;
      assert if j == 0 then taken[0] == b else taken[copies + j - 1] == b;
    }
  }

  lemma LeavesTaken(f: Flash, g: Flash, unit: nat, blockSize: nat, mem: CtzFile, grown: CtzFile, file: CtzFile,
                    tail: nat, pool: seq<nat>, copies: nat, more: nat)
    requires copies + more <= |pool| && Leaves(f, g, unit, blockSize, [tail] + pool[copies..][..more], mem, grown, file)
    requires copies <= 1 && if copies == 1 then tail == pool[0] else tail in mem.chain
    ensures Leaves(f, g, unit, blockSize, pool[..copies + more], mem, grown, file)
  {
    TakenFrom(grown.chain, mem.chain, tail, pool, copies, more);
  }

  /** The allocator fails after the tail was copied: the copy is an orphan and the open file is untouched. */
  method CopyTail(f: Flash, unit: nat, blockSize: nat, head: nat, end: nat, data: seq<byte>, tail: nat,
                  ghost mem: CtzFile, ghost file: CtzFile)
    returns (g: Flash)
    requires Geometry(f.disk, unit, blockSize) && Pinned(f, blockSize, file)
    requires Open(f, blockSize, mem, head, |mem.content|) && mem.chain != []
    requires end == TailEnd(|mem.chain|, |mem.content|, blockSize) && end <= blockSize
    requires TailChoice(f, blockSize, head, end, |data|, tail, mem, file) && TailFree(mem, file, blockSize)
    ensures Open(g, blockSize, mem, head, |mem.content|) && Leaves(f, g, unit, blockSize, [], mem, mem, file)
  {
    var plan;
    plan, g := PlanTail(f, unit, blockSize, head, end, data, tail, mem, file, mem.chain[|mem.chain| - 1 := tail]);
    ReadableFrame(f.disk, g.disk, blockSize, mem);
  }

  lemma ReadableFrame(disk: Disk, disk': Disk, blockSize: nat, mem: CtzFile)
    requires Readable(disk, blockSize, mem) && |disk'| == |disk|
    requires forall j :: 0 <= j < |mem.chain| ==> disk'[mem.chain[j]] == disk[mem.chain[j]]
    ensures Readable(disk', blockSize, mem)
  {
    LinkedFrame(disk, disk', mem.chain);
    forall i | 0 <= i < |mem.chain|
      ensures CarriesAt(disk', blockSize, mem.chain, mem.content, i)
    {
      assert CarriesAt(disk, blockSize, mem.chain, mem.content, i);
    }
  }

  /** The append when the allocator can serve it: steps 1, 2 and 3. */
  method ExtendOverflow(f: Flash, unit: nat, blockSize: nat, head: nat, size: nat, data: seq<byte>, end: nat,
                        tail: nat, spares: seq<nat>, nOld: nat, nNew: nat, ghost mem: CtzFile, ghost file: CtzFile)
    returns (newHead: nat, g: Flash, ghost grown: CtzFile)
    requires Geometry(f.disk, unit, blockSize) && Pinned(f, blockSize, file) && size + |data| < U32_RANGE
    requires Open(f, blockSize, mem, head, size) && TailFree(mem, file, blockSize) && nOld == |mem.chain| > 0
    requires end == TailEnd(nOld, size, blockSize) && end <= blockSize
    requires TailChoice(f, blockSize, head, end, |data|, tail, mem, file) && SpareTail(f, head, tail, spares, mem, file)
    requires nNew <= nOld + |spares| && Reaches(nNew, size + |data|, blockSize) && nOld <= nNew
    ensures grown.content == mem.content + data && Open(g, blockSize, grown, newHead, size + |data|)
    ensures Leaves(f, g, unit, blockSize, [tail] + spares[..nNew - nOld], mem, grown, file)
  {
    ghost var chain := PlannedShape(f, head, tail, spares, nOld, nNew, mem, file);
    newHead, g := WriteGrown(f, unit, blockSize, head, size, data, end, tail, spares, nOld, nNew, chain, mem, file);
    grown := CtzFile(chain, mem.content + data);
  }

  /** Steps 1, 2 and 3 for a chosen longer chain. */
  method WriteGrown(f: Flash, unit: nat, blockSize: nat, head: nat, size: nat, data: seq<byte>, end: nat, tail: nat,
                    spares: seq<nat>, nOld: nat, nNew: nat, ghost chain: seq<nat>, ghost mem: CtzFile,
                    ghost file: CtzFile)
    returns (newHead: nat, g: Flash)
    requires Geometry(f.disk, unit, blockSize) && Pinned(f, blockSize, file) && size + |data| < U32_RANGE
    requires Open(f, blockSize, mem, head, size) && nOld == |mem.chain| > 0
    requires end == TailEnd(nOld, size, blockSize) && end <= blockSize
    requires TailChoice(f, blockSize, head, end, |data|, tail, mem, file) && TailFree(mem, file, blockSize)
    requires Reaches(nNew, size + |data|, blockSize) && nOld <= nNew == |chain|
    requires Prolongs(mem.chain, tail, chain, |f.disk|) && Distinct(chain) && Appends(chain, nOld, spares, file)
    ensures Readable(g.disk, blockSize, CtzFile(chain, mem.content + data)) && newHead == chain[|chain| - 1]
    ensures Pinned(g, blockSize, file) && TailFree(CtzFile(chain, mem.content + data), file, blockSize)
    ensures Geometry(g.disk, unit, blockSize) && |g.disk| == |f.disk| && g.clean == f.clean
  {
    OverflowCounts(nOld, nNew, size, |data|, Min(blockSize - end, |data|), blockSize);
    TailStaysFree(f, blockSize, head, end, |data|, tail, mem, file);
    ChainBelowU32(nNew, size + |data|, blockSize);
    var plan;
    plan, g := PlanTailReady(f, unit, blockSize, head, end, data, tail, mem, file, chain);
    g := OverflowStep(g, unit, blockSize, size, data, end, plan, spares, nOld, nNew, chain, mem, file);
    newHead := if plan.consumed < |data| then spares[nNew - nOld - 1] else tail;
    g := FillTail(g, unit, blockSize, end, data, plan, chain, mem, file);
    HoldsFromBlocks(g.disk, blockSize, chain, mem.content + data);
    GrownTailFree(end, data, tail, mem, CtzFile(chain, mem.content + data), file, blockSize);
  }

  lemma TailStaysFree(f: Flash, blockSize: nat, head: nat, end: nat, more: nat, tail: nat, mem: CtzFile, file: CtzFile)
    requires TailFree(mem, file, blockSize) && mem.chain != [] && mem.chain[|mem.chain| - 1] == head
    requires end == TailEnd(|mem.chain|, |mem.content|, blockSize)
    requires TailChoice(f, blockSize, head, end, more, tail, mem, file)
    ensures BlockFree(tail, end, file, blockSize)
  {
  }

  /** Every block of `chain` was in `was` or comes from `pool`. */
  ghost predicate Draws(chain: seq<nat>, was: seq<nat>, pool: seq<nat>) {
    forall b :: b in chain ==> b in was || b in pool
  }

  lemma TakenBlocks(was: seq<nat>, chain: seq<nat>, spares: seq<nat>, nOld: nat, nNew: nat)
    requires 0 < nOld == |was| <= nNew == |chain| <= nOld + |spares|
    requires forall j :: 0 <= j < nOld - 1 ==> chain[j] == was[j]
    requires forall j :: nOld <= j < nNew ==> chain[j] == spares[j - nOld]
    ensures Draws(chain, was, [chain[nOld - 1]] + spares[..nNew - nOld])
  {
    var drawn := [chain[nOld - 1]] + spares[..nNew - nOld];
    forall b | b in chain
      ensures b in was || b in drawn
    {
      var j :| 0 <= j < nNew && chain[j] == b;
      assert drawn[0] == chain[nOld - 1];
      if j >= nOld {
        assert drawn[j - nOld + 1] == b;
      }
    }
  }

  /** The blocks handed to an append: distinct spare ones, none of them the new home of the tail. */
  ghost predicate SpareTail(f: Flash, head: nat, tail: nat, spares: seq<nat>, mem: CtzFile, file: CtzFile) {
    Spare(f, spares, mem, file) && Distinct(spares) && tail !in spares && (tail == head || tail !in mem.chain)
  }

  /** Every block of the chain but block `skip` is in its final state. */
  ghost predicate OthersOk(disk: Disk, blockSize: nat, chain: seq<nat>, content: seq<byte>, skip: int)
    requires forall j :: 0 <= j < |chain| ==> chain[j] < |disk|
  {
    forall j :: 0 <= j < |chain| && j != skip ==> BlockOk(disk, blockSize, chain, content, j)
  }

  lemma GrownTailFree(end: nat, data: seq<byte>, tail: nat, mem: CtzFile, grown: CtzFile, file: CtzFile, blockSize: nat)
    requires 0 < |mem.chain| <= |grown.chain| && grown.content == mem.content + data
    requires end == TailEnd(|mem.chain|, |mem.content|, blockSize) && grown.chain[|mem.chain| - 1] == tail
    requires Reaches(|grown.chain|, |grown.content|, blockSize) && BlockFree(tail, end, file, blockSize)
    requires forall j :: |mem.chain| <= j < |grown.chain| ==> grown.chain[j] !in file.chain
    ensures TailFree(grown, file, blockSize)
  {
    TailEndInBlock(|grown.chain|, |grown.content|, blockSize);
  }

  /** Step 2, when there is overflow. */
  method OverflowStep(f: Flash, unit: nat, blockSize: nat, size: nat, data: seq<byte>, ghost end: nat, plan: TailPlan,
                      spares: seq<nat>, nOld: nat, nNew: nat, ghost chain: seq<nat>, ghost mem: CtzFile,
                      ghost file: CtzFile)
    returns (g: Flash)
    requires Geometry(f.disk, unit, blockSize) && Pinned(f, blockSize, file) && size + |data| < U32_RANGE
    requires nOld == |mem.chain| > 0 && size == |mem.content| && Reaches(nNew, size + |data|, blockSize)
    requires nOld <= nNew == |chain| <= nOld + |spares| && Distinct(chain) && chain[nOld - 1] == plan.tail
    requires forall j :: 0 <= j < nNew ==> chain[j] < |f.disk|
    requires forall j :: nOld <= j < nNew ==> chain[j] == spares[j - nOld] && chain[j] !in file.chain
    requires Linked(f.disk, chain[..nOld]) && plan.consumed <= |data|
    requires forall j :: 0 <= j < nOld - 1 ==> BlockOk(f.disk, blockSize, chain, mem.content + data, j)
    requires TailReady(f.disk, blockSize, mem, data, chain, plan, end)
    requires plan.consumed < |data| ==> nOld < nNew && Start(nOld, blockSize) == size + plan.consumed
    requires plan.consumed == |data| ==> nNew == nOld
    ensures Geometry(g.disk, unit, blockSize) && |g.disk| == |f.disk|
    ensures Pinned(g, blockSize, file) && g.clean == f.clean
    ensures OthersOk(g.disk, blockSize, chain, mem.content + data, nOld - 1)
    ensures TailReady(g.disk, blockSize, mem, data, chain, plan, end)
  {
    g := f;
    if plan.consumed < |data| {
      assert (mem.content + data)[size + plan.consumed..] == data[plan.consumed..];
      g := WriteOverflow(f, unit, blockSize, plan.tail, nOld, nNew, spares, data[plan.consumed..], chain,
                         mem.content + data, file);
    }
    forall j | 0 <= j < |chain| && j != nOld - 1
      ensures BlockOk(g.disk, blockSize, chain, mem.content + data, j)
    {
      if j < nOld {
        BlockOkFrame(f.disk, g.disk, blockSize, chain, mem.content + data, j);
      }
    }
  }

  /** The tail block after step 1: still to be filled in place, or already serving the new file. */
  ghost predicate TailReady(disk: Disk, blockSize: nat, mem: CtzFile, data: seq<byte>, chain: seq<nat>,
                            plan: TailPlan, end: nat)
    requires 0 < |mem.chain| <= |chain| && chain[|mem.chain| - 1] < |disk|
  {
    var i := |mem.chain| - 1;
    LinkedAt(disk, chain, i) &&
    if plan.deferred then
      CarriesAt(disk, blockSize, chain, mem.content, i) && end + plan.consumed <= |disk[chain[i]]| &&
      disk[chain[i]][end..end + plan.consumed] == Blank(plan.consumed)
    else
      CarriesAt(disk, blockSize, chain, mem.content + data, i)
  }

  /** Step 1 and what it leaves for the overflow and fill steps. */
  method PlanTailReady(f: Flash, unit: nat, blockSize: nat, head: nat, end: nat, data: seq<byte>, tail: nat,
                       ghost mem: CtzFile, ghost file: CtzFile, ghost chain: seq<nat>)
    returns (plan: TailPlan, g: Flash)
    requires Geometry(f.disk, unit, blockSize) && Pinned(f, blockSize, file)
    requires Open(f, blockSize, mem, head, |mem.content|) && mem.chain != []
    requires end == TailEnd(|mem.chain|, |mem.content|, blockSize) && end <= blockSize
    requires TailChoice(f, blockSize, head, end, |data|, tail, mem, file)
    requires Prolongs(mem.chain, tail, chain, |f.disk|) && |chain| < U32_RANGE
    ensures Geometry(g.disk, unit, blockSize) && |g.disk| == |f.disk|
    ensures Pinned(g, blockSize, file) && g.clean == f.clean
    ensures plan.consumed == Min(blockSize - end, |data|) && plan.tail == tail && (plan.deferred ==> plan.consumed > 0)
    ensures Linked(g.disk, chain[..|mem.chain|])
    ensures forall j :: 0 <= j < |mem.chain| - 1 ==> BlockOk(g.disk, blockSize, chain, mem.content + data, j)
    ensures TailReady(g.disk, blockSize, mem, data, chain, plan, end)
  {
    plan, g := PlanTail(f, unit, blockSize, head, end, data, tail, mem, file, chain);
    PlanReady(f.disk, g.disk, blockSize, mem, data, plan, chain, end);
  }

  /** After step 1 the kept blocks serve the longer file, all but a tail still to be filled. */
  lemma PlanReady(disk: Disk, disk': Disk, blockSize: nat, mem: CtzFile, data: seq<byte>, plan: TailPlan,
                  chain: seq<nat>, end: nat)
    requires Readable(disk, blockSize, mem) && Prolongs(mem.chain, plan.tail, chain, |disk|) && |chain| < U32_RANGE
    requires |disk'| == |disk| && forall j :: 0 <= j < |mem.chain| ==> disk'[mem.chain[j]] == disk[mem.chain[j]]
    requires plan.deferred ==> plan.tail == mem.chain[|mem.chain| - 1] && end + plan.consumed <= |disk'[plan.tail]| &&
                               disk'[plan.tail][end..end + plan.consumed] == Blank(plan.consumed)
    requires !plan.deferred ==> BlockOk(disk', blockSize, chain, mem.content + data, |mem.chain| - 1)
    ensures Linked(disk', chain[..|mem.chain|])
    ensures forall j :: 0 <= j < |mem.chain| - 1 ==> BlockOk(disk', blockSize, chain, mem.content + data, j)
    ensures TailReady(disk', blockSize, mem, data, chain, plan, end)
  {
    TailLinks(disk, disk', blockSize, mem, data, plan, chain);
    ExistingLinked(disk, disk', blockSize, mem, chain);
    PrefixesOk(disk, disk', blockSize, mem, data, chain);
  }

  /** The blocks of the longer chain are distinct, in the device, and the new ones are not the durable file's. */
  lemma PlannedShape(f: Flash, head: nat, tail: nat, spares: seq<nat>, nOld: nat, nNew: nat, mem: CtzFile, file: CtzFile)
    returns (chain: seq<nat>)
    requires Distinct(mem.chain) && nOld == |mem.chain| > 0 && mem.chain[nOld - 1] == head
    requires forall j :: 0 <= j < nOld ==> mem.chain[j] < |f.disk|
    requires SpareTail(f, head, tail, spares, mem, file)
    requires tail < |f.disk| && nOld <= nNew <= nOld + |spares|
    ensures Prolongs(mem.chain, tail, chain, |f.disk|) && Distinct(chain) && |chain| == nNew
    ensures Appends(chain, nOld, spares, file)
    ensures Draws(chain, mem.chain, [tail] + spares[..nNew - nOld])
  {
    var extra := spares[..nNew - nOld];
    assert forall j :: 0 <= j < |extra| ==> extra[j] == spares[j];
    assert forall j :: 0 <= j < nOld ==> mem.chain[j] in mem.chain;
    ExtendedShape(mem, tail, extra, |f.disk|);
    chain := Extended(mem.chain, tail, extra);
    TakenBlocks(mem.chain, chain, spares, nOld, nNew);
  }

  /** The blocks of `chain` from `nOld` on are the first ones of `spares`, and not the durable file's. */
  ghost predicate Appends(chain: seq<nat>, nOld: nat, spares: seq<nat>, file: CtzFile) {
    |chain| <= nOld + |spares| &&
    forall j :: nOld <= j < |chain| ==> chain[j] == spares[j - nOld] && chain[j] !in file.chain
  }

  lemma PrefixesOk(disk: Disk, disk': Disk, blockSize: nat, mem: CtzFile, data: seq<byte>, chain: seq<nat>)
    requires Readable(disk, blockSize, mem) && |mem.chain| <= |chain| && |disk'| == |disk|
    requires forall j :: 0 <= j < |mem.chain| - 1 ==> chain[j] == mem.chain[j] && disk'[chain[j]] == disk[chain[j]]
    ensures forall j :: 0 <= j < |mem.chain| - 1 ==> BlockOk(disk', blockSize, chain, mem.content + data, j)
  {
    forall j | 0 <= j < |mem.chain| - 1
      ensures BlockOk(disk', blockSize, chain, mem.content + data, j)
    {
      PrefixOk(disk, disk', blockSize, mem, data, chain, j);
    }
  }

  lemma TailLinks(disk: Disk, disk': Disk, blockSize: nat, mem: CtzFile, data: seq<byte>, plan: TailPlan,
                  chain: seq<nat>)
    requires Readable(disk, blockSize, mem) && mem.chain != [] && |mem.chain| <= |chain| && |disk'| == |disk|
    requires forall j :: 0 <= j < |mem.chain| - 1 ==> chain[j] == mem.chain[j]
    requires chain[|mem.chain| - 1] == plan.tail < |disk|
    requires plan.deferred ==> plan.tail == mem.chain[|mem.chain| - 1] && disk'[plan.tail] == disk[plan.tail]
    requires !plan.deferred ==> BlockOk(disk', blockSize, chain, mem.content + data, |mem.chain| - 1)
    ensures LinkedAt(disk', chain, |mem.chain| - 1)
    ensures plan.deferred ==> CarriesAt(disk', blockSize, chain, mem.content, |mem.chain| - 1)
  {
    var i := |mem.chain| - 1;
    if plan.deferred {
      assert LinkedAt(disk, mem.chain, i) && CarriesAt(disk, blockSize, mem.chain, mem.content, i);
      LinksFrame(disk[plan.tail], disk'[plan.tail], mem.chain, chain, i);
    }
  }

  /** Step 3 of `stream_ctz_extend`: the in-place fill of the tail block, last, if it was deferred. */
  method FillTail(f: Flash, unit: nat, blockSize: nat, end: nat, data: seq<byte>, plan: TailPlan,
                  ghost chain: seq<nat>, ghost mem: CtzFile, ghost file: CtzFile)
    returns (g: Flash)
    requires Geometry(f.disk, unit, blockSize) && Pinned(f, blockSize, file)
    requires 0 < |mem.chain| <= |chain| && Distinct(chain) && forall j :: 0 <= j < |chain| ==> chain[j] < |f.disk|
    requires chain[|mem.chain| - 1] == plan.tail && BlockFree(plan.tail, end, file, blockSize)
    requires Reaches(|mem.chain|, |mem.content|, blockSize) && end == TailEnd(|mem.chain|, |mem.content|, blockSize)
    requires TailReady(f.disk, blockSize, mem, data, chain, plan, end)
    requires plan.consumed == Min(blockSize - end, |data|) && (plan.deferred ==> plan.consumed > 0)
    requires OthersOk(f.disk, blockSize, chain, mem.content + data, |mem.chain| - 1)
    ensures Geometry(g.disk, unit, blockSize) && |g.disk| == |f.disk|
    ensures Pinned(g, blockSize, file) && g.clean == f.clean
    ensures forall j :: 0 <= j < |chain| ==> BlockOk(g.disk, blockSize, chain, mem.content + data, j)
  {
    g := f;
    if plan.deferred {
      ghost var i, fill := |mem.chain| - 1, data[..plan.consumed];
      TailEndInBlock(|mem.chain|, |mem.content|, blockSize);
      PinnedProgram(f, blockSize, file, plan.tail, end, fill);
      ProgramErased(f.disk[plan.tail][end..end + |fill|], fill);
      g := Program(f, plan.tail, end, data[..plan.consumed]);
      FillOk(f.disk[plan.tail], g.disk[plan.tail], blockSize, mem, data, chain, end, plan.consumed);
      forall j | 0 <= j < |chain|
        ensures BlockOk(g.disk, blockSize, chain, mem.content + data, j)
      {
        if j != i {
          BlockOkFrame(f.disk, g.disk, blockSize, chain, mem.content + data, j);
        }
      }
    }
  }

  lemma FillOk(image: seq<byte>, image': seq<byte>, blockSize: nat, mem: CtzFile, data: seq<byte>, chain: seq<nat>,
               end: nat, fill: nat)
    requires 0 < |mem.chain| <= |chain| && Reaches(|mem.chain|, |mem.content|, blockSize)
    requires LinksAt(image, chain, |mem.chain| - 1) && Carries(image, mem.content, |mem.chain| - 1, blockSize)
    requires end == TailEnd(|mem.chain|, |mem.content|, blockSize) && fill == Min(blockSize - end, |data|)
    requires image' == Splice(image, end, data[..fill])
    ensures LinksAt(image', chain, |mem.chain| - 1)
    ensures Carries(image', mem.content + data, |mem.chain| - 1, blockSize)
  {
    var i := |mem.chain| - 1;
    TailEndInBlock(|mem.chain|, |mem.content|, blockSize);
    FillCarries(image, mem.content, data, i, blockSize, end, fill);
    assert image'[..HeaderBytes(i)] == image[..HeaderBytes(i)];
    LinksFrame(image, image', chain, chain, i);
  }

  // ---- Shrink --------------------------------------------------------------------

  /**
   `shrink_ctz_head` on a fault-free device. A new tail that ends exactly on its
   block's capacity is reused; any other is copied to the first block of `pool`,
   so the next append never fills over stale cells. Only that block is written.
   */
  method ShrinkHead(f: Flash, unit: nat, blockSize: nat, head: nat, size: nat, newSize: nat, pool: seq<nat>,
                    maxBlocks: nat, ghost mem: CtzFile, ghost file: CtzFile)
    returns (r: Result<nat>, g: Flash, ghost cut: CtzFile)
    requires Geometry(f.disk, unit, blockSize) && Pinned(f, blockSize, file) && maxBlocks < U32_RANGE
    requires Open(f, blockSize, mem, head, size) && 0 < newSize <= size && TailFree(mem, file, blockSize)
    requires Spare(f, pool, mem, file)
    ensures r.Ok? <==> size <= Start(maxBlocks, blockSize) &&
                       (newSize == Start(BlockCount(newSize, blockSize), blockSize) || pool != [])
    ensures r.Err? ==> r.error == OutOfRange && g == f && cut == mem
    ensures r.Ok? ==> cut.content == mem.content[..newSize] && Open(g, blockSize, cut, r.value, newSize)
    ensures TailFree(cut, file, blockSize) && Pinned(g, blockSize, file)
    ensures Geometry(g.disk, unit, blockSize) && |g.disk| == |f.disk| && g.clean == f.clean
  {
    g, cut := f, mem;
    var nOld := CountBlocks(size, blockSize, |mem.chain|);
    FitsBlocks(nOld, size, maxBlocks, blockSize);
    if nOld > maxBlocks {
      return Err(OutOfRange), g, cut;
    }
    ReachesBound(nOld, size, blockSize);
    var collected := CollectChain(f.disk, unit, blockSize, head, nOld, nOld, blockSize, mem.chain);
    var chain := collected.value;
    BlockCountExact(newSize, blockSize);
    var n := CountBlocks(newSize, blockSize, BlockCount(newSize, blockSize));
    ReachesBound(n, newSize, blockSize);
    ReachesMonotone(n, newSize, nOld, size, blockSize);
    var keep := TailEndOf(newSize, blockSize, n);
    TailEndInBlock(n, newSize, blockSize);
    if keep == blockSize {
      g, r := f, Ok(chain[n - 1]);
      cut := CtzFile(mem.chain[..n], mem.content[..newSize]);
      CutHolds(f.disk, g.disk, blockSize, mem, cut, newSize, n, keep);
    } else if pool == [] {
      return Err(OutOfRange), g, cut;
    } else {
      g, cut := CopyPrefix(f, unit, blockSize, chain[n - 1], newSize, n, keep, pool[0], mem, file);
      r := Ok(pool[0]);
    }
  }

  /** Copy the kept prefix of the new tail block to `spare`. */
  method CopyPrefix(f: Flash, unit: nat, blockSize: nat, tail: nat, newSize: nat, n: nat, keep: nat, spare: nat,
                    ghost mem: CtzFile, ghost file: CtzFile)
    returns (g: Flash, ghost cut: CtzFile)
    requires Geometry(f.disk, unit, blockSize) && Pinned(f, blockSize, file)
    requires Readable(f.disk, blockSize, mem) && Distinct(mem.chain) && newSize <= |mem.content|
    requires 0 < n <= |mem.chain| && mem.chain[n - 1] == tail && Reaches(n, newSize, blockSize)
    requires keep == TailEnd(n, newSize, blockSize) <= blockSize
    requires SpareBlock(f, spare, mem, file)
    ensures cut.content == mem.content[..newSize] && Open(g, blockSize, cut, spare, newSize)
    ensures TailFree(cut, file, blockSize) && Pinned(g, blockSize, file)
    ensures Geometry(g.disk, unit, blockSize) && |g.disk| == |f.disk| && g.clean == f.clean
  {
    var image := Relocated(f.disk[tail], keep, [], blockSize);
    PinnedWriteBlock(f, blockSize, file, spare, image);
    WriteBlockResult(f, spare, image);
    g := WriteBlock(f, spare, image);
    cut := CtzFile(mem.chain[..n - 1] + [spare], mem.content[..newSize]);
    assert image[..keep] == f.disk[tail][..keep];
    CutHolds(f.disk, g.disk, blockSize, mem, cut, newSize, n, keep);
  }

  lemma CutHolds(disk: Disk, disk': Disk, blockSize: nat, mem: CtzFile, cut: CtzFile, newSize: nat, n: nat, keep: nat)
    requires Readable(disk, blockSize, mem) && newSize <= |mem.content| && 0 < n <= |mem.chain|
    requires Reaches(n, newSize, blockSize) && keep == TailEnd(n, newSize, blockSize) <= blockSize
    requires cut.content == mem.content[..newSize] && |cut.chain| == n && |disk'| == |disk|
    requires forall j :: 0 <= j < n ==> cut.chain[j] < |disk|
    requires forall j :: 0 <= j < n - 1 ==> cut.chain[j] == mem.chain[j] && disk'[cut.chain[j]] == disk[cut.chain[j]]
    requires |disk[mem.chain[n - 1]]| == |disk'[cut.chain[n - 1]]| == blockSize
    requires disk'[cut.chain[n - 1]][..keep] == disk[mem.chain[n - 1]][..keep]
    ensures Readable(disk', blockSize, cut)
  {
    TailEndInBlock(n, newSize, blockSize);
    forall i | 0 <= i < n
      ensures BlockOk(disk', blockSize, cut.chain, cut.content, i)
    {
      assert LinkedAt(disk, mem.chain, i) && CarriesAt(disk, blockSize, mem.chain, mem.content, i);
      var image, image' := disk[mem.chain[i]], disk'[cut.chain[i]];
      if i < n - 1 {
        StartMonotone(i + 1, n - 1, blockSize);
        FullCarries(image, mem.content, cut.content, i, blockSize);
      } else {
        TrimCarries(image, image', mem.content, newSize, i, keep, blockSize);
        assert image'[..HeaderBytes(i)] == image'[..keep][..HeaderBytes(i)];
        assert image[..HeaderBytes(i)] == image[..keep][..HeaderBytes(i)];
      }
      LinksFrame(image, image', mem.chain, cut.chain, i);
    }
    HoldsFromBlocks(disk', blockSize, cut.chain, cut.content);
  }
}
