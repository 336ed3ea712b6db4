/**
 The stateful file handle (`src/file.rs`): writes are staged in a chain that no
 metadata refers to until `Sync`, while the last synced file stays intact.

 `set_len` extends a file chunk by chunk and marks the handle dirty only after
 the last chunk. If a later chunk fails, a clean handle stays clean over a file
 that grew, and the next `sync` commits nothing. The ghost field `lost` records
 exactly that, and `Sync` is proved to make the staged file durable if and only
 if it is not set.
 */
module File {
  import opened Bits
  import opened CtzChain
  import opened CtzLayout
  import opened CtzStream
  import opened CtzWrite
  import opened Storage
  import opened Words

  /** The size of `ZERO_CHUNK`, the unit in which `set_len` extends a file. */
  const ZERO_CHUNK: nat := 1024

  /** What the metadata records of a file: an empty inline body, or a chain's last block and its size. */
  datatype Entry = Empty | Chain(head: nat, size: nat)

  /** The entry of a file: only a file with content has a chain. */
  predicate Records(entry: Entry, file: CtzFile) {
    match entry
    case Empty => file.chain == [] && file.content == []
    case Chain(head, size) => file.chain != [] && file.chain[|file.chain| - 1] == head && |file.content| == size
  }

  /** The staged file is readable beside the synced one. */
  ghost predicate StagedOver(f: Flash, unit: nat, blockSize: nat, mem: CtzFile, head: nat, size: nat, synced: CtzFile) {
    Geometry(f.disk, unit, blockSize) && f.clean && |f.disk| <= NO_BLOCK &&
    Open(f, blockSize, mem, head, size) && Pinned(f, blockSize, synced) && Distinct(synced.chain) && TailFree(mem, synced, blockSize)
  }

  /** The anchor of a seek: the start, the cursor or the end of the file. */
  datatype SeekFrom = FromStart(offset: nat) | FromCursor(delta: int) | FromEnd(delta: int)

  class File {
    const unit: nat
    const blockSize: nat
    /** `MAX_CTZ_BLOCKS` and `MAX_CTZ_WRITE_BLOCKS`, both 256: the longest chain the kernel reads or writes. */
    const maxBlocks: nat
    const append: bool
    /** Whether the build checks sums for overflow, and a debug assertion with it. */
    const checked: bool
    var flash: Flash
    var head: nat
    var size: nat
    var pos: nat
    var dirty: bool
    /** The file's entry in its directory. */
    var entry: Entry
    /** The file as written through this handle. */
    ghost var mem: CtzFile
    /** The file as the metadata last recorded it. */
    ghost var synced: CtzFile
    /** A clean handle was extended part way by a `set_len` that failed, and nothing was staged since. */
    ghost var lost: bool

    /** The staged file is readable, and the synced one, which the entry records, stays so. */
    ghost predicate Staged()
      reads this
    {
      StagedOver(flash, unit, blockSize, mem, head, size, synced) && maxBlocks < U32_RANGE && Records(entry, synced)
    }

    ghost predicate Valid()
      reads this
    {
      Staged() &&
      (!dirty && !lost ==> mem == synced) && (dirty && size == 0 ==> head == NO_BLOCK) && (lost ==> !dirty && |synced.content| < |mem.content|)
    }

    /** `Fs::open` on a committed file: the cursor starts at the end in append mode, and truncation is staged. */
    constructor (flash: Flash, unit: nat, blockSize: nat, maxBlocks: nat, append: bool, truncate: bool, checked: bool, entry: Entry,
                 ghost file: CtzFile)
      requires Geometry(flash.disk, unit, blockSize) && flash.clean && flash.trace == [] && maxBlocks < U32_RANGE
      requires |flash.disk| <= NO_BLOCK && Pinned(flash, blockSize, file) && Distinct(file.chain) && Records(entry, file)
      ensures Valid() && synced == file && mem.content == (if truncate then [] else file.content) && (!truncate ==> mem == file)
      ensures pos == (if append then size else 0) && dirty == truncate && !lost
      ensures this.flash == flash && this.entry == entry
      ensures this.unit == unit && this.blockSize == blockSize && this.maxBlocks == maxBlocks && this.append == append && this.checked == checked
    {
      var last, length := NO_BLOCK, 0;
      if entry.Chain? && !truncate {
        last, length := entry.head, entry.size;
      }
      this.flash, this.unit, this.blockSize, this.maxBlocks := flash, unit, blockSize, maxBlocks;
      this.append, this.checked, this.entry := append, checked, entry;
      head, size, pos, dirty := last, length, if append then length else 0, truncate;
      mem, synced, lost := if truncate then CtzFile([], []) else file, file, false;
      new;
      EmptyFile(flash, blockSize, NO_BLOCK);
      OwnTailFree(file, blockSize);
    }

    /** `File::seek`: anywhere a `u32` reaches, also past the end. */
    method Seek(from: SeekFrom) returns (r: Result<nat>)
      requires Valid()
      modifies this`pos
      ensures Valid()
      ensures var target := match from case FromStart(p) => p case FromCursor(d) => old(pos) + d case FromEnd(d) => |mem.content| + d;
              if 0 <= target < U32_RANGE then r == Ok(target) && pos == target else r == Err(OutOfRange) && pos == old(pos)
    {
      var target: int;
      match from {
        case FromStart(p) => target := p;
        case FromCursor(d) => target := pos + d;
        case FromEnd(d) => target := size + d;
      }
      if target < 0 || target >= U32_RANGE {
        return Err(OutOfRange);
      }
      pos := target;
      return Ok(target);
    }

    /**
     `File::read`: `take` bytes from the cursor, of which `bytes` reached the buffer.
     They are that slice of the abstract file, or the build panics, or the end of the
     slice is lost while the cursor passes over it; which, `Laps` and `Loses` say.
     */
    method Read(want: nat) returns (r: Result<nat>, bytes: seq<byte>)
      requires Valid()
      modifies this`pos
      ensures Valid() && (r.Err? ==> pos == old(pos) && bytes == [])
      ensures old(pos) < size && want > 0 && |mem.chain| > maxBlocks ==> r == Err(OutOfRange)
      ensures want == 0 || old(pos) >= size ==> r == Ok(0) && bytes == [] && pos == old(pos)
      ensures old(pos) < size && |mem.chain| <= maxBlocks
              ==> var n, last := |mem.chain|, Min(size, old(pos) + want);
                  if checked && Laps(n, blockSize, old(pos), last) then r == Err(Panic) && pos == old(pos)
                  else r == Ok(last - old(pos)) && pos == last && bytes == mem.content[old(pos)..ReadEnd(n, blockSize, old(pos), last)]
    {
      if want == 0 || pos >= size {
        assert pos < size ==> mem.content[pos..pos] == [];
        return Ok(0), [];
      }
      var take := Min(want, size - pos);
      var got := Fetch(take);
      if got.Err? {
        return Err(got.error), [];
      }
      pos := pos + take;
      return Ok(take), got.value;
    }

    /** `read_ctz_at` at the cursor. */
    method Fetch(take: nat) returns (r: Result<seq<byte>>)
      requires Valid() && 0 < take <= size - pos
      ensures var n, last := |mem.chain|, pos + take;
              r == if n > maxBlocks then Err(OutOfRange)
                   else if checked && Laps(n, blockSize, pos, last) then Err(Panic)
                   else Ok(mem.content[pos..ReadEnd(n, blockSize, pos, last)])
    {
      assert take % U32_RANGE == take;
      r := ReadAt(flash.disk, unit, blockSize, head, size, pos, take, maxBlocks, blockSize, checked, mem.chain, mem.content);
    }

    /** The blocks the allocator has for this handle, none of them the staged or the synced file's. */
    ghost predicate Pool(pool: seq<nat>)
      requires Valid()
      reads this
    {
      Spare(flash, pool, mem, synced)
    }

    /** `File::write`: append `data` to the staged file. The synced file stays readable throughout. */
    method Write(data: seq<byte>, pool: seq<nat>) returns (r: Result<nat>)
      requires Valid() && Pool(pool) && size + |data| < U32_RANGE
      modifies this
      ensures Valid() && synced == old(synced)
      ensures r.Ok? <==> data == [] || ((append || old(pos) == old(size)) && old(size) + |data| <= Start(maxBlocks, blockSize) &&
                                        Demand(old(flash).disk, blockSize, old(mem), |data|) <= |pool|)
      ensures r.Ok? ==> r.value == |data| && mem.content == old(mem.content) + data
      ensures r.Ok? && data != [] ==> pos == size == old(size) + |data| && dirty && !lost
      ensures r.Err? ==> r.error == OutOfRange && pos == if append then old(size) else old(pos)
      ensures data == [] ==> unchanged(this)
      ensures r.Err? ==> mem == old(mem) && size == old(size) && dirty == old(dirty) && lost == old(lost)
      ensures entry == old(entry)
    {
      if data == [] {
        assert mem.content + data == mem.content;
        return Ok(0);
      }
      if append {
        pos := size;
      }
      if pos != size {
        return Err(OutOfRange);
      }
      r := Stage(data, pool);
      if r.Ok? {
        pos, dirty, lost := size, true, false;
      }
    }

    /** The staged file grows by `data`, or stays; neither cursor nor mark moves. */
    method Stage(data: seq<byte>, pool: seq<nat>) returns (r: Result<nat>)
      requires Valid() && Pool(pool) && size + |data| < U32_RANGE && data != []
      modifies this`flash, this`mem, this`head, this`size
      ensures Staged() && synced == old(synced)
      ensures r.Ok? <==> old(size) + |data| <= Start(maxBlocks, blockSize) && Demand(old(flash).disk, blockSize, old(mem), |data|) <= |pool|
      ensures r.Ok? ==> r.value == |data| && mem.content == old(mem.content) + data && size == old(size) + |data|
      ensures r.Err? ==> r.error == OutOfRange && mem == old(mem) && head == old(head) && size == old(size)
    {
      var extended, g, used, grown := StreamExtend(flash, unit, blockSize, head, size, data, pool, maxBlocks, mem, synced);
      flash, mem := g, grown;
      if extended.Err? {
        return Err(extended.error);
      }
      head, size := extended.value.0, extended.value.1;
      return Ok(|data|);
    }

    /** `File::set_len` to a smaller size: keep the prefix. */
    method Shrink(newSize: nat, pool: seq<nat>) returns (r: Result<()>)
      requires Valid() && Pool(pool) && newSize < size
      modifies this
      ensures Valid() && synced == old(synced)
      ensures r.Ok? <==> newSize == 0 || (old(size) <= Start(maxBlocks, blockSize) &&
                         (newSize == Start(BlockCount(newSize, blockSize), blockSize) || pool != []))
      ensures r.Ok? ==> mem.content == old(mem.content)[..newSize] && size == newSize && pos == Min(old(pos), newSize) && dirty && !lost
      ensures r.Err? ==> r.error == OutOfRange && unchanged(this)
      ensures entry == old(entry)
    {
      if newSize == 0 {
        EmptyFile(flash, blockSize, NO_BLOCK);
        mem, head, size, dirty, lost := CtzFile([], []), NO_BLOCK, 0, true, false;
        pos := Min(pos, size);
        return Ok(());
      }
      var shrunk, g, cut := ShrinkHead(flash, unit, blockSize, head, size, newSize, pool, maxBlocks, mem, synced);
      if shrunk.Err? {
        return Err(shrunk.error);
      }
      flash, mem, head, size, dirty, lost := g, cut, shrunk.value, newSize, true, false;
      pos := Min(pos, size);
      return Ok(());
    }

    /**
     `File::set_len` to a larger size: stream zeros in chunks. A failed chunk
     leaves the zeros written so far, and the handle as dirty as it was.
     */
    method Grow(newSize: nat, pool: seq<nat>) returns (r: Result<()>)
      requires Valid() && Pool(pool) && size < newSize < U32_RANGE
      modifies this
      ensures Valid() && synced == old(synced) && old(size) <= size <= newSize
      ensures size > old(size) ==> size <= Start(maxBlocks, blockSize)
      ensures mem.content == old(mem.content) + Zeros(size - old(size))
      ensures r.Ok? ==> size == newSize && pos == Min(old(pos), newSize) && dirty && !lost
      ensures r.Err? ==> HalfGrown(old(size), size, newSize, old(|mem.chain|), |pool|, maxBlocks, blockSize) && r.error == OutOfRange
      ensures r.Err? ==> pos == old(size) && dirty == old(dirty) && lost == (old(lost) || (!dirty && size > old(size)))
      ensures entry == old(entry)
    {
      var savedPos := pos;
      pos := size;
      r := GrowChunks(newSize, pool);
      if r.Ok? {
        pos := Min(savedPos, size);
        dirty, lost := true, false;
      }
    }

    /** The loop of that: the cursor stands at the old end, and the handle keeps its mark. */
    method GrowChunks(newSize: nat, pool: seq<nat>) returns (r: Result<()>)
      requires Valid() && Pool(pool) && size < newSize < U32_RANGE
      modifies this`flash, this`mem, this`head, this`size, this`lost
      ensures Valid() && old(size) <= size <= newSize
      ensures size > old(size) ==> size <= Start(maxBlocks, blockSize)
      ensures mem.content == old(mem.content) + Zeros(size - old(size))
      ensures lost == (old(lost) || (!dirty && size > old(size)))
      ensures r.Ok? ==> size == newSize
      ensures r.Err? ==> HalfGrown(old(size), size, newSize, old(|mem.chain|), |pool|, maxBlocks, blockSize) && r.error == OutOfRange
    {
      var rest, k := pool, 0;
      ghost var base, was := mem.content, size;
      assert base + Zeros(0) == base;
      while size < newSize
        invariant was <= size <= newSize && size == Min(newSize, was + ZERO_CHUNK * k)
        invariant Valid() && Pool(rest)
        invariant size > was ==> size <= Start(maxBlocks, blockSize)
        invariant mem.content == base + Zeros(size - was)
        invariant lost == (old(lost) || (!dirty && size > was))
        invariant |pool| - |rest| <= k + |mem.chain| - old(|mem.chain|)
        decreases newSize - size
      {
        var chunk := Min(newSize - size, ZERO_CHUNK);
        ghost var before := size;
        ghost var left, blocks := |rest|, |mem.chain|;
        r, rest := GrowOnce(chunk, rest);
        if r.Err? {
          StoppedAfter(k, was, size, newSize, old(|mem.chain|), |pool|, blocks, left, maxBlocks, blockSize);
          return;
        }
        MoreZeros(base, before - was, chunk);
        k := k + 1;
      }
      return Ok(());
    }

    /** One chunk of zeros. The handle is not marked dirty. */
    method GrowOnce(chunk: nat, pool: seq<nat>) returns (r: Result<()>, rest: seq<nat>)
      requires Valid() && Pool(pool) && 0 < chunk && size + chunk < U32_RANGE
      modifies this`flash, this`mem, this`head, this`size, this`lost
      ensures Valid() && Pool(rest) && lost == (old(lost) || (!dirty && r.Ok?))
      ensures r.Err? ==> r.error == OutOfRange && mem == old(mem) && size == old(size)
      ensures r.Err? ==> size + chunk > Start(maxBlocks, blockSize) ||
                         |pool| < 1 + maxBlocks - |mem.chain|
      ensures r.Ok? ==> mem.content == old(mem.content) + Zeros(chunk) && size == old(size) + chunk
      ensures r.Ok? ==> size <= Start(maxBlocks, blockSize)
      ensures r.Ok? ==> |pool| - |rest| <= 1 + |mem.chain| - |old(mem.chain)|
    {
      var extended, g, left, grown := ExtendZeros(flash, unit, blockSize, head, size, chunk, pool, maxBlocks, mem, synced);
      flash, mem, rest := g, grown, left;
      if extended.Err? {
        return Err(extended.error), rest;
      }
      head, size := extended.value, size + chunk;
      lost := lost || !dirty;
      return Ok(()), rest;
    }

    /** `File::set_len`: truncate, extend with zeros, or leave alone. */
    method SetLen(newSize: nat, pool: seq<nat>) returns (r: Result<()>)
      requires Valid() && Pool(pool) && newSize < U32_RANGE
      modifies this
      ensures Valid() && synced == old(synced)
      ensures newSize == old(size) ==> r.Ok? && unchanged(this)
      ensures r.Ok? && newSize != old(size) ==> size == newSize && pos == Min(old(pos), newSize) && dirty && !lost
      ensures newSize < old(size) ==> if r.Ok? then mem.content == old(mem.content)[..newSize] else unchanged(this)
      ensures newSize > old(size) ==> old(size) <= size <= newSize && mem.content == old(mem.content) + Zeros(size - old(size))
      ensures size > old(size) ==> size <= Start(maxBlocks, blockSize)
      ensures newSize > old(size) && r.Err? ==> HalfGrown(old(size), size, newSize, old(|mem.chain|), |pool|, maxBlocks, blockSize) && pos == old(size)
      ensures r.Err? ==> r.error == OutOfRange && dirty == old(dirty) && lost == (old(lost) || (!dirty && size > old(size)))
      ensures entry == old(entry)
    {
      if newSize == size {
        return Ok(());
      }
      if newSize < size {
        r := Shrink(newSize, pool);
      } else {
        r := Grow(newSize, pool);
      }
    }

    /**
     `File::sync`: the metadata commit makes the staged file the durable one, if
     the handle is dirty. Otherwise nothing happens and success is reported, which
     leaves the staged file uncommitted exactly when the handle lost track of a
     half-finished extension; a caller can tell by the size.
     */
    method Sync() returns (r: Result<()>)
      requires Valid()
      modifies this`synced, this`entry, this`flash, this`dirty
      ensures Valid() && r == Ok(()) && !dirty && flash.disk == old(flash).disk
      ensures synced == (if old(dirty) then mem else old(synced))
      ensures synced == mem <==> !old(lost)
      ensures old(lost) <==> !old(dirty) && old(size) > |old(synced).content|
      ensures !old(dirty) ==> unchanged(this)
    {
      if dirty {
        entry := if head == NO_BLOCK then Empty else Chain(head, size);
        synced := mem;
        flash := flash.(trace := []);
        dirty := false;
        OwnTailFree(mem, blockSize);
      }
      return Ok(());
    }
  }

  /**
   Where a failed extension stopped: short of the new size by some whole chunks
   from the start, because the next chunk would exceed the longest chain or the
   allocator had fewer blocks than that chain and one a chunk could take.
   */
  predicate HalfGrown(was: nat, size: nat, newSize: nat, blocks: nat, available: nat, maxBlocks: nat, blockSize: nat)
  {
    was <= size < newSize && (size - was) % ZERO_CHUNK == 0 &&
    (Min(newSize, size + ZERO_CHUNK) > Start(maxBlocks, blockSize) ||
     available + blocks < (size - was) / ZERO_CHUNK + 1 + maxBlocks)
  }

  lemma StoppedAfter(k: nat, was: nat, size: nat, newSize: nat, blocks: nat, available: nat, now: nat, rest: nat,
                     maxBlocks: nat, blockSize: nat)
    requires was <= size < newSize && size == Min(newSize, was + ZERO_CHUNK * k) && available - rest <= k + now - blocks
    requires Min(newSize, size + ZERO_CHUNK) > Start(maxBlocks, blockSize) || rest < 1 + maxBlocks - now
    ensures HalfGrown(was, size, newSize, blocks, available, maxBlocks, blockSize)
  {
  }

  /** The one place an extension of an empty file to 40000 bytes can stop with 300 blocks at hand. */
  lemma StopsAt30720(size: nat, available: nat, maxBlocks: nat, blockSize: nat)
    requires maxBlocks == 256 && Start(maxBlocks, blockSize) == 30760 && available >= 300
    requires HalfGrown(0, size, 40000, 0, available, maxBlocks, blockSize)
    requires size > 0 ==> size <= Start(maxBlocks, blockSize)
    ensures size == 30720
  {
  }

  /**
   A `set_len` that fails part way, on blocks of 128 bytes: 256 of them hold 30760
   bytes, so of 40000 zeros thirty chunks land and the next one is refused. The
   handle is still clean, `sync` reports success, and the metadata still records
   an empty file.
   */
  method HalfGrownFileIsLost(flash: Flash, unit: nat, maxBlocks: nat, pool: seq<nat>)
    returns (grown: Result<()>, committed: Result<()>, size: nat, entry: Entry, ghost staged: seq<byte>, ghost durable: seq<byte>)
    requires Geometry(flash.disk, unit, 128) && flash.clean && flash.trace == [] && |flash.disk| <= NO_BLOCK && maxBlocks == 256
    requires Spare(flash, pool, CtzFile([], []), CtzFile([], [])) && |pool| >= 300
    ensures grown == Err(OutOfRange) && committed == Ok(()) && size == 30720
    ensures staged == Zeros(30720) && durable == [] && entry == Empty
  {
    EmptyFile(flash, 128, 0);
    var file := new File(flash, unit, 128, maxBlocks, false, false, true, Empty, CtzFile([], []));
    LongestFile(maxBlocks, 128);
    grown := file.SetLen(40000, pool);
    StopsAt30720(file.size, |pool|, maxBlocks, 128);
    committed := file.Sync();
    size, entry, staged, durable := file.size, file.entry, file.mem.content, file.synced.content;
  }

  /** The longest file in blocks of 128 bytes. */
  lemma LongestFile(n: nat, blockSize: nat)
    requires n == 256 && blockSize == 128
    ensures Start(n, blockSize) == 30760
  {
    StartClosedForm(n, blockSize);
    TimesIsMul(blockSize - 8, n);
    AllOnes(8);
  }

  lemma {:induction false} AllOnes(k: nat)
    ensures Popcount(Pow2(k) - 1) == k
  {
    if k > 0 {
      AllOnes(k - 1);
    }
  }

  /** `stream_ctz_extend` with a chunk of zeros, and the blocks the allocator has left after it. */
  method ExtendZeros(f: Flash, unit: nat, blockSize: nat, head: nat, size: nat, chunk: nat, pool: seq<nat>, maxBlocks: nat,
                     ghost mem: CtzFile, ghost file: CtzFile)
    returns (r: Result<nat>, g: Flash, rest: seq<nat>, ghost grown: CtzFile)
    requires Geometry(f.disk, unit, blockSize) && Pinned(f, blockSize, file) && size + chunk < U32_RANGE
    requires Open(f, blockSize, mem, head, size) && TailFree(mem, file, blockSize)
    requires Spare(f, pool, mem, file) && maxBlocks < U32_RANGE
    ensures r.Ok? ==> grown.content == mem.content + Zeros(chunk) && Open(g, blockSize, grown, r.value, size + chunk)
    ensures r.Ok? ==> size + chunk <= Start(maxBlocks, blockSize) && |pool| - |rest| <= 1 + |grown.chain| - |mem.chain|
    ensures r.Err? ==> r.error == OutOfRange && grown == mem && Open(g, blockSize, mem, head, size)
    ensures r.Err? ==> size + chunk > Start(maxBlocks, blockSize) ||
                       |pool| < 1 + maxBlocks - |mem.chain|
    ensures Spare(g, rest, grown, file) && TailFree(grown, file, blockSize) && Pinned(g, blockSize, file)
    ensures Geometry(g.disk, unit, blockSize) && |g.disk| == |f.disk| && g.clean == f.clean
  {
    var used, extended;
    extended, g, used, grown := StreamExtend(f, unit, blockSize, head, size, Zeros(chunk), pool, maxBlocks, mem, file);
    rest := pool[used..];
    RestOfPool(f, g, pool, used, mem, grown, file);
    if extended.Err? {
      DemandWithin(f.disk, blockSize, mem, chunk, maxBlocks);
      return Err(extended.error), g, rest, grown;
    }
    BlockCountUnique(size + chunk, blockSize, |grown.chain|);
    r := Ok(extended.value.0);
  }

  /** An append under the limit asks for at most one block beyond the longest chain. */
  lemma DemandWithin(disk: Disk, blockSize: nat, mem: CtzFile, more: nat, maxBlocks: nat)
    requires blockSize >= BLOCK_SIZE_MIN && |mem.content| + more < U32_RANGE && maxBlocks < U32_RANGE
    ensures |mem.content| + more <= Start(maxBlocks, blockSize)
            ==> Demand(disk, blockSize, mem, more) <= 1 + maxBlocks - |mem.chain|
  {
    var size := |mem.content| + more;
    BlockCountExact(size, blockSize);
    FitsBlocks(BlockCount(size, blockSize), size, maxBlocks, blockSize);
  }

  lemma RestOfPool(f: Flash, g: Flash, pool: seq<nat>, used: nat, mem: CtzFile, grown: CtzFile, file: CtzFile)
    requires Spare(f, pool, mem, file) && used <= |pool| && Draws(grown.chain, mem.chain, pool[..used])
    requires |g.disk| == |f.disk|
    ensures Spare(g, pool[used..], grown, file)
  {
    var rest := pool[used..];
    forall i | 0 <= i < |rest|
      ensures rest[i] == pool[used + i] && rest[i] !in grown.chain
    {
      assert rest[i] !in pool[..used];
    }
  }

  lemma MoreZeros(base: seq<byte>, n: nat, m: nat)
    ensures base + Zeros(n) + Zeros(m) == base + Zeros(n + m)
  {
    assert Zeros(n) + Zeros(m) == Zeros(n + m);
  }

  /**
   Power loss: whichever device state the power failed in, reopening the file
   from its metadata finds the last synced content, ready for further writes.
   */
  lemma PowerLossRecovers(f: Flash, unit: nat, blockSize: nat, synced: CtzFile, t: nat, entry: Entry)
    requires Pinned(f, blockSize, synced) && Distinct(synced.chain) && t < |f.trace| && Records(entry, synced)
    ensures var g := Flash(f.trace[t], [], true);
            && Pinned(g, blockSize, synced) && TailFree(synced, synced, blockSize)
            && (entry.Chain? ==> Open(g, blockSize, synced, entry.head, entry.size))
            && (entry.Empty? ==> Open(g, blockSize, synced, NO_BLOCK, 0))
  {
    assert Readable(f.trace[t], blockSize, synced);
    OwnTailFree(synced, blockSize);
  }

  lemma EmptyFile(f: Flash, blockSize: nat, head: nat)
    requires blockSize >= BLOCK_SIZE_MIN
    ensures Open(f, blockSize, CtzFile([], []), head, 0)
  {
  }

  /** A file's own tail block has no cell in use past the end of the file. */
  lemma OwnTailFree(file: CtzFile, blockSize: nat)
    requires Distinct(file.chain) && Reaches(|file.chain|, |file.content|, blockSize)
    ensures TailFree(file, file, blockSize)
  {
    if file.chain != [] {
      TailEndInBlock(|file.chain|, |file.content|, blockSize);
    }
  }
}
