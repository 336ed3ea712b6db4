/**
 Walking a CTZ skip list on disk (`src/ctz.rs`): the backward collector, the
 logarithmic seek and the range reader, against a chain given as the sequence
 of its block addresses and a file given as its bytes.
 */
module CtzChain {
  import opened Bits
  import opened CtzLayout
  import opened Storage
  import opened Words

  /** The `k`-th skip pointer of a block image. */
  function Pointer(image: seq<byte>, k: nat): nat
    requires 4 * k + 4 <= |image|
  {
    FromLeNat(image[4 * k..4 * k + 4])
  }

  /** `k` is a skip pointer of block `i` and names block `j`. */
  ghost predicate Skips(i: nat, k: nat, j: int) {
    i > 0 && k <= TrailingZeros(i) && j == i - Pow2(k)
  }

  /** The header of block `i` addresses blocks `i - 2^k` of the chain. */
  ghost predicate LinksAt(image: seq<byte>, chain: seq<nat>, i: nat)
    requires i < |chain|
  {
    HeaderBytes(i) <= |image| &&
    forall k: nat, j: int :: Skips(i, k, j) ==> 0 <= j && Pointer(image, k) == chain[j]
  }

  /** The device is a whole number of read windows per block; addresses and the block size are `u32`s. */
  predicate Geometry(disk: Disk, unit: nat, blockSize: nat) {
    blockSize >= BLOCK_SIZE_MIN && Shape(disk, unit, blockSize)
  }

  predicate Shape(disk: Disk, unit: nat, blockSize: nat) {
    0 < unit <= blockSize < U32_RANGE && blockSize % unit == 0 && |disk| <= U32_RANGE &&
    forall b :: 0 <= b < |disk| ==> |disk[b]| == blockSize
  }

  /** `chain` lists, in file order, the blocks of a well formed skip list. */
  ghost predicate Linked(disk: Disk, chain: seq<nat>) {
    |chain| < U32_RANGE &&
    (forall i :: 0 <= i < |chain| ==> chain[i] < |disk|) &&
    (forall i :: 0 <= i < |chain| ==> LinkedAt(disk, chain, i))
  }

  ghost predicate LinkedAt(disk: Disk, chain: seq<nat>, i: nat)
    requires i < |chain| && chain[i] < |disk|
  {
    LinksAt(disk[chain[i]], chain, i)
  }

  // ---- Seek ------------------------------------------------------------------

  /**
   An upper bound on the hops from block `idx` down to `target`: climb through
   strictly growing skips until one is as long as the gap allows, then halve
   the gap with each hop.
   */
  function HopBound(idx: nat, target: nat): nat
    requires target <= idx
  {
    if idx == target then 0 else
    var l := Log2(idx - target);
    if l <= TrailingZeros(idx) then l + 1 else 2 * l + 1 - TrailingZeros(idx)
  }

  lemma HopBoundLogarithmic(idx: nat, target: nat)
    requires target < idx
    ensures HopBound(idx, target) <= 2 * Log2(idx - target) + 1
  {
  }

  /** Each hop stays at or above the target and spends one unit of the bound. */
  lemma HopProgress(idx: nat, target: nat, k: nat)
    requires target < idx && k == Min(Log2(idx - target), TrailingZeros(idx))
    ensures Pow2(k) <= idx - target
    ensures HopBound(idx - Pow2(k), target) + 1 <= HopBound(idx, target)
  {
    var gap := idx - target;
    var l := Log2(gap);
    Log2Bounds(gap);
    Pow2Monotone(k, l);
    var next := idx - Pow2(k);
    if next > target {
      TrailingZerosAfterSkip(idx, k);
      Log2Bounds(next - target);
      if k == l {
        Log2Below(next - target, l);
      } else {
        Log2Monotone(next - target, gap);
      }
    }
  }

  lemma {:induction false} Log2Below(n: nat, l: nat)
    requires 0 < n < Pow2(l)
    ensures Log2(n) < l
    decreases l
  {
    if n != 1 {
      Log2Below(n / 2, l - 1);
    }
  }

  lemma {:induction false} Log2Monotone(m: nat, n: nat)
    requires 0 < m <= n
    ensures Log2(m) <= Log2(n)
    decreases n
  {
    if m != 1 {
      Log2Monotone(m / 2, n / 2);
    }
  }

  /**
   `seek_block_buffered`: the address of block `target` of the chain whose block
   `from` is at `head`. On a well formed chain it lands exactly on the target,
   within `2 * log2(from - target) + 1` pointer reads; on any other image it
   still terminates with an in-device address or an error.
   */
  method SeekBlock(disk: Disk, unit: nat, blockSize: nat, head: nat, from: nat, target: nat, staging: nat,
                   ghost chain: seq<nat>)
    returns (r: Result<nat>, ghost hops: nat)
    requires Geometry(disk, unit, blockSize) && from < U32_RANGE && unit <= staging
    ensures target > from ==> r == Err(OutOfRange)
    ensures r.Ok? ==> r.value < |disk|
    ensures target <= from < |chain| && Linked(disk, chain) && chain[from] == head ==> r == Ok(chain[target])
    ensures target < from ==> hops <= 2 * Log2(from - target) + 1
  {
    hops := 0;
    if target > from {
      return Err(OutOfRange), hops;
    }
    if target < from {
      HopBoundLogarithmic(from, target);
    }
    if head >= |disk| {
      return Err(Corrupt), hops;
    }
    var cur: nat, idx: nat := head, from;
    ghost var wf := from < |chain| && Linked(disk, chain) && chain[from] == head;
    while idx > target
      invariant target <= idx <= from && cur < |disk|
      invariant hops + HopBound(idx, target) <= HopBound(from, target)
      invariant wf ==> chain[idx] == cur
    {
      var k := Min(Log2(idx - target), TrailingZeros(idx));
      HopProgress(idx, target, k);
      HeaderFits(idx);
      var ptr := ReadPointer(disk, unit, blockSize, cur, k, staging);
      hops := hops + 1;
      if wf {
        FollowSkip(disk, chain, idx, k);
      }
      if ptr >= |disk| {
        return Err(Corrupt), hops;
      }
      cur := ptr;
      idx := idx - Pow2(k);
    }
    return Ok(cur), hops;
  }

  /** One skip pointer, fetched through the aligned reader. */
  method ReadPointer(disk: Disk, unit: nat, blockSize: nat, block: nat, k: nat, staging: nat) returns (ptr: nat)
    requires Geometry(disk, unit, blockSize) && unit <= staging && block < |disk| && 4 * k + 4 <= blockSize
    ensures ptr == Pointer(disk[block], k)
  {
    var sp, _ := ReadRange(disk, unit, block, 4 * k, 4, staging);
    ptr := FromLeNat(sp.value);
  }

  lemma FollowSkip(disk: Disk, chain: seq<nat>, i: nat, k: nat)
    requires Linked(disk, chain) && 0 < i < |chain| && k <= TrailingZeros(i)
    ensures Pow2(k) <= i && 4 * k + 4 <= |disk[chain[i]]|
    ensures Pointer(disk[chain[i]], k) == chain[i - Pow2(k)] < |disk|
  {
    assert LinkedAt(disk, chain, i);
    assert Skips(i, k, i - Pow2(k));
    assert LinkedAt(disk, chain, i - Pow2(k));
  }

  // ---- Backward collection ---------------------------------------------------

  /**
   `collect_chain_blocks_buffered`: walk backward from `head`, two blocks per
   read at even indices, and return the chain's addresses in file order.
   */
  method CollectChain(disk: Disk, unit: nat, blockSize: nat, head: nat, total: nat, capacity: nat, staging: nat,
                      ghost chain: seq<nat>)
    returns (r: Result<seq<nat>>)
    requires Geometry(disk, unit, blockSize) && total < U32_RANGE && unit <= staging
    ensures total > capacity ==> r == Err(OutOfRange)
    ensures r.Ok? ==> |r.value| == total && forall i :: 0 <= i < total ==> r.value[i] < |disk|
    ensures 0 < total <= capacity && |chain| == total && Linked(disk, chain) && chain[total - 1] == head
            ==> r == Ok(chain)
  {
    if total == 0 {
      return Ok([]);
    }
    if capacity < total {
      return Err(OutOfRange);
    }
    var out: seq<nat> := seq(total, _ => 0);
    var cur: nat, index: nat := head, total - 1;
    ghost var wf := |chain| == total && Linked(disk, chain) && chain[total - 1] == head;
    while true
      invariant index < total && |out| == total
      invariant forall i :: index < i < total ==> out[i] < |disk|
      invariant wf ==> chain[index] == cur && forall i :: index < i < total ==> out[i] == chain[i]
      decreases index
    {
      if cur >= |disk| {
        return Err(Corrupt);
      }
      out := out[index := cur];
      if index == 0 {
        break;
      }
      var ptr0, ptr1 := ReadBackPointers(disk, unit, blockSize, cur, index, staging, wf, chain);
      if index % 2 == 0 {
        if ptr0 >= |disk| {
          return Err(Corrupt);
        }
        out := out[index - 1 := ptr0];
        cur, index := ptr1, index - 2;
      } else {
        cur, index := ptr0, index - 1;
      }
    }
    assert wf ==> out == chain;
    return Ok(out);
  }

  /** The `2 - (index & 1)` pointers the backward walk consumes at block `index`. */
  method ReadBackPointers(disk: Disk, unit: nat, blockSize: nat, cur: nat, index: nat, staging: nat,
                          ghost wf: bool, ghost chain: seq<nat>)
    returns (ptr0: nat, ptr1: nat)
    requires Geometry(disk, unit, blockSize) && unit <= staging && cur < |disk| && 0 < index < U32_RANGE
    requires wf ==> Linked(disk, chain) && index < |chain| && chain[index] == cur
    ensures wf ==> ptr0 == chain[index - 1]
    ensures wf && index % 2 == 0 ==> ptr1 == chain[index - 2]
  {
    ptr0 := ReadPointer(disk, unit, blockSize, cur, 0, staging);
    ptr1 := 0;
    if wf {
      FollowSkip(disk, chain, index, 0);
    }
    if index % 2 == 0 {
      ptr1 := ReadPointer(disk, unit, blockSize, cur, 1, staging);
      if wf {
        FollowSkip(disk, chain, index, 1);
      }
    }
  }

  // ---- File content ------------------------------------------------------------

  /** File offset stored at position `p` of block `i`. */
  function FileOffset(i: nat, p: nat, blockSize: nat): int {
    Start(i, blockSize) + (p - HeaderBytes(i))
  }

  /** The image of block `i` stores its share of `content` after the header. */
  ghost predicate Carries(image: seq<byte>, content: seq<byte>, i: nat, blockSize: nat) {
    |image| == blockSize &&
    forall p :: HeaderBytes(i) <= p < |image| && 0 <= FileOffset(i, p, blockSize) < |content|
      ==> image[p] == content[FileOffset(i, p, blockSize)]
  }

  /** `chain` is a well formed skip list holding exactly `content`. */
  ghost predicate Holds(disk: Disk, blockSize: nat, chain: seq<nat>, content: seq<byte>) {
    blockSize >= BLOCK_SIZE_MIN && |content| < U32_RANGE &&
    Linked(disk, chain) && Reaches(|chain|, |content|, blockSize) &&
    forall i :: 0 <= i < |chain| ==> CarriesAt(disk, blockSize, chain, content, i)
  }

  ghost predicate CarriesAt(disk: Disk, blockSize: nat, chain: seq<nat>, content: seq<byte>, i: nat)
    requires i < |chain| && chain[i] < |disk|
  {
    Carries(disk[chain[i]], content, i, blockSize)
  }

  /** File offset reached by the end of block `i - 1`, relative to a read starting at `start`. */
  function Reached(i: nat, blockSize: nat, start: nat, target: nat): nat
    requires blockSize >= BLOCK_SIZE_MIN
  {
    var s := Start(i, blockSize);
    if s <= start then 0 else Min(s - start, target)
  }

  /** A read of `start..last` enters the last of `n` blocks, and no `u32` can spell where that block ends. */
  predicate Laps(n: nat, blockSize: nat, start: nat, last: nat) {
    n > 0 && start < last && Start(n - 1, blockSize) < last && Start(n, blockSize) >= U32_RANGE
  }

  /** ... and the wrapped end makes the block look as if it lay before the read. */
  predicate Loses(n: nat, blockSize: nat, start: nat, last: nat) {
    Laps(n, blockSize, start, last) && Start(n, blockSize) - U32_RANGE <= start
  }

  /** Where the bytes of the read end. */
  function ReadEnd(n: nat, blockSize: nat, start: nat, last: nat): int {
    if !Loses(n, blockSize, start, last) then last else if Start(n - 1, blockSize) <= start then start else Start(n - 1, blockSize)
  }

  /** Where the read would end: `out.len() as u32`, and the file's size, bound it. */
  function ReadTo(size: nat, start: nat, want: nat): nat {
    Min(size, start + want % U32_RANGE)
  }

  /**
   `read_ctz_at`: up to `want` bytes from file offset `start`. `checked` says
   whether the build checks sums for overflow. On a chain that holds `content` the
   result is that slice of `content`, but for a read into a last block whose end is
   past the `u32` range: it panics, or loses that block if the end wraps to `start`
   or before it.
   */
  method ReadAt(disk: Disk, unit: nat, blockSize: nat, head: nat, size: nat, start: nat, want: nat,
                maxBlocks: nat, scratch: nat, checked: bool, ghost chain: seq<nat>, ghost content: seq<byte>)
    returns (r: Result<seq<byte>>)
    requires Shape(disk, unit, blockSize) && size < U32_RANGE
    ensures scratch < blockSize || blockSize < BLOCK_SIZE_MIN ==> r == Err(GeometryMismatch)
    ensures r != Err(GeometryMismatch) && (want == 0 || start >= size) ==> r == Ok([])
    ensures scratch >= blockSize && |content| == size && Holds(disk, blockSize, chain, content) &&
            start < size && chain[|chain| - 1] == head && want > 0
            ==> var last := ReadTo(size, start, want);
                r == if |chain| > maxBlocks then Err(OutOfRange)
                     else if checked && Laps(|chain|, blockSize, start, last) then Err(Panic)
                     else Ok(content[start..ReadEnd(|chain|, blockSize, start, last)])
  {
    if scratch < blockSize || blockSize < BLOCK_SIZE_MIN {
      return Err(GeometryMismatch);
    }
    if size == 0 || want == 0 || start >= size {
      return Ok([]);
    }
    var total := CountBlocks(size, blockSize, |chain|);
    if total > maxBlocks {
      return Err(OutOfRange);
    }
    var collected := CollectChain(disk, unit, blockSize, head, total, maxBlocks, blockSize, chain);
    if collected.Err? {
      return Err(collected.error);
    }
    ghost var wf := |content| == size && Holds(disk, blockSize, chain, content) && chain == collected.value;
    r := Assemble(disk, unit, blockSize, collected.value, size, start, ReadTo(size, start, want) - start, checked, wf, content);
  }

  /** The forward pass of `read_ctz_at` over the collected block addresses, with its `u32` running offset. */
  method Assemble(disk: Disk, unit: nat, blockSize: nat, blocks: seq<nat>, size: nat, start: nat, target: nat,
                  checked: bool, ghost wf: bool, ghost content: seq<byte>)
    returns (r: Result<seq<byte>>)
    requires Geometry(disk, unit, blockSize) && |blocks| < U32_RANGE
    requires forall i :: 0 <= i < |blocks| ==> blocks[i] < |disk|
    requires Reaches(|blocks|, size, blockSize) && start + target <= size < U32_RANGE
    requires wf ==> Holds(disk, blockSize, blocks, content) && |content| == size
    ensures r.Err? ==> r.error == Panic
    ensures r.Err? <==> checked && Laps(|blocks|, blockSize, start, start + target)
    ensures r.Ok? ==> |r.value| == ReadEnd(|blocks|, blockSize, start, start + target) - start
    ensures r.Ok? && wf ==> SliceFrom(content, start, r.value)
  {
    var out := [];
    var i: nat, logical: nat := 0, 0;
    while i < |blocks| && |out| < target
      invariant Assembled(i, |blocks|, blockSize, start, target, checked, logical, |out|)
      invariant wf ==> SliceFrom(content, start, out)
    {
      BlockEnds(i, |blocks|, size, blockSize);
      var end, part := ReadNext(disk, unit, blockSize, blocks[i], i, logical, start, |out|, target, checked, wf, blocks, content);
      if end == None {
        return Err(Panic);
      }
      AssembledNext(i, |blocks|, blockSize, start, target, checked, logical, |out|, end.value, |out| + |part|, size);
      if wf {
        SliceGrows(content, start, out, part);
      }
      out, logical, i := out + part, end.value, i + 1;
    }
    AssembledAll(i, |blocks|, blockSize, start, target, checked, logical, |out|, size);
    return Ok(out);
  }

  /** One pass of the loop: the running offset behind block `i`, none if the sum panics, and what the block contributes. */
  method ReadNext(disk: Disk, unit: nat, blockSize: nat, block: nat, i: nat, logical: nat, start: nat, have: nat, target: nat,
                  checked: bool, ghost wf: bool, ghost chain: seq<nat>, ghost content: seq<byte>)
    returns (end: Option<nat>, part: seq<byte>)
    requires Geometry(disk, unit, blockSize) && block < |disk| && i < U32_RANGE && logical == Start(i, blockSize) < U32_RANGE
    requires have < target && have == Reached(i, blockSize, start, target)
    requires wf ==> Holds(disk, blockSize, chain, content) && i < |chain| && chain[i] == block
    requires wf ==> start + target <= |content|
    ensures end == None <==> checked && Start(i + 1, blockSize) >= U32_RANGE
    ensures end.Some? ==> end.value == Start(i + 1, blockSize) - if Start(i + 1, blockSize) >= U32_RANGE then U32_RANGE else 0
    ensures end.Some? ==> have + |part| == if end.value > start then Reached(i + 1, blockSize, start, target) else have
    ensures end.Some? && wf ==> SliceFrom(content, start + have, part)
  {
    HeaderFits(i);
    var sum := logical + (blockSize - HeaderBytes(i));
    if sum >= U32_RANGE && checked {
      return None, [];
    }
    end := Some(if sum >= U32_RANGE then sum - U32_RANGE else sum);
    part := [];
    if end.value > start {
      part := ReadPart(disk, unit, blockSize, block, i, start, have, target, wf, chain, content);
    }
  }

  /** The buffer's length counts modulo 2^32, as its cast to a word does. */
  lemma ReadToExact(size: nat, start: nat, want: nat)
    ensures want < U32_RANGE ==> ReadTo(size, start, want) == Min(size, start + want)
    ensures ReadTo(size, start, want + U32_RANGE) == ReadTo(size, start, want)
  {
  }

  /** `part` is what `content` holds from `start` on. */
  predicate SliceFrom(content: seq<byte>, start: nat, part: seq<byte>) {
    start + |part| <= |content| && part == content[start..start + |part|]
  }

  lemma SliceGrows(content: seq<byte>, start: nat, out: seq<byte>, part: seq<byte>)
    requires SliceFrom(content, start, out) && SliceFrom(content, start + |out|, part)
    ensures SliceFrom(content, start, out + part)
  {
  }

  /** After `i` of `n` blocks, `have` bytes are assembled, and the running offset is `logical`. */
  predicate Assembled(i: nat, n: nat, blockSize: nat, start: nat, target: nat, checked: bool, logical: nat, have: nat)
    requires blockSize >= BLOCK_SIZE_MIN
  {
    && i <= n && have <= target
    && (i < n ==> logical == Start(i, blockSize) && have == Reached(i, blockSize, start, target))
    && (i == n ==> have == ReadEnd(n, blockSize, start, start + target) - start && !(checked && Laps(n, blockSize, start, start + target)))
  }

  lemma AssembledNext(i: nat, n: nat, blockSize: nat, start: nat, target: nat, checked: bool, logical: nat, have: nat,
                      end: nat, more: nat, size: nat)
    requires blockSize >= BLOCK_SIZE_MIN && Reaches(n, size, blockSize) && start + target <= size < U32_RANGE && n < U32_RANGE
    requires Assembled(i, n, blockSize, start, target, checked, logical, have) && i < n && have < target
    requires end == Start(i + 1, blockSize) || (end == Start(i + 1, blockSize) - U32_RANGE && !checked)
    requires end == Start(i + 1, blockSize) ==> end < U32_RANGE
    requires more == if end > start then Reached(i + 1, blockSize, start, target) else have
    ensures Assembled(i + 1, n, blockSize, start, target, checked, end, more)
  {
    BlockEnds(i, n, size, blockSize);
  }

  lemma AssembledAll(i: nat, n: nat, blockSize: nat, start: nat, target: nat, checked: bool, logical: nat, have: nat, size: nat)
    requires blockSize >= BLOCK_SIZE_MIN && Reaches(n, size, blockSize) && n < U32_RANGE
    requires Assembled(i, n, blockSize, start, target, checked, logical, have) && (i == n || have == target)
    ensures have == ReadEnd(n, blockSize, start, start + target) - start && !(checked && Laps(n, blockSize, start, start + target))
  {
    if i < n {
      StartAtLeast(i, blockSize);
      StartMonotone(i, n - 1, blockSize);
    }
  }

  /** All blocks but the last end within the file. */
  lemma BlockEnds(i: nat, n: nat, size: nat, blockSize: nat)
    requires Reaches(n, size, blockSize) && blockSize >= BLOCK_SIZE_MIN && i < n < U32_RANGE
    ensures HeaderBytes(i) <= BLOCK_SIZE_MIN && Start(i, blockSize) < size && Start(i, blockSize) >= 0
    ensures i + 1 < n ==> Start(i + 1, blockSize) < size
  {
    HeaderFits(i);
    StartAtLeast(i, blockSize);
    StartMonotone(i, n - 1, blockSize);
    if i + 1 < n {
      StartMonotone(i + 1, n - 1, blockSize);
    }
  }

  /** The read is whole if and only if it is not one of those that lose the last block. */
  lemma WholeUnlessLost(n: nat, blockSize: nat, start: nat, size: nat, want: nat, content: seq<byte>)
    requires |content| == size < U32_RANGE && blockSize >= BLOCK_SIZE_MIN && Reaches(n, size, blockSize) && start < size
    ensures var last := ReadTo(size, start, want);
            && start <= ReadEnd(n, blockSize, start, last) <= last
            && (content[start..ReadEnd(n, blockSize, start, last)] == content[start..last] <==> !Loses(n, blockSize, start, last))
  {
    if n > 0 {
      StartAtLeast(n - 1, blockSize);
    }
  }

  /** Of chains the kernel reads, only those of blocks over 16 MiB are affected. */
  lemma SmallBlocksNeverLap(n: nat, blockSize: nat, start: nat, last: nat)
    requires BLOCK_SIZE_MIN <= blockSize <= 0xFF_FFFF && n <= 256
    ensures !Laps(n, blockSize, start, last)
  {
    StartBelow(n, blockSize);
    TimesMonotone(blockSize, n, 256);
    TimesIsMul(blockSize, 256);
  }

  lemma {:induction false} StartBelow(n: nat, blockSize: nat)
    ensures Start(n, blockSize) <= Times(blockSize, n)
  {
    if n > 0 {
      StartBelow(n - 1, blockSize);
    }
  }

  /**
   A file of 2^32 - 1 bytes in 129 blocks of 32 MiB. Its last 987 bytes lie in a block
   that ends past the `u32` range: reading them panics, or returns nothing.
   */
  lemma LastBlockLostExample(blockSize: nat, size: nat, start: nat, last: nat)
    requires blockSize == 0x200_0000 && size == U32_RANGE - 1 && U32_RANGE - 988 <= start < last <= size
    ensures BlockCount(size, blockSize) == 129
    ensures Laps(129, blockSize, start, last) && Loses(129, blockSize, start, last) && ReadEnd(129, blockSize, start, last) == start
  {
    LastBlockStarts(128, blockSize);
    LastBlockStarts(129, blockSize);
    BlockCountUnique(size, blockSize, 129);
  }

  lemma StartProduct(n: nat, blockSize: nat, product: nat)
    requires n > 0 && blockSize >= 8 && product == (blockSize - 8) * n
    ensures Start(n, blockSize) == product + 8 + 4 * Popcount(n - 1)
  {
    StartClosedForm(n, blockSize);
    TimesIsMul(blockSize - 8, n);
  }

  lemma LastBlockStarts(n: nat, blockSize: nat)
    requires blockSize == 0x200_0000 && (n == 128 || n == 129)
    ensures n == 128 ==> Start(n, blockSize) == U32_RANGE - 988
    ensures n == 129 ==> Start(n, blockSize) > U32_RANGE && Start(n, blockSize) - U32_RANGE < U32_RANGE - 988
  {
    StartProduct(n, blockSize, if n == 128 then 128 * 0x1FF_FFF8 else 129 * 0x1FF_FFF8);
    ExamplePopcount(n - 1);
  }

  lemma ExamplePopcount(n: nat)
    requires n == 127 || n == 128
    ensures n == 127 ==> Popcount(n) == 7
    ensures n == 128 ==> Popcount(n) <= n
  {
    assert n == 127 ==> Popcount(15) == 4;
  }

  method CountBlocks(size: nat, blockSize: nat, ghost n: nat) returns (total: nat)
    requires size < U32_RANGE && blockSize >= BLOCK_SIZE_MIN
    ensures total <= size && Reaches(total, size, blockSize)
    ensures Reaches(n, size, blockSize) ==> total == n
  {
    total := BlockCount(size, blockSize);
    BlockCountExact(size, blockSize);
    ReachesBound(total, size, blockSize);
    if Reaches(n, size, blockSize) {
      BlockCountUnique(size, blockSize, n);
    }
  }

  /** The bytes block `i` contributes to a read from `start` of which `have` of `target` bytes are assembled. */
  method ReadPart(disk: Disk, unit: nat, blockSize: nat, block: nat, i: nat, start: nat, have: nat, target: nat,
                  ghost wf: bool, ghost chain: seq<nat>, ghost content: seq<byte>)
    returns (part: seq<byte>)
    requires Geometry(disk, unit, blockSize) && block < |disk| && i < U32_RANGE
    requires have < target && have == Reached(i, blockSize, start, target) && start < Start(i + 1, blockSize)
    requires wf ==> Holds(disk, blockSize, chain, content) && i < |chain| && chain[i] == block
    requires wf ==> start + target <= |content|
    ensures have + |part| == Reached(i + 1, blockSize, start, target)
    ensures wf ==> part == content[start + have..start + have + |part|]
  {
    HeaderFits(i);
    StartAtLeast(i, blockSize);
    var header := HeaderBytes(i);
    var capacity := blockSize - header;
    var first := Start(i, blockSize);
    var skip := if start > first then start - first else 0;
    var take := Min(capacity - skip, target - have);
    assert first + skip == start + have;
    part := FetchPart(disk, unit, blockSize, block, i, header, skip, take, first, wf, chain, content);
  }

  /** `take` bytes of block `i` from `skip` bytes past its header. */
  method FetchPart(disk: Disk, unit: nat, blockSize: nat, block: nat, i: nat, header: nat, skip: nat, take: nat,
                   ghost first: nat, ghost wf: bool, ghost chain: seq<nat>, ghost content: seq<byte>)
    returns (part: seq<byte>)
    requires Geometry(disk, unit, blockSize) && block < |disk| && header == HeaderBytes(i) && first == Start(i, blockSize)
    requires header + skip + take <= blockSize
    requires wf ==> Holds(disk, blockSize, chain, content) && i < |chain| && chain[i] == block && first + skip + take <= |content|
    ensures |part| == take && (wf ==> part == content[first + skip..first + skip + take])
  {
    var bytes, _ := ReadRange(disk, unit, block, header + skip, take, blockSize);
    part := bytes.value;
    if wf {
      assert CarriesAt(disk, blockSize, chain, content, i);
      PieceSlice(disk[block], content, i, blockSize, first, skip, take);
    }
  }

  /** Reading past the header of block `i` reads the file at the block's start offset. */
  lemma PieceSlice(image: seq<byte>, content: seq<byte>, i: nat, blockSize: nat, s: nat, skip: nat, take: nat)
    requires Carries(image, content, i, blockSize) && s == Start(i, blockSize)
    requires s + skip + take <= |content| && HeaderBytes(i) + skip + take <= blockSize
    ensures image[HeaderBytes(i) + skip..HeaderBytes(i) + skip + take] == content[s + skip..s + skip + take]
  {
    var h := HeaderBytes(i);
    var stored, wanted := image[h + skip..h + skip + take], content[s + skip..s + skip + take];
    forall x | 0 <= x < take
      ensures stored[x] == wanted[x]
    {
      assert FileOffset(i, h + skip + x, blockSize) == s + skip + x;
    }
  }
}
