/**
 Arithmetic of the CTZ skip list (`src/ctz.rs`).

 Block `i` of a file starts with a header of `SkipPointers(i)` four byte
 pointers and holds content after it. `Start(i)` is the file offset of the
 first content byte of block `i`, defined by summing block contents one at a
 time; the kernel computes the same thing in closed form with two divisions
 and a population count, and the theorems here prove that form exact.
 */
module CtzLayout {
  import opened Bits
  import opened Words

  /** `geometry::BLOCK_SIZE_MIN`: a 32 pointer header fits a block. */
  const BLOCK_SIZE_MIN: nat := 128

  function SkipPointers(i: nat): nat {
    if i == 0 then 0 else TrailingZeros(i) + 1
  }

  function HeaderBytes(i: nat): nat {
    4 * SkipPointers(i)
  }

  function ContentBytes(i: nat, blockSize: nat): int {
    blockSize - HeaderBytes(i)
  }

  /** File offset of the first content byte of block `i`. */
  function Start(i: nat, blockSize: nat): int {
    if i == 0 then 0 else Start(i - 1, blockSize) + ContentBytes(i - 1, blockSize)
  }

  lemma {:induction false} PowerZeros(k: nat)
    ensures TrailingZeros(Pow2(k)) == k
  {
    if k > 0 {
      PowerZeros(k - 1);
    }
  }

  /** The least block size is what the longest header of a chain takes: block 2^31 holds 32 pointers. */
  lemma LongestHeader()
    ensures HeaderBytes(Pow2(31)) == 128 == BLOCK_SIZE_MIN
  {
    PowerZeros(31);
  }

  /** The header of any block a `u32` index can name fits the smallest block. */
  lemma HeaderFits(i: nat)
    requires i < U32_RANGE
    ensures HeaderBytes(i) <= BLOCK_SIZE_MIN
  {
    if i > 0 {
      TrailingZerosFit(i, TrailingZeros(i));
      if TrailingZeros(i) >= 32 {
        Pow2Monotone(32, TrailingZeros(i));
        Pow2Of32();
      }
    }
  }

  lemma Pow2Of32()
    ensures Pow2(26) == 0x400_0000 && Pow2(32) == U32_RANGE
  {
    assert Pow2(8) == 256;
    assert Pow2(16) == 0x1_0000 by {
      assert Pow2(12) == 16 * Pow2(8);
    }
    assert Pow2(26) == 0x400_0000 by {
      assert Pow2(21) == 32 * Pow2(16);
    }
    assert Pow2(32) == U32_RANGE by {
      assert Pow2(29) == 8 * Pow2(26);
    }
  }

  /** `b * i` by repeated addition, so that proofs about it stay linear. */
  function Times(b: nat, i: nat): nat {
    if i == 0 then 0 else Times(b, i - 1) + b
  }

  lemma {:induction false} TimesIsMul(b: nat, i: nat)
    ensures Times(b, i) == b * i
  {
    if i != 0 {
      TimesIsMul(b, i - 1);
    }
  }

  lemma {:induction false} TimesAtLeast(b: nat, c: nat, i: nat)
    requires c <= b
    ensures c * i <= Times(b, i)
  {
    if i != 0 {
      TimesAtLeast(b, c, i - 1);
    }
  }

  lemma {:induction false} TimesMonotone(b: nat, i: nat, j: nat)
    requires i <= j
    ensures Times(b, i) <= Times(b, j)
    decreases j
  {
    if i < j {
      TimesMonotone(b, i, j - 1);
    }
  }

  /**
   The sum of the skip pointer counts of blocks `1..=n` is `2n - popcount(n)`,
   which turns the running sum `Start` into a closed form.
   */
  lemma {:induction false} StartClosedForm(i: nat, blockSize: nat)
    requires i > 0 && blockSize >= 8
    ensures Start(i, blockSize) == Times(blockSize - 8, i) + 8 + 4 * Popcount(i - 1)
  {
    if i > 1 {
      StartClosedForm(i - 1, blockSize);
      PopcountStep(i - 1);
    }
  }

  lemma {:induction false} StartMonotone(i: nat, j: nat, blockSize: nat)
    requires blockSize >= BLOCK_SIZE_MIN && i <= j <= U32_RANGE
    ensures Start(i, blockSize) <= Start(j, blockSize)
    decreases j
  {
    if i < j {
      HeaderFits(j - 1);
      StartMonotone(i, j - 1, blockSize);
    }
  }

  lemma Quotient(a: nat, b: nat)
    requires b > 0
    ensures Times(b, a / b) <= a < Times(b, a / b) + b
  {
    TimesIsMul(b, a / b);
  }

  /** The correction term of `block_index_at_offset` never exceeds one block's slack. */
  lemma CorrectionFits(i: nat, offset: nat, b: nat)
    requires offset < U32_RANGE && b >= BLOCK_SIZE_MIN - 8 && Times(b, i) <= offset
    ensures 8 + 4 * Popcount(i) <= b
    ensures i > 0 ==> 8 + 4 * Popcount(i - 1) <= b
  {
    TimesAtLeast(b, 120, i);
    Pow2Of32();
    PopcountBound(i, 26);
    if i > 0 {
      PopcountBound(i - 1, 26);
    }
  }

  /**
   `block_index_at_offset`: the block holding file offset `offset` and the
   absolute position of that byte in the block.
   */
  function BlockIndexAtOffset(offset: nat, blockSize: nat): (r: (nat, nat))
    requires offset < U32_RANGE && blockSize >= BLOCK_SIZE_MIN
    ensures Start(r.0, blockSize) <= offset < Start(r.0 + 1, blockSize)
    ensures r.1 == HeaderBytes(r.0) + (offset - Start(r.0, blockSize))
  {
    var b := blockSize - 2 * 4;
    var i := offset / b;
    Quotient(offset, b);
    if i == 0 then
      (0, offset)
    else
      CorrectedIndex(offset, blockSize, b, i)
  }

  /** The correction step: account for the headers of the blocks before `i`. */
  function CorrectedIndex(offset: nat, blockSize: nat, b: nat, i: nat): (r: (nat, nat))
    requires offset < U32_RANGE && blockSize >= BLOCK_SIZE_MIN && b == blockSize - 8
    requires i > 0 && Times(b, i) <= offset < Times(b, i) + b
    ensures Start(r.0, blockSize) <= offset < Start(r.0 + 1, blockSize)
    ensures r.1 == HeaderBytes(r.0) + (offset - Start(r.0, blockSize))
  {
    CorrectionFits(i, offset, b);
    var adjusted := offset - 4 * (Popcount(i - 1) + 2);
    Quotient(adjusted, b);
    var j := adjusted / b;
    IndexExact(offset, blockSize, b, i, j);
    TimesIsMul(b, j);
    (j, offset - b * j - 4 * Popcount(j))
  }

  /** The closed form lands in the block whose content range holds the offset. */
  lemma IndexExact(offset: nat, blockSize: nat, b: nat, i: nat, j: nat)
    requires offset < U32_RANGE && blockSize >= BLOCK_SIZE_MIN && b == blockSize - 8
    requires i > 0 && Times(b, i) <= offset < Times(b, i) + b
    requires Times(b, j) <= offset - 4 * (Popcount(i - 1) + 2) < Times(b, j) + b
    ensures Start(j, blockSize) <= offset < Start(j + 1, blockSize)
    ensures offset - Times(b, j) - 4 * Popcount(j) == HeaderBytes(j) + (offset - Start(j, blockSize))
  {
    CorrectionFits(i, offset, b);
    var slack := 4 * (Popcount(i - 1) + 2);
    QuotientNear(offset - slack, b, i, j);
    StartClosedForm(j + 1, blockSize);
    if j > 0 {
      assert Times(b, j) + 8 + 4 * Popcount(j - 1) <= offset by {
        CorrectionFits(j, offset, b);
      }
      StartClosedForm(j, blockSize);
      HeaderFromPopcount(j);
    }
  }

  /** A value within `b` of `b * i` has quotient `i` or, below it, `i - 1`. */
  lemma QuotientNear(a: int, b: nat, i: nat, j: nat)
    requires i > 0 && Times(b, i) - b <= a < Times(b, i) + b
    requires Times(b, j) <= a < Times(b, j) + b
    ensures if a >= Times(b, i) then j == i else j == i - 1
  {
    var below: nat, next: nat := i - 1, j + 1;
    if j > i {
      TimesMonotone(b, i + 1, j);
    } else if j < below {
      TimesMonotone(b, next, below);
    }
  }

  lemma HeaderFromPopcount(i: nat)
    requires i > 0
    ensures HeaderBytes(i) + 4 * Popcount(i) == 8 + 4 * Popcount(i - 1)
  {
    PopcountStep(i);
  }

  /** Blocks hold at least 120 content bytes on average, so indices stay small. */
  lemma StartAtLeast(i: nat, blockSize: nat)
    requires blockSize >= BLOCK_SIZE_MIN
    ensures Start(i, blockSize) >= 120 * i
  {
    if i > 0 {
      StartClosedForm(i, blockSize);
      TimesAtLeast(blockSize - 8, 120, i);
    }
  }

  /** At most one block's content range holds an offset. */
  lemma StartUnique(offset: nat, blockSize: nat, i: nat, j: nat)
    requires blockSize >= BLOCK_SIZE_MIN && offset < U32_RANGE
    requires Start(i, blockSize) <= offset < Start(i + 1, blockSize)
    requires Start(j, blockSize) <= offset < Start(j + 1, blockSize)
    ensures i == j
  {
    StartAtLeast(i, blockSize);
    StartAtLeast(j, blockSize);
    if i < j {
      StartMonotone(i + 1, j, blockSize);
    } else if j < i {
      StartMonotone(j + 1, i, blockSize);
    }
  }

  /** The kernel's index is the one block whose content range holds the offset. */
  lemma IndexUnique(offset: nat, blockSize: nat, j: nat)
    requires offset < U32_RANGE && blockSize >= BLOCK_SIZE_MIN
    requires Start(j, blockSize) <= offset < Start(j + 1, blockSize)
    ensures BlockIndexAtOffset(offset, blockSize) == (j, HeaderBytes(j) + (offset - Start(j, blockSize)))
  {
    StartUnique(offset, blockSize, BlockIndexAtOffset(offset, blockSize).0, j);
  }

  /** `block_count`: blocks needed to hold `size` bytes. */
  function BlockCount(size: nat, blockSize: nat): nat
    requires size < U32_RANGE && blockSize >= BLOCK_SIZE_MIN
  {
    if size == 0 then 0 else BlockIndexAtOffset(size - 1, blockSize).0 + 1
  }

  /** `n` blocks just reach `size`: one fewer would not hold it. */
  predicate Reaches(n: nat, size: nat, blockSize: nat) {
    size <= Start(n, blockSize) && (n > 0 ==> Start(n - 1, blockSize) < size)
  }

  /** `BlockCount` is the number of blocks whose content just reaches `size`. */
  lemma BlockCountExact(size: nat, blockSize: nat)
    requires size < U32_RANGE && blockSize >= BLOCK_SIZE_MIN
    ensures Reaches(BlockCount(size, blockSize), size, blockSize)
  {
  }

  lemma ReachesBound(n: nat, size: nat, blockSize: nat)
    requires blockSize >= BLOCK_SIZE_MIN && Reaches(n, size, blockSize)
    ensures n <= size && (size > 0 ==> n > 0)
  {
    if n > 0 {
      StartAtLeast(n - 1, blockSize);
    }
  }

  lemma ReachesMonotone(n: nat, size: nat, n': nat, size': nat, blockSize: nat)
    requires blockSize >= BLOCK_SIZE_MIN && size <= size' < U32_RANGE
    requires Reaches(n, size, blockSize) && Reaches(n', size', blockSize)
    ensures n <= n'
  {
    ReachesBound(n, size, blockSize);
    ReachesBound(n', size', blockSize);
    if n' < n {
      StartMonotone(n', n - 1, blockSize);
    }
  }

  /** ... and it is the only such number. */
  lemma BlockCountUnique(size: nat, blockSize: nat, n: nat)
    requires size < U32_RANGE && blockSize >= BLOCK_SIZE_MIN && Reaches(n, size, blockSize)
    ensures BlockCount(size, blockSize) == n
  {
    BlockCountExact(size, blockSize);
    ReachesMonotone(n, size, BlockCount(size, blockSize), size, blockSize);
    ReachesMonotone(BlockCount(size, blockSize), size, n, size, blockSize);
  }

  /**
   Counting blocks by walking them until the cumulative content reaches `size`
   gives the same answer as the closed form.
   */
  method BlockCountByWalking(size: nat, blockSize: nat) returns (count: nat)
    requires size < U32_RANGE && blockSize >= BLOCK_SIZE_MIN
    ensures count == BlockCount(size, blockSize)
  {
    if size == 0 {
      return 0;
    }
    var consumed: int := 0;
    count := 0;
    while consumed < size
      invariant consumed == Start(count, blockSize)
      invariant count > 0 ==> Start(count - 1, blockSize) < size
      invariant 120 * count <= Start(count, blockSize)
      decreases size - count
    {
      consumed := consumed + ContentBytes(count, blockSize);
      count := count + 1;
      StartAtLeast(count, blockSize);
    }
    BlockCountUnique(size, blockSize, count);
  }
}
