/**
 Marking a chain's blocks (`walk_ctz_chain` in `src/alloc.rs`).
 */
module ChainScan {
  import opened Words
  import opened Storage
  import opened CtzLayout
  import opened CtzChain
  import opened Bitmaps

  /** `chain` lists the blocks of a well formed chain of `size` bytes whose last block is `head`. */
  ghost predicate ChainOf(disk: Disk, blockSize: nat, head: nat, size: nat, chain: seq<nat>) {
    Linked(disk, chain) && Reaches(|chain|, size, blockSize) && 0 < |chain| <= |disk| && chain[|chain| - 1] == head
  }

  /** The chain's blocks from `i` on. */
  function Upper(chain: seq<nat>, i: nat): set<nat>
    requires i <= |chain|
  {
    Members(chain[i..])
  }

  lemma UpperStep(chain: seq<nat>, i: nat)
    requires i < |chain|
    ensures Upper(chain, i) == Upper(chain, i + 1) + {chain[i]}
  {
    assert chain[i..] == [chain[i]] + chain[i + 1..];
  }

  /** `walk_ctz_chain`: two blocks per read at even indices, every address checked before it is marked. */
  method WalkChain(disk: Disk, unit: nat, blockSize: nat, head: nat, size: nat, used: Bitmap, ghost chain: seq<nat>) returns (r: Result<()>)
    requires Geometry(disk, unit, blockSize) && size < U32_RANGE
    modifies used
    ensures old(used.marked) <= used.marked
    ensures r.Ok? && size == 0 ==> used.marked == old(used.marked)
    ensures r.Ok? && size > 0 && ChainOf(disk, blockSize, head, size, chain) ==> used.marked == old(used.marked) + Members(chain)
    ensures size == 0 || (ChainOf(disk, blockSize, head, size, chain) && |disk| <= used.cap) ==> r.Ok?
  {
    if size == 0 {
      return Ok(());
    }
    var total := CountBlocks(size, blockSize, |chain|);
    if total == 0 || total > |disk| {
      return Err(Corrupt);
    }
    ghost var wf := ChainOf(disk, blockSize, head, size, chain);
    r := WalkBlocks(disk, unit, blockSize, head, total, used, wf, chain);
  }

  /** Checks an address against the device and marks it. */
  method MarkBlock(disk: Disk, block: nat, used: Bitmap) returns (r: Result<()>)
    modifies used
    ensures old(used.marked) <= used.marked
    ensures r.Ok? ==> used.marked == old(used.marked) + {block}
    ensures r.Ok? <==> block < |disk| && block < used.cap
  {
    if block >= |disk| {
      return Err(Corrupt);
    }
    r := used.Set(block);
  }

  method WalkBlocks(disk: Disk, unit: nat, blockSize: nat, head: nat, total: nat, used: Bitmap, ghost wf: bool, ghost chain: seq<nat>) returns (r: Result<()>)
    requires Geometry(disk, unit, blockSize) && 0 < total < U32_RANGE
    requires wf ==> Linked(disk, chain) && |chain| == total && chain[total - 1] == head
    modifies used
    ensures old(used.marked) <= used.marked
    ensures r.Ok? && wf ==> used.marked == old(used.marked) + Members(chain)
    ensures wf && |disk| <= used.cap ==> r.Ok?
  {
    var index: nat, cur: nat := total - 1, head;
    while true
      invariant index < total && old(used.marked) <= used.marked
      invariant wf ==> chain[index] == cur && used.marked == old(used.marked) + Upper(chain, index + 1)
      decreases index
    {
      r := MarkBlock(disk, cur, used);
      if r.Err? {
        return;
      }
      if wf {
        UpperStep(chain, index);
      }
      if index == 0 {
        assert wf ==> chain[0..] == chain;
        return Ok(());
      }
      var ptr0, ptr1 := ReadBackPointers(disk, unit, blockSize, cur, index, blockSize, wf, chain);
      if index % 2 == 0 {
        r := MarkBlock(disk, ptr0, used);
        if r.Err? {
          return;
        }
        if wf {
          UpperStep(chain, index - 1);
        }
        cur, index := ptr1, index - 2;
      } else {
        cur, index := ptr0, index - 1;
      }
    }
  }
}
