/**
 The block allocator's bitmap and its lookahead cache (`src/alloc.rs`).

 The cache may call a free block used, never a used block free; that is what
 every run of allocations, commits and frees keeps.
 */
module Bitmaps {
  import opened Words

  /** A bitmap of in-use blocks with room for `cap` of them. */
  class Bitmap {
    const cap: nat
    var marked: set<nat>

    constructor (cap: nat)
      ensures this.cap == cap && marked == {}
    {
      this.cap, marked := cap, {};
    }

    /** `Bitmap::set`. */
    method Set(block: nat) returns (r: Result<()>)
      modifies this
      ensures r == if block >= cap then Err(OutOfRange) else Ok(())
      ensures marked == if r.Ok? then old(marked) + {block} else old(marked)
    {
      if block >= cap {
        return Err(OutOfRange);
      }
      marked := marked + {block};
      return Ok(());
    }

    /** `Bitmap::is_set`: a block beyond the bitmap is never free. */
    predicate IsSet(block: nat)
      reads this
    {
      block >= cap || block in marked
    }
  }

  /** The addresses of a list that name a block. */
  function Named(blocks: seq<nat>): set<nat> {
    set b | b in blocks && b != NO_BLOCK
  }

  function Members(blocks: seq<nat>): set<nat> {
    set b | b in blocks
  }

  predicate Within(blocks: set<nat>, cap: nat) {
    forall b :: b in blocks ==> b < cap
  }

  /** The blocks of the device that the bitmap has room for and that are not taken. */
  function Free(count: nat, cap: nat, taken: set<nat>): set<nat> {
    set b | 0 <= b < Min(count, cap) && b !in taken
  }

  /** `blocks` are the lowest of `free`, in order. */
  ghost predicate Lowest(blocks: seq<nat>, free: set<nat>) {
    && (forall i, j :: 0 <= i < j < |blocks| ==> blocks[i] < blocks[j])
    && (forall i :: 0 <= i < |blocks| ==> blocks[i] in free)
    && forall b, i :: b in free && 0 <= i < |blocks| && b < blocks[i] ==> b in blocks
  }

  /** Marks the excluded blocks that name a block. */
  method MarkExcluded(used: Bitmap, excluded: seq<nat>) returns (r: Result<()>)
    modifies used
    ensures old(used.marked) <= used.marked <= old(used.marked) + Named(excluded)
    ensures r.Ok? ==> used.marked == old(used.marked) + Named(excluded)
    ensures r.Err? ==> r.error == OutOfRange
    ensures r.Ok? <==> Within(Named(excluded), used.cap)
  {
    r := Ok(());
    for i := 0 to |excluded|
      invariant r == Ok(()) && used.marked == old(used.marked) + Named(excluded[..i]) && Within(Named(excluded[..i]), used.cap)
    {
      assert excluded[..i + 1] == excluded[..i] + [excluded[i]];
      assert Named(excluded[..i]) <= Named(excluded);
      assert Named(excluded[..i + 1]) == Named(excluded[..i]) + if excluded[i] != NO_BLOCK then {excluded[i]} else {};
      if excluded[i] != NO_BLOCK {
        r := used.Set(excluded[i]);
        if r.Err? {
          assert excluded[i] in Named(excluded);
          return;
        }
      }
    }
    assert excluded[..|excluded|] == excluded;
  }

  /** The search has passed the blocks below `b`, and taken all that were free. */
  ghost predicate Searched(out: seq<nat>, free: set<nat>, b: nat) {
    && (forall i, j :: 0 <= i < j < |out| ==> out[i] < out[j])
    && (forall i :: 0 <= i < |out| ==> out[i] in free && out[i] < b)
    && forall c :: c in free && c < b ==> c in out
  }

  lemma SearchedNext(out: seq<nat>, free: set<nat>, b: nat)
    requires Searched(out, free, b)
    ensures b in free ==> Searched(out + [b], free, b + 1)
    ensures b !in free ==> Searched(out, free, b + 1)
  {
    if b in free {
      var more := out + [b];
      forall c | c in free && c < b + 1
        ensures c in more
      {
        assert c < b ==> c in out;
      }
    }
  }

  /** A search that has passed the whole device has taken every free block. */
  lemma SearchedAll(out: seq<nat>, count: nat, cap: nat, taken: set<nat>, b: nat)
    requires Searched(out, Free(count, cap, taken), b) && b >= count
    ensures |Free(count, cap, taken)| == |out|
  {
    assert Members(out) == Free(count, cap, taken);
    MembersCount(out);
  }

  lemma {:induction false} MembersCount(s: seq<nat>)
    requires forall i, j :: 0 <= i < j < |s| ==> s[i] < s[j]
    ensures |Members(s)| == |s|
  {
    if s != [] {
      var init := s[..|s| - 1];
      MembersCount(init);
      assert Members(s) == Members(init) + {s[|s| - 1]};
    }
  }

  /**
   `take_free_blocks`: the `n` lowest unmarked blocks of the device, marked
   together with the excluded ones. It fails exactly when an excluded block is out
   of the bitmap or fewer than `n` blocks are free.
   */
  method TakeFreeBlocks(used: Bitmap, excluded: seq<nat>, n: nat, count: nat) returns (r: Result<seq<nat>>)
    modifies used
    ensures old(used.marked) <= used.marked
    ensures var free := Free(count, used.cap, old(used.marked) + Named(excluded));
            && (r.Ok? <==> Within(Named(excluded), used.cap) && |free| >= n)
            && (r.Ok? ==> |r.value| == n && Lowest(r.value, free) && used.marked == old(used.marked) + Named(excluded) + Members(r.value))
    ensures r.Err? ==> r.error == OutOfRange
  {
    var e := MarkExcluded(used, excluded);
    if e.Err? {
      return Err(e.error);
    }
    ghost var base := used.marked;
    ghost var free := Free(count, used.cap, base);
    var out: seq<nat>, b := [], 0;
    while |out| < n && b < count
      invariant b <= count && |out| <= n && used.marked == base + Members(out)
      invariant Searched(out, free, b)
    {
      SearchedNext(out, free, b);
      if !used.IsSet(b) {
        e := used.Set(b);
        assert Members(out + [b]) == Members(out) + {b};
        out := out + [b];
      }
      b := b + 1;
    }
    MembersCount(out);
    if |out| < n {
      SearchedAll(out, count, used.cap, base, b);
      return Err(OutOfRange);
    }
    FreeHolds(out, free, b);
    return Ok(out);
  }

  /** What is taken is free, so there were as many. */
  lemma FreeHolds(out: seq<nat>, free: set<nat>, b: nat)
    requires Searched(out, free, b)
    ensures |free| >= |out| && Lowest(out, free)
  {
    MembersCount(out);
    SubsetCount(Members(out), free);
  }

  lemma {:induction false} SubsetCount(a: set<nat>, b: set<nat>)
    requires a <= b
    ensures |a| <= |b|
  {
    if a != {} {
      var x :| x in a;
      SubsetCount(a - {x}, b - {x});
    }
  }

  lemma LowestApart(blocks: seq<nat>, count: nat, cap: nat, taken: set<nat>)
    requires Lowest(blocks, Free(count, cap, taken))
    ensures Distinct(blocks) && Members(blocks) !! taken && forall i :: 0 <= i < |blocks| ==> blocks[i] < count
  {
  }

  /**
   The lookahead cache of a mounted filesystem. The ghost sets are the truth
   it approximates: blocks that committed metadata reaches, and blocks handed
   out that no commit names yet.
   */
  class Lookahead {
    const cap: nat
    const count: nat
    var cache: Bitmap?
    ghost var live: set<nat>
    ghost var inflight: set<nat>

    ghost predicate Valid()
      reads this, cache
    {
      cache != null ==> cache.cap == cap && live + inflight <= cache.marked
    }

    /** At mount nothing is cached. */
    constructor (cap: nat, count: nat, ghost live: set<nat>)
      ensures Valid() && this.cap == cap && this.count == count && this.live == live && inflight == {}
    {
      this.cap, this.count, cache := cap, count, null;
      this.live, inflight := live, {};
    }

    /**
     `alloc_blocks_cached` and `alloc_one_block_cached_single_buf`: serve from
     the cache, or rescan, mark the chain in flight and try once more, so that a
     cache that calls freed blocks used does not fail the request. `scan` is what
     the rescan marks; the caller names every block in flight.
     */
    method Alloc(n: nat, excluded: seq<nat>, chain: set<nat>, scan: Result<set<nat>>) returns (r: Result<seq<nat>>)
      requires Valid()
      requires scan.Ok? ==> live <= scan.value
      requires inflight <= Named(excluded) + chain
      modifies this, if cache != null then {cache} else {}
      ensures Valid() && live == old(live)
      ensures r.Ok? ==> |r.value| == n && Distinct(r.value) && forall i :: 0 <= i < n ==> r.value[i] < count
      ensures r.Ok? ==> Members(r.value) !! old(live) + old(inflight) + Named(excluded)
      ensures r.Ok? || (cache == old(cache) && (scan.Err? ==> r.error == scan.error))
      ensures scan.Ok? && Within(Named(excluded), cap) && |Free(count, cap, scan.value + chain + Named(excluded))| >= n ==> r.Ok?
      ensures inflight == if r.Ok? then old(inflight) + Members(r.value) else old(inflight)
      ensures r.Ok? ==> cache != null && old(live) + old(inflight) + Members(r.value) <= cache.marked
      ensures r.Err? && scan.Ok? ==> r.error == OutOfRange
    {
      if cache != null {
        r := TakeFreeBlocks(cache, excluded, n, count);
        if r.Ok? {
          LowestApart(r.value, count, cap, old(cache.marked) + Named(excluded));
          inflight := inflight + Members(r.value);
          return;
        }
      }
      if scan.Err? {
        return Err(scan.error);
      }
      var rescanned := new Bitmap(cap);
      rescanned.marked := scan.value + chain;
      r := TakeFreeBlocks(rescanned, excluded, n, count);
      if r.Ok? {
        LowestApart(r.value, count, cap, scan.value + chain + Named(excluded));
        cache := rescanned;
        inflight := inflight + Members(r.value);
      }
    }

    /** A commit makes blocks in flight reachable, and may drop others. */
    method Publish(ghost blocks: set<nat>, ghost dropped: set<nat>)
      requires Valid() && blocks <= inflight
      modifies this
      ensures Valid() && live == (old(live) + blocks) - dropped && inflight == old(inflight) - blocks && cache == old(cache)
    {
      live, inflight := (live + blocks) - dropped, inflight - blocks;
    }

    /** Blocks in flight are abandoned. */
    method Abandon(ghost blocks: set<nat>)
      requires Valid()
      modifies this
      ensures Valid() && inflight == old(inflight) - blocks && live == old(live) && cache == old(cache)
    {
      inflight := inflight - blocks;
    }

    /** The cache is dropped, as after a relocation or a failed write. */
    method Invalidate()
      modifies this
      ensures Valid() && cache == null && live == old(live) && inflight == old(inflight)
    {
      cache := null;
    }
  }
}
