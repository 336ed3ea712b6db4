/**
 Splitting an overflowing directory (`compute_split_index` and
 `split_directory_pair` in `src/fs.rs`): the upper entries move to fresh
 continuation pairs, and the pair's own commit links them in at the end.
 */
module Split {
  import opened Words
  import opened Grid
  import opened Directory
  import opened Operations
  import opened Compaction
  import opened Rebuild
  import opened Sizes

  /** A range that may become one continuation: a single entry, or within count and budget. */
  predicate PieceFits(log: seq<Item>, listing: seq<Slot>, op: WriteOp, lo: nat, hi: nat, budget: nat) {
    && lo < hi && EmitRange(log, listing, op, lo, hi).Ok?
    && (hi - lo == 1 || (hi - lo < 0xFF && LogBytes(EmitRange(log, listing, op, lo, hi).value) <= budget))
  }

  /** Where halving the gap below `hi` from `lo` on first leaves a good piece. */
  function Halving(good: nat -> bool, lo: nat, hi: nat): (r: nat)
    requires lo < hi
    ensures lo <= r < hi && (good(r) || r == hi - 1)
    ensures r == lo <==> good(lo) || lo == hi - 1
    decreases hi - lo
  {
    if hi - lo <= 1 || good(lo) then lo else Halving(good, lo + (hi - lo) / 2, hi)
  }

  /** `n` times two to the `k`. */
  function Scaled(n: nat, k: nat): nat {
    if k == 0 then n else 2 * Scaled(n, k - 1)
  }

  /** `x` is the `k`-th place to try: what is above it is the gap over two to the `k`, rounded up. */
  predicate Probe(lo: nat, hi: nat, k: nat, x: nat) {
    lo <= x < hi && Scaled(hi - x - 1, k) < hi - lo <= Scaled(hi - x, k)
  }

  lemma ProbeOnward(lo: nat, hi: nat, k: nat, x: nat)
    requires hi - lo > 1
    ensures Probe(lo + (hi - lo) / 2, hi, k, x) ==> Probe(lo, hi, k + 1, x)
    ensures Probe(lo, hi, k + 1, x) && lo + (hi - lo) / 2 <= x ==> Probe(lo + (hi - lo) / 2, hi, k, x)
  {
  }

  lemma {:induction false} ScaledAtLeast(n: nat, k: nat)
    ensures Scaled(n, k) >= n
  {
    if k > 0 {
      ScaledAtLeast(n, k - 1);
    }
  }

  lemma FirstProbe(lo: nat, hi: nat, x: nat)
    requires lo < hi
    ensures Probe(lo, hi, 0, x) <==> x == lo
  {
  }

  lemma LaterProbe(lo: nat, hi: nat, k: nat, x: nat)
    requires hi - lo > 1 && Probe(lo, hi, k + 1, x)
    ensures lo + (hi - lo) / 2 <= x
  {
    ScaledAtLeast(hi - x - 1, k);
  }

  /** The place found is the first good one of the halving sequence, or its last place. */
  lemma {:induction false} HalvingProbes(good: nat -> bool, lo: nat, hi: nat) returns (k: nat)
    requires lo < hi
    ensures Probe(lo, hi, k, Halving(good, lo, hi)) && forall j, x :: 0 <= j < k && Probe(lo, hi, j, x) ==> !good(x)
    decreases hi - lo
  {
    if hi - lo <= 1 || good(lo) {
      FirstProbe(lo, hi, lo);
      k := 0;
    } else {
      var mid := lo + (hi - lo) / 2;
      var n := HalvingProbes(good, mid, hi);
      k := n + 1;
      ProbeOnward(lo, hi, n, Halving(good, mid, hi));
      forall j, x | 0 <= j < k && Probe(lo, hi, j, x)
        ensures !good(x)
      {
        if j == 0 {
          FirstProbe(lo, hi, x);
        } else {
          LaterProbe(lo, hi, j - 1, x);
          ProbeOnward(lo, hi, j - 1, x);
        }
      }
    }
  }

  lemma HalvingStep(good: nat -> bool, lo: nat, hi: nat)
    requires hi - lo > 1 && !good(lo)
    ensures lo < lo + (hi - lo) / 2 < hi && Halving(good, lo, hi) == Halving(good, lo + (hi - lo) / 2, hi)
  {
  }

  function Fitting(log: seq<Item>, listing: seq<Slot>, op: WriteOp, hi: nat, budget: nat): nat -> bool {
    (i: nat) => PieceFits(log, listing, op, i, hi, budget)
  }

  function HalvingIndex(log: seq<Item>, listing: seq<Slot>, op: WriteOp, lo: nat, hi: nat, budget: nat): nat
    requires lo < hi
  {
    Halving(Fitting(log, listing, op, hi, budget), lo, hi)
  }

  lemma NextHalving(log: seq<Item>, listing: seq<Slot>, op: WriteOp, lo: nat, hi: nat, budget: nat)
    requires hi - lo > 1 && EmitRange(log, listing, op, lo, hi).Ok?
    requires !(hi - lo < 0xFF && LogBytes(EmitRange(log, listing, op, lo, hi).value) <= budget)
    ensures lo < lo + (hi - lo) / 2 < hi
    ensures HalvingIndex(log, listing, op, lo, hi, budget) == HalvingIndex(log, listing, op, lo + (hi - lo) / 2, hi, budget)
  {
    HalvingStep(Fitting(log, listing, op, hi, budget), lo, hi);
  }

  /** The piece found fits, and it is the whole range exactly when the whole range fits. */
  lemma HalvingFits(log: seq<Item>, listing: seq<Slot>, op: WriteOp, lo: nat, hi: nat, budget: nat)
    requires lo < hi && Complete(listing, op, lo, hi)
    ensures lo <= HalvingIndex(log, listing, op, lo, hi, budget) < hi
    ensures PieceFits(log, listing, op, HalvingIndex(log, listing, op, lo, hi, budget), hi, budget)
    ensures HalvingIndex(log, listing, op, lo, hi, budget) == lo <==> PieceFits(log, listing, op, lo, hi, budget)
  {
    EmitRangeSucceeds(log, listing, op, hi - 1, hi);
    assert PieceFits(log, listing, op, hi - 1, hi, budget);
  }

  /** `compute_split_index`: `split` only grows, halving the gap until the upper part fits. */
  method ComputeSplit(log: seq<Item>, listing: seq<Slot>, op: WriteOp, lo: nat, hi: nat, budget: nat) returns (r: Result<nat>)
    requires lo < hi
    ensures Complete(listing, op, lo, hi) ==> r.Ok?
    ensures r.Ok? ==> r.value == HalvingIndex(log, listing, op, lo, hi, budget)
    ensures r.Err? ==> r.error == Corrupt
  {
    var split := lo;
    while hi - split > 1
      invariant lo <= split < hi
      invariant HalvingIndex(log, listing, op, split, hi, budget) == HalvingIndex(log, listing, op, lo, hi, budget)
      decreases hi - split
    {
      EmitRangeSucceeds(log, listing, op, split, hi);
      var items := EmitRange(log, listing, op, split, hi);
      if items.Err? {
        return Err(items.error);
      }
      if hi - split < 0xFF && LogBytes(items.value) <= budget {
        return Ok(split);
      }
      NextHalving(log, listing, op, split, hi, budget);
      split := split + (hi - split) / 2;
    }
    return Ok(split);
  }

  /** Room a continuation keeps for its header, tail, state and commit tag. */
  const SPLIT_RESERVE: nat := 40

  /** The per-pair budget: at most half a block, rounded up to the program unit. */
  function Budget(size: nat, prog: nat): nat
    requires prog > 0
  {
    Min(if size >= SPLIT_RESERVE then size - SPLIT_RESERVE else 0, Ceil(size / 2, prog))
  }

  /** A piece is a single entry, or at most 254 of them within the budget. */
  lemma PieceCount(log: seq<Item>, listing: seq<Slot>, op: WriteOp, lo: nat, hi: nat, budget: nat)
    requires lo < hi && EmitRange(log, listing, op, lo, hi).Ok?
    ensures PieceFits(log, listing, op, lo, hi, budget)
            <==> lo + 1 == hi || (hi <= lo + 254 && LogBytes(EmitRange(log, listing, op, lo, hi).value) <= budget)
  {
  }

  /** The budget is the first program boundary at or past half a block, or what the reserve leaves if that is less. */
  lemma BudgetIsHalf(size: nat, prog: nat, half: nat)
    requires prog > 0 && OnGrid(half, prog) && size / 2 <= half < size / 2 + prog
    ensures Budget(size, prog) == if size < 40 then 0 else Min(size - 40, half)
  {
    var c := Ceil(size / 2, prog);
    if half < c {
      GridGap(half, c, prog);
    } else if c < half {
      GridGap(c, half, prog);
    }
  }

  /** A piece within the budget fits its block with its tail and commit tag. */
  lemma ContinuationFits(items: seq<Item>, tail: Option<Thread>, size: nat, prog: nat)
    requires prog > 0 && size >= SPLIT_RESERVE && LogBytes(items) <= Budget(size, prog)
    ensures 4 + LogBytes(ContinuationItems(items, tail)) + 8 <= size
  {
    StatesBytes(None, None, WrittenTail(tail));
    LogBytesConcat(items, States(None, None, WrittenTail(tail)));
  }

  /** The items and a commit tag fit a block. */
  predicate BlockFits(items: seq<Item>, size: nat) {
    4 + LogBytes(items) + 8 <= size
  }

  /** Only a single entry too big for its block makes a piece that halving found overflow. */
  lemma OverflowIsSingle(log: seq<Item>, listing: seq<Slot>, op: WriteOp, lo: nat, hi: nat, tail: Option<Thread>, size: nat, prog: nat)
    requires prog > 0 && size >= SPLIT_RESERVE && PieceFits(log, listing, op, lo, hi, Budget(size, prog))
    ensures !BlockFits(ContinuationItems(EmitRange(log, listing, op, lo, hi).value, tail), size) ==> hi - lo == 1
  {
    if hi - lo > 1 {
      ContinuationFits(EmitRange(log, listing, op, lo, hi).value, tail, size, prog);
    }
  }

  // ---- Chains of pairs -------------------------------------------------------------------------

  /** What every pair reads as. */
  type Forest = map<BlockPair, View>

  /** Each pair's tail is a hard link to the next; the last one's is `last`. */
  predicate Linked(f: Forest, pairs: seq<BlockPair>, last: Option<Thread>) {
    (forall i :: 0 <= i < |pairs| ==> pairs[i] in f) && forall i :: 0 <= i < |pairs| ==> LinkedAt(f, pairs, last, i)
  }

  predicate LinkedAt(f: Forest, pairs: seq<BlockPair>, last: Option<Thread>, i: nat)
    requires i < |pairs| && pairs[i] in f
  {
    f[pairs[i]].tail == if i + 1 < |pairs| then Some(Thread(pairs[i + 1], true)) else last
  }

  /** The entries along a chain, in order. */
  function ChainListing(f: Forest, pairs: seq<BlockPair>): seq<Slot>
    requires forall i :: 0 <= i < |pairs| ==> pairs[i] in f
  {
    if pairs == [] then [] else f[pairs[0]].listing + ChainListing(f, pairs[1..])
  }

  lemma LinkedFront(f: Forest, c: BlockPair, pairs: seq<BlockPair>, last: Option<Thread>)
    requires Linked(f, pairs, last) && c in f
    requires f[c].tail == if pairs == [] then last else Some(Thread(pairs[0], true))
    ensures Linked(f, [c] + pairs, last) && ChainListing(f, [c] + pairs) == f[c].listing + ChainListing(f, pairs)
  {
    var all := [c] + pairs;
    assert all[1..] == pairs;
    forall i | 0 <= i < |all|
      ensures all[i] in f && LinkedAt(f, all, last, i)
    {
      if i > 0 {
        assert all[i] == pairs[i - 1] && LinkedAt(f, pairs, last, i - 1);
      }
    }
  }

  /** A chain that avoids `p` reads the same when `p` changes. */
  lemma {:induction false} ChainFrame(f: Forest, g: Forest, pairs: seq<BlockPair>, last: Option<Thread>)
    requires Linked(f, pairs, last) && forall i :: 0 <= i < |pairs| ==> pairs[i] in g && g[pairs[i]] == f[pairs[i]]
    ensures Linked(g, pairs, last) && ChainListing(g, pairs) == ChainListing(f, pairs)
  {
    if pairs != [] {
      var rest := pairs[1..];
      forall i | 0 <= i < |rest|
        ensures rest[i] in f && LinkedAt(f, rest, last, i) && rest[i] in g && g[rest[i]] == f[rest[i]]
      {
        assert rest[i] == pairs[i + 1] && LinkedAt(f, pairs, last, i + 1);
      }
      ChainFrame(f, g, rest, last);
      forall i | 0 <= i < |pairs|
        ensures LinkedAt(g, pairs, last, i)
      {
        assert LinkedAt(f, pairs, last, i);
      }
    }
  }

  // ---- The cut loop ------------------------------------------------------------------------------

  /** The tail in force after the commit, before the null sentinel is collapsed. */
  function EffectiveTail(v: View, q: Request): Option<Thread> {
    if q.tail.Some? then q.tail else v.tail
  }

  function WrittenTail(t: Option<Thread>): Option<Thread> {
    if t.Some? && t.value.pair.a == NO_BLOCK then None else t
  }

  /** A continuation's block: its entries and the tail it inherits, no global state. */
  function ContinuationItems(items: seq<Item>, tail: Option<Thread>): seq<Item> {
    Tailed(items, None, None, WrittenTail(tail))
  }

  /** The pair's own block after the split: the lower entries, its state, the link to the continuations. */
  function LowerItems(items: seq<Item>, v: View, q: Request, cont: BlockPair): seq<Item>
    requires Sized(q) && |v.move| == MOVE_SIZE && |v.relocate| == RELOCATE_SIZE
  {
    Tailed(items, NonZero(Folded(v.move, q.move)), NonZero(Folded(v.relocate, q.relocate)), Some(Thread(cont, true)))
  }

  /** A range of the listing, read back from its own block. */
  lemma RangeReads(cap: nat, log: seq<Item>, listing: seq<Slot>, op: WriteOp, lo: nat, hi: nat)
    requires Reflects(log, listing) && lo <= hi && hi - lo <= cap && EmitRange(log, listing, op, lo, hi).Ok?
    ensures var items := EmitRange(log, listing, op, lo, hi).value;
            EntriesOnly(items) && Replay(Fresh(cap), items).Ok? && Live(Replay(Fresh(cap), items).value) == Listed(op, listing, lo, hi)
  {
    ReplayRange(cap, log, listing, op, lo, hi);
    RangeEntriesOnly(log, listing, op, lo, hi);
  }

  lemma ContinuationReads(cap: nat, items: seq<Item>, tail: Option<Thread>)
    requires EntriesOnly(items) && Replay(Fresh(cap), items).Ok?
    ensures var all := ContinuationItems(items, tail);
            && Readable(cap, all)
            && ViewOf(cap, all) == View(Live(Replay(Fresh(cap), items).value), Collapse(tail), Zeros(MOVE_SIZE), Zeros(RELOCATE_SIZE))
  {
    ViewRebuilt(cap, items, Zeros(MOVE_SIZE), Zeros(RELOCATE_SIZE), WrittenTail(tail));
  }

  lemma LowerReads(cap: nat, items: seq<Item>, v: View, q: Request, cont: BlockPair)
    requires EntriesOnly(items) && Replay(Fresh(cap), items).Ok? && !cont.IsNull()
    requires Sized(q) && |v.move| == MOVE_SIZE && |v.relocate| == RELOCATE_SIZE
    ensures var all := LowerItems(items, v, q, cont);
            && Readable(cap, all)
            && ViewOf(cap, all) == View(Live(Replay(Fresh(cap), items).value), Some(Thread(cont, true)), Folded(v.move, q.move), Folded(v.relocate, q.relocate))
  {
    ViewRebuilt(cap, items, Folded(v.move, q.move), Folded(v.relocate, q.relocate), Some(Thread(cont, true)));
  }

  /** Every pair of `f0` reads in `f` as it did. */
  predicate Preserves(f0: Forest, f: Forest) {
    forall p :: p in f0 ==> p in f && f[p] == f0[p]
  }

  /** A pair the allocator may hand out: a real address that nothing uses. */
  predicate Usable(f: Forest, c: BlockPair) {
    c !in f && !c.IsNull()
  }

  /** The tail the next continuation inherits. */
  function Pending(v: View, q: Request, conts: seq<BlockPair>): Option<Thread> {
    if conts == [] then EffectiveTail(v, q) else Some(Thread(conts[0], true))
  }

  /**
   After some cuts: the continuations, newest first, chain to the inherited
   tail and list the entries from `end` on, carry no global state, and nothing
   that was readable before has changed.
   */
  predicate CutTo(f0: Forest, f: Forest, v: View, q: Request, conts: seq<BlockPair>, end: nat) {
    && end <= Total(q.op, v.listing) && Preserves(f0, f) && Between(f0, f, conts)
    && (forall i :: 0 <= i < |conts| ==> conts[i] !in f0 && !conts[i].IsNull())
    && (forall i, j :: 0 <= i < j < |conts| ==> conts[i] != conts[j])
    && Linked(f, conts, Collapse(EffectiveTail(v, q)))
    && ChainListing(f, conts) == Listed(q.op, v.listing, end, Total(q.op, v.listing))
    && Stateless(f, conts)
  }

  /** Nothing is readable but what was, and the continuations. */
  predicate Between(f0: Forest, f: Forest, conts: seq<BlockPair>) {
    forall p :: p in f ==> p in f0 || p in conts
  }

  /** None of the pairs carries global state. */
  predicate Stateless(f: Forest, pairs: seq<BlockPair>) {
    forall i :: 0 <= i < |pairs| ==> pairs[i] in f && f[pairs[i]].move == Zeros(MOVE_SIZE) && f[pairs[i]].relocate == Zeros(RELOCATE_SIZE)
  }

  /** One more continuation, not yet referenced by anything that was there. */
  lemma CutStep(cap: nat, log: seq<Item>, f0: Forest, f: Forest, v: View, q: Request, conts: seq<BlockPair>, cut: nat, end: nat, c: BlockPair)
    requires CutTo(f0, f, v, q, conts, end) && Usable(f, c) && cut <= end && end - cut <= cap
    requires Reflects(log, v.listing) && EmitRange(log, v.listing, q.op, cut, end).Ok?
    ensures var items := ContinuationItems(EmitRange(log, v.listing, q.op, cut, end).value, Pending(v, q, conts));
            Readable(cap, items) && CutTo(f0, f[c := ViewOf(cap, items)], v, q, [c] + conts, cut)
  {
    var entries := EmitRange(log, v.listing, q.op, cut, end).value;
    var items := ContinuationItems(entries, Pending(v, q, conts));
    RangeReads(cap, log, v.listing, q.op, cut, end);
    ContinuationReads(cap, entries, Pending(v, q, conts));
    LongerChain(f0, f, v, q, conts, cut, end, c, ViewOf(cap, items));
  }

  /** A stateless pair with the entries from `cut` to `end`, in front of the chain. */
  lemma LongerChain(f0: Forest, f: Forest, v: View, q: Request, conts: seq<BlockPair>, cut: nat, end: nat, c: BlockPair, view: View)
    requires CutTo(f0, f, v, q, conts, end) && Usable(f, c) && cut <= end
    requires view == View(Listed(q.op, v.listing, cut, end), Collapse(Pending(v, q, conts)), Zeros(MOVE_SIZE), Zeros(RELOCATE_SIZE))
    ensures CutTo(f0, f[c := view], v, q, [c] + conts, cut)
  {
    FrontLinks(f, conts, Collapse(EffectiveTail(v, q)), c, view);
    FrontFresh(f0, f, conts, c, view);
    ListedSplit(q.op, v.listing, cut, end, Total(q.op, v.listing));
  }

  lemma FrontLinks(f: Forest, conts: seq<BlockPair>, last: Option<Thread>, c: BlockPair, view: View)
    requires Linked(f, conts, last) && c !in f && view.tail == if conts == [] then last else Some(Thread(conts[0], true))
    ensures Linked(f[c := view], [c] + conts, last)
    ensures ChainListing(f[c := view], [c] + conts) == view.listing + ChainListing(f, conts)
  {
    ChainFrame(f, f[c := view], conts, last);
    LinkedFront(f[c := view], c, conts, last);
  }

  lemma FrontFresh(f0: Forest, f: Forest, conts: seq<BlockPair>, c: BlockPair, view: View)
    requires Preserves(f0, f) && Between(f0, f, conts) && Usable(f, c) && Stateless(f, conts)
    requires view.move == Zeros(MOVE_SIZE) && view.relocate == Zeros(RELOCATE_SIZE)
    requires (forall i :: 0 <= i < |conts| ==> conts[i] !in f0 && !conts[i].IsNull()) && forall i, j :: 0 <= i < j < |conts| ==> conts[i] != conts[j]
    ensures var g, all := f[c := view], [c] + conts;
            && Preserves(f0, g) && Between(f0, g, all) && Stateless(g, all)
            && (forall i :: 0 <= i < |all| ==> all[i] !in f0 && !all[i].IsNull())
            && forall i, j :: 0 <= i < j < |all| ==> all[i] != all[j]
  {
    var all := [c] + conts;
    forall i | 0 <= i < |all|
      ensures all[i] !in f0 && !all[i].IsNull()
    {
      assert i > 0 ==> all[i] == conts[i - 1];
    }
  }

  /** Changing the first pair of a chain leaves the rest as it was. */
  lemma ChainHead(f: Forest, orig: BlockPair, view: View, conts: seq<BlockPair>, last: Option<Thread>)
    requires Linked(f, conts, last) && conts != [] && orig !in conts && view.tail == Some(Thread(conts[0], true))
    ensures var g := f[orig := view];
            Linked(g, [orig] + conts, last) && ChainListing(g, [orig] + conts) == view.listing + ChainListing(f, conts)
  {
    var g := f[orig := view];
    ChainFrame(f, g, conts, last);
    LinkedFront(g, orig, conts, last);
  }

  lemma ListedWhole(op: WriteOp, listing: seq<Slot>, end: nat, lo: nat)
    requires lo == 0 && end <= Total(op, listing)
    requires op.Noop? || (if Adds(op) then op.id == |listing| else op.id < |listing|)
    ensures Listed(op, listing, lo, end) + Listed(op, listing, end, Total(op, listing)) == Effect(op, listing)
  {
    ListedSplit(op, listing, lo, end, Total(op, listing));
    ListedMeansEffect(op, listing);
  }

  /** The split is done: the chain from `orig` lists the operation's effect, and `orig` alone carries state. */
  predicate SplitDone(g: Forest, v: View, q: Request, orig: BlockPair, conts: seq<BlockPair>)
    requires Sized(q) && |v.move| == MOVE_SIZE && |v.relocate| == RELOCATE_SIZE
    requires q.op.Noop? || Adds(q.op) || q.op.id < |v.listing|
  {
    && Linked(g, [orig] + conts, Intended(v, q).tail)
    && ChainListing(g, [orig] + conts) == Intended(v, q).listing
    && orig in g && g[orig].move == Intended(v, q).move && g[orig].relocate == Intended(v, q).relocate
  }

  /** The lower commit makes the whole chain visible at once. */
  lemma LowerCommit(cap: nat, log: seq<Item>, f0: Forest, f: Forest, v: View, q: Request, conts: seq<BlockPair>, end: nat, orig: BlockPair)
    requires CutTo(f0, f, v, q, conts, end) && conts != [] && end <= cap && orig in f0
    requires Reflects(log, v.listing) && EmitRange(log, v.listing, q.op, 0, end).Ok?
    requires Sized(q) && |v.move| == MOVE_SIZE && |v.relocate| == RELOCATE_SIZE && Collapse(v.tail) == v.tail
    requires Fits(q.op, |v.listing|, cap)
    ensures var items := LowerItems(EmitRange(log, v.listing, q.op, 0, end).value, v, q, conts[0]);
            Readable(cap, items) && SplitDone(f[orig := ViewOf(cap, items)], v, q, orig, conts)
  {
    var entries := EmitRange(log, v.listing, q.op, 0, end).value;
    RangeReads(cap, log, v.listing, q.op, 0, end);
    LowerReads(cap, entries, v, q, conts[0]);
    ChainHead(f, orig, ViewOf(cap, LowerItems(entries, v, q, conts[0])), conts, Collapse(EffectiveTail(v, q)));
    ListedWhole(q.op, v.listing, end, 0);
  }

  /** The cut positions decrease strictly, every piece between two of them fits, and each but the first is where halving leads. */
  predicate Cuts(log: seq<Item>, listing: seq<Slot>, op: WriteOp, bounds: seq<nat>, budget: nat) {
    |bounds| > 0 && bounds[0] == Total(op, listing)
    && forall i :: 0 <= i < |bounds| - 1 ==> CutAt(log, listing, op, bounds, budget, i)
  }

  predicate CutAt(log: seq<Item>, listing: seq<Slot>, op: WriteOp, bounds: seq<nat>, budget: nat, i: nat)
    requires i + 1 < |bounds|
  {
    && bounds[i + 1] < bounds[i] && PieceFits(log, listing, op, bounds[i + 1], bounds[i], budget)
    && (i > 0 ==> bounds[i + 1] == HalvingIndex(log, listing, op, 0, bounds[i], budget))
  }

  lemma CutsSnoc(log: seq<Item>, listing: seq<Slot>, op: WriteOp, bounds: seq<nat>, budget: nat, cut: nat)
    requires Cuts(log, listing, op, bounds, budget) && PieceFits(log, listing, op, cut, bounds[|bounds| - 1], budget)
    requires |bounds| > 1 ==> bounds[|bounds| - 1] > 0 && cut == HalvingIndex(log, listing, op, 0, bounds[|bounds| - 1], budget)
    ensures Cuts(log, listing, op, bounds + [cut], budget)
  {
    var more := bounds + [cut];
    forall i | 0 <= i < |more| - 1
      ensures CutAt(log, listing, op, more, budget, i)
    {
      if i < |bounds| - 1 {
        assert CutAt(log, listing, op, bounds, budget, i);
      }
    }
  }

  lemma CompleteWithin(listing: seq<Slot>, op: WriteOp, hi: nat, end: nat)
    requires Complete(listing, op, 0, hi) && end <= hi
    ensures Complete(listing, op, 0, end)
  {
  }

  /** The pairs of the pool from `n` on are distinct and unused. */
  predicate PoolLeft(f: Forest, pool: seq<BlockPair>, n: nat) {
    && (forall i :: n <= i < |pool| ==> Usable(f, pool[i]))
    && (forall i, j :: n <= i < j < |pool| ==> pool[i] != pool[j])
  }

  /** What the cut loop works on. */
  ghost predicate Splittable(cap: nat, log: seq<Item>, v: View, q: Request) {
    && Reflects(log, v.listing) && Fits(q.op, |v.listing|, cap) && |v.listing| <= cap
    && Sized(q) && |v.move| == MOVE_SIZE && |v.relocate| == RELOCATE_SIZE && Collapse(v.tail) == v.tail
    && Complete(v.listing, q.op, 0, Total(q.op, v.listing))
  }

  /** What holds after every cut. */
  ghost predicate CutState(log: seq<Item>, v: View, q: Request, f0: Forest, f: Forest, conts: seq<BlockPair>, end: nat,
                           bounds: seq<nat>, trace: seq<Forest>, budget: nat) {
    && CutTo(f0, f, v, q, conts, end)
    && Cuts(log, v.listing, q.op, bounds, budget) && |bounds| == |conts| + 1 && bounds[|bounds| - 1] == end
    && (forall i :: 0 <= i < |trace| ==> Preserves(f0, trace[i]))
  }

  lemma CutStateStep(cap: nat, log: seq<Item>, v: View, q: Request, f0: Forest, f: Forest, conts: seq<BlockPair>, end: nat,
                     bounds: seq<nat>, trace: seq<Forest>, budget: nat, cut: nat, pool: seq<BlockPair>)
    requires Splittable(cap, log, v, q) && CutState(log, v, q, f0, f, conts, end, bounds, trace, budget)
    requires PieceFits(log, v.listing, q.op, cut, end, budget) && PoolLeft(f, pool, |conts|) && |conts| < |pool|
    requires |conts| > 0 ==> end > 0 && cut == HalvingIndex(log, v.listing, q.op, 0, end, budget)
    ensures var c := pool[|conts|];
            var items := ContinuationItems(EmitRange(log, v.listing, q.op, cut, end).value, Pending(v, q, conts));
            && Readable(cap, items)
            && var g := f[c := ViewOf(cap, items)];
               && CutState(log, v, q, f0, g, [c] + conts, cut, bounds + [cut], trace + [g], budget)
               && PoolLeft(g, pool, |conts| + 1)
  {
    CutStep(cap, log, f0, f, v, q, conts, cut, end, pool[|conts|]);
    CutsSnoc(log, v.listing, q.op, bounds, budget, cut);
  }

  /** The block of every continuation fits; `conts` lists them newest first, `bounds` from the top. */
  ghost predicate AllFit(log: seq<Item>, v: View, q: Request, conts: seq<BlockPair>, bounds: seq<nat>, size: nat) {
    |bounds| == |conts| + 1 && forall i :: 0 <= i < |conts| ==> FitsAt(log, v, q, conts, bounds, size, i)
  }

  ghost predicate FitsAt(log: seq<Item>, v: View, q: Request, conts: seq<BlockPair>, bounds: seq<nat>, size: nat, i: nat)
    requires i < |conts| && |bounds| == |conts| + 1
  {
    bounds[i + 1] <= bounds[i] && EmitRange(log, v.listing, q.op, bounds[i + 1], bounds[i]).Ok? &&
    BlockFits(ContinuationItems(EmitRange(log, v.listing, q.op, bounds[i + 1], bounds[i]).value, Pending(v, q, conts[|conts| - i..])), size)
  }

  lemma AllFitSnoc(log: seq<Item>, v: View, q: Request, conts: seq<BlockPair>, bounds: seq<nat>, size: nat, cut: nat, c: BlockPair)
    requires AllFit(log, v, q, conts, bounds, size) && cut <= bounds[|conts|]
    requires EmitRange(log, v.listing, q.op, cut, bounds[|conts|]).Ok?
    requires BlockFits(ContinuationItems(EmitRange(log, v.listing, q.op, cut, bounds[|conts|]).value, Pending(v, q, conts)), size)
    ensures AllFit(log, v, q, [c] + conts, bounds + [cut], size)
  {
    var more, marks := [c] + conts, bounds + [cut];
    forall i | 0 <= i < |more|
      ensures FitsAt(log, v, q, more, marks, size, i)
    {
      if i < |conts| {
        assert FitsAt(log, v, q, conts, bounds, size, i) && more[|more| - i..] == conts[|conts| - i..];
      } else {
        assert more[1..] == conts;
      }
    }
  }

  /** The piece cut next is too big for its block. */
  ghost predicate OverflowsAt(log: seq<Item>, v: View, q: Request, conts: seq<BlockPair>, cut: nat, end: nat, size: nat, budget: nat) {
    PieceFits(log, v.listing, q.op, cut, end, budget) &&
    !BlockFits(ContinuationItems(EmitRange(log, v.listing, q.op, cut, end).value, Pending(v, q, conts)), size)
  }

  ghost predicate NextOverflows(log: seq<Item>, v: View, q: Request, conts: seq<BlockPair>, end: nat, size: nat, budget: nat) {
    exists cut :: OverflowsAt(log, v, q, conts, cut, end, size, budget)
  }

  /** One cut: the next pair of the pool is programmed, unless there is none or the piece is too big for it. */
  method CutNext(cap: nat, log: seq<Item>, v: View, q: Request, f: Forest, conts: seq<BlockPair>, end: nat, size: nat, budget: nat, cut: nat,
                 pool: seq<BlockPair>, ghost forest: Forest, ghost bounds: seq<nat>, ghost trace: seq<Forest>)
    returns (g: Option<Forest>)
    requires Splittable(cap, log, v, q) && CutState(log, v, q, forest, f, conts, end, bounds, trace, budget)
    requires PoolLeft(f, pool, |conts|) && |conts| <= |pool| && AllFit(log, v, q, conts, bounds, size)
    requires PieceFits(log, v.listing, q.op, cut, end, budget)
    requires |conts| > 0 ==> end > 0 && cut == HalvingIndex(log, v.listing, q.op, 0, end, budget)
    ensures g == None <==> |conts| == |pool| || OverflowsAt(log, v, q, conts, cut, end, size, budget)
    ensures g.Some? ==> var all := [pool[|conts|]] + conts;
                        && CutState(log, v, q, forest, g.value, all, cut, bounds + [cut], trace + [g.value], budget)
                        && AllFit(log, v, q, all, bounds + [cut], size) && PoolLeft(g.value, pool, |all|)
  {
    if |conts| >= |pool| {
      return None;
    }
    var c := pool[|conts|];
    var items := ContinuationItems(EmitRange(log, v.listing, q.op, cut, end).value, Pending(v, q, conts));
    if !BlockFits(items, size) {
      return None;
    }
    CutStateStep(cap, log, v, q, forest, f, conts, end, bounds, trace, budget, cut, pool);
    AllFitSnoc(log, v, q, conts, bounds, size, cut, c);
    return Some(f[c := ViewOf(cap, items)]);
  }

  /**
   The cut loop of `split_directory_pair`: continuations come off the top,
   each programmed on the next pair of the pool, until the rest fits or the
   ceiling is reached. It fails exactly when the pool runs out or a piece, which
   is then a single entry, is too big for its block.
   */
  method CutOff(cap: nat, log: seq<Item>, v: View, q: Request, forest: Forest, size: nat, budget: nat, split: nat, maxCuts: nat,
                pool: seq<BlockPair>)
    returns (ok: bool, f: Forest, conts: seq<BlockPair>, end: nat, ghost bounds: seq<nat>, ghost trace: seq<Forest>)
    requires Splittable(cap, log, v, q) && PoolLeft(forest, pool, 0) && maxCuts >= 1
    requires 0 < split && PieceFits(log, v.listing, q.op, split, Total(q.op, v.listing), budget)
    ensures CutState(log, v, q, forest, f, conts, end, bounds, trace, budget)
    ensures ok ==> 1 <= |conts| <= maxCuts
    ensures ok && |conts| < maxCuts ==> PieceFits(log, v.listing, q.op, 0, end, budget)
    ensures ok ==> AllFit(log, v, q, conts, bounds, size)
    ensures !ok ==> |conts| < maxCuts && (|conts| == |pool| || NextOverflows(log, v, q, conts, end, size, budget))
  {
    var cut := split;
    f, end := forest, Total(q.op, v.listing);
    conts, bounds, trace := [], [end], [forest];
    while true
      invariant 0 < cut && PieceFits(log, v.listing, q.op, cut, end, budget) && |conts| < maxCuts
      invariant AllFit(log, v, q, conts, bounds, size) && |conts| <= |pool|
      invariant |conts| > 0 ==> end > 0 && cut == HalvingIndex(log, v.listing, q.op, 0, end, budget)
      invariant CutState(log, v, q, forest, f, conts, end, bounds, trace, budget) && PoolLeft(f, pool, |conts|)
      decreases end
    {
      var next := CutNext(cap, log, v, q, f, conts, end, size, budget, cut, pool, forest, bounds, trace);
      if next == None {
        return false, f, conts, end, bounds, trace;
      }
      f := next.value;
      conts, bounds, trace, end := [pool[|conts|]] + conts, bounds + [cut], trace + [f], cut;
      if |conts| >= maxCuts {
        return true, f, conts, end, bounds, trace;
      }
      CompleteWithin(v.listing, q.op, Total(q.op, v.listing), end);
      var lower := ComputeSplit(log, v.listing, q.op, 0, end, budget);
      HalvingFits(log, v.listing, q.op, 0, end, budget);
      if lower.value == 0 {
        return true, f, conts, end, bounds, trace;
      }
      cut := lower.value;
    }
  }

  /** The pair's own block after the split fits. */
  predicate LowerFits(log: seq<Item>, v: View, q: Request, conts: seq<BlockPair>, end: nat, size: nat)
    requires Sized(q) && |v.move| == MOVE_SIZE && |v.relocate| == RELOCATE_SIZE
  {
    conts != [] && EmitRange(log, v.listing, q.op, 0, end).Ok? &&
    BlockFits(LowerItems(EmitRange(log, v.listing, q.op, 0, end).value, v, q, conts[0]), size)
  }

  /** `finish_split_lower_half`: the one commit that makes the continuations reachable, if its block fits. */
  method FinishLowerHalf(cap: nat, log: seq<Item>, v: View, q: Request, f: Forest, orig: BlockPair, conts: seq<BlockPair>, end: nat,
                         size: nat, ghost forest: Forest) returns (r: Result<Forest>)
    requires Splittable(cap, log, v, q) && CutTo(forest, f, v, q, conts, end) && conts != [] && orig in forest
    ensures r.Ok? <==> LowerFits(log, v, q, conts, end, size)
    ensures r.Err? ==> r.error == OutOfRange
    ensures r.Ok? ==> SplitDone(r.value, v, q, orig, conts) && Stateless(r.value, conts)
    ensures r.Ok? ==> forall p :: p in forest && p != orig ==> p in r.value && r.value[p] == forest[p]
    ensures r.Ok? ==> Between(forest, r.value, conts)
  {
    CompleteWithin(v.listing, q.op, Total(q.op, v.listing), end);
    EmitRangeSucceeds(log, v.listing, q.op, 0, end);
    LowerCommit(cap, log, forest, f, v, q, conts, end, orig);
    var items := LowerItems(EmitRange(log, v.listing, q.op, 0, end).value, v, q, conts[0]);
    if !BlockFits(items, size) {
      return Err(OutOfRange);
    }
    return Ok(f[orig := ViewOf(cap, items)]);
  }

  /**
   `split_directory_pair`: after the cuts, the lower entries are committed on
   `orig` with a link to the newest continuation. It fails, leaving all that was
   readable as it was, exactly when the pool runs out before the ceiling, a single
   entry is too big for its block, or the rest is too big for the pair's own.
   */
  method SplitDirectory(cap: nat, log: seq<Item>, v: View, q: Request, forest: Forest, orig: BlockPair, size: nat, budget: nat,
                        split: nat, maxCuts: nat, pool: seq<BlockPair>)
    returns (r: Result<Forest>, conts: seq<BlockPair>, ghost end: nat, ghost bounds: seq<nat>, ghost trace: seq<Forest>)
    requires Splittable(cap, log, v, q) && PoolLeft(forest, pool, 0) && maxCuts >= 1 && orig in forest
    requires 0 < split && PieceFits(log, v.listing, q.op, split, Total(q.op, v.listing), budget)
    ensures r.Ok? ==> SplitDone(r.value, v, q, orig, conts) && Cuts(log, v.listing, q.op, bounds, budget) && |bounds| == |conts| + 1 > 1
    ensures r.Ok? ==> forall p :: p in forest && p != orig ==> p in r.value && r.value[p] == forest[p]
    ensures r.Ok? ==> Stateless(r.value, conts) && Between(forest, r.value, conts)
    ensures forall i :: 0 <= i < |conts| ==> Usable(forest, conts[i])
    ensures forall i, j :: 0 <= i < j < |conts| ==> conts[i] != conts[j]
    ensures forall i :: 0 <= i < |trace| ==> Preserves(forest, trace[i])
    ensures r.Ok? ==> AllFit(log, v, q, conts, bounds, size) && LowerFits(log, v, q, conts, end, size)
    ensures r.Err? ==> r.error == OutOfRange
    ensures r.Err? ==> (|conts| < maxCuts && (|conts| == |pool| || NextOverflows(log, v, q, conts, end, size, budget))) ||
                       !LowerFits(log, v, q, conts, end, size)
  {
    var ok, f, rest;
    ok, f, conts, rest, bounds, trace := CutOff(cap, log, v, q, forest, size, budget, split, maxCuts, pool);
    end := rest;
    if !ok {
      return Err(OutOfRange), conts, end, bounds, trace;
    }
    r := FinishLowerHalf(cap, log, v, q, f, orig, conts, rest, size, forest);
  }
}
