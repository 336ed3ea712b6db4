/**
 What a commit may leave (`apply_op_to_pair_inner` and `compact_and_program` in
 `src/fs.rs`): the pair as intended in its own block or, if that overflows, split
 over continuations that stand behind it on the thread. Nobody who reads
 directories can tell which.
 */
module Landings {
  import opened Words
  import opened Directory
  import Compaction
  import opened Rebuild
  import opened Split
  import opened Gstate
  import opened Protocol
  import opened Conservation

  /** The forest after a commit, and the continuations it made, none if the block did not overflow. */
  datatype Landing = Landing(forest: Forest, conts: seq<BlockPair>)

  /** The request `q` on pair `p` of `f` may land as `l`. */
  predicate Lands(f: Forest, p: BlockPair, q: Request, l: Landing)
    requires Sane(f) && p in f && Applies(f[p], q)
  {
    && Sane(l.forest) && SplitDone(l.forest, f[p], q, p, l.conts) && Stateless(l.forest, l.conts) && OthersKept(f, p, l.forest)
    && Distinct(l.conts) && forall i :: 0 <= i < |l.conts| ==> Usable(f, l.conts[i])
  }

  predicate OthersKept(f: Forest, p: BlockPair, g: Forest) {
    forall o :: o in f && o != p ==> o in g && g[o] == f[o]
  }

  /** Decides how each commit lands. */
  type Lander = (Forest, BlockPair, Request) -> Landing

  ghost predicate Honest(land: Lander) {
    forall f, p, q :: HonestAt(land, f, p, q)
  }

  predicate HonestAt(land: Lander, f: Forest, p: BlockPair, q: Request) {
    Sane(f) && p in f && Applies(f[p], q) ==> Lands(f, p, q, land(f, p, q))
  }

  function Plainly(f: Forest, p: BlockPair, q: Request): Landing {
    Landing(if Sane(f) && p in f && Applies(f[p], q) then Commit(f, p, q) else f, [])
  }

  lemma PlainLands(f: Forest, p: BlockPair, q: Request)
    requires Sane(f) && p in f && Applies(f[p], q)
    ensures Lands(f, p, q, Landing(Commit(f, p, q), []))
  {
    var g := Commit(f, p, q);
    assert [p] + [] == [p] && [p][1..] == [];
    assert ChainListing(g, [p]) == g[p].listing + [];
  }

  /** A commit that never splits is one way to land. */
  lemma PlainlyHonest()
    ensures Honest(Plainly)
  {
    forall f, p, q
      ensures HonestAt(Plainly, f, p, q)
    {
      if Sane(f) && p in f && Applies(f[p], q) {
        PlainLands(f, p, q);
      }
    }
  }

  /** `split_directory_pair` lands the request. */
  method SplitLanding(cap: nat, log: seq<Item>, q: Request, f: Forest, p: BlockPair, size: nat, budget: nat, split: nat, maxCuts: nat,
                      pool: seq<BlockPair>)
    returns (r: Result<Landing>, ghost done: seq<BlockPair>, ghost end: nat)
    requires Sane(f) && p in f && Applies(f[p], q) && Splittable(cap, log, f[p], q) && PoolLeft(f, pool, 0) && maxCuts >= 1
    requires 0 < split && PieceFits(log, f[p].listing, q.op, split, Compaction.Total(q.op, f[p].listing), budget)
    ensures r.Ok? ==> Lands(f, p, q, r.value) && r.value.conts != []
    ensures r.Err? ==> r.error == OutOfRange
    ensures r.Err? ==> (|done| < maxCuts && (|done| == |pool| || NextOverflows(log, f[p], q, done, end, size, budget))) ||
                       !LowerFits(log, f[p], q, done, end, size)
  {
    var g, conts;
    ghost var bounds, trace;
    g, conts, end, bounds, trace := SplitDirectory(cap, log, f[p], q, f, p, size, budget, split, maxCuts, pool);
    done := conts;
    if g.Err? {
      return Err(g.error), done, end;
    }
    ChainProper(f, p, q, g.value, conts);
    return Ok(Landing(g.value, conts)), done, end;
  }

  lemma ChainProper(f: Forest, p: BlockPair, q: Request, g: Forest, conts: seq<BlockPair>)
    requires Sane(f) && p in f && Applies(f[p], q) && SplitDone(g, f[p], q, p, conts) && Stateless(g, conts)
    requires OthersKept(f, p, g) && Between(f, g, conts) && forall i :: 0 <= i < |conts| ==> Usable(f, conts[i])
    ensures Sane(g)
  {
    var chain := [p] + conts;
    forall i | 0 <= i < |chain|
      ensures Gstate.Proper(g[chain[i]])
    {
      assert LinkedAt(g, chain, Intended(f[p], q).tail, i);
      assert i > 0 ==> chain[i] == conts[i - 1];
      assert i + 1 < |chain| ==> chain[i + 1] == conts[i];
    }
    forall o | o in g
      ensures Gstate.Proper(g[o])
    {
      if o in conts {
        var i :| 0 <= i < |conts| && conts[i] == o;
        assert chain[i + 1] == o;
      } else if o == p {
        assert chain[0] == p;
      }
    }
  }

  // ---- The thread ----------------------------------------------------------------------

  /** The thread with `conts` right behind `p`. */
  function Insert(thread: seq<BlockPair>, p: BlockPair, conts: seq<BlockPair>): seq<BlockPair> {
    if thread == [] then []
    else if thread[0] == p then ([p] + conts) + thread[1..]
    else [thread[0]] + Insert(thread[1..], p, conts)
  }

  lemma {:induction false} InsertAt(before: seq<BlockPair>, p: BlockPair, after: seq<BlockPair>, conts: seq<BlockPair>)
    requires p !in before
    ensures Insert((before + [p]) + after, p, conts) == (before + ([p] + conts)) + after
  {
    var thread := (before + [p]) + after;
    if before == [] {
      assert thread == [p] + after && thread[1..] == after;
    } else {
      assert thread[0] == before[0] && thread[1..] == (before[1..] + [p]) + after;
      InsertAt(before[1..], p, after, conts);
      assert [before[0]] + ((before[1..] + ([p] + conts)) + after) == (before + ([p] + conts)) + after;
    }
  }

  lemma {:induction false} InsertHas(thread: seq<BlockPair>, p: BlockPair, conts: seq<BlockPair>, x: BlockPair)
    requires p in thread
    ensures x in Insert(thread, p, conts) <==> x in thread || x in conts
  {
    if thread[0] != p {
      InsertHas(thread[1..], p, conts, x);
    }
  }

  lemma {:induction false} InsertNothing(thread: seq<BlockPair>, p: BlockPair)
    ensures Insert(thread, p, []) == thread
  {
    if thread != [] && thread[0] != p {
      InsertNothing(thread[1..], p);
    }
  }

  lemma Around(thread: seq<BlockPair>, p: BlockPair) returns (before: seq<BlockPair>, after: seq<BlockPair>)
    requires p in thread && Distinct(thread)
    ensures thread == (before + [p]) + after && p !in before && p !in after
  {
    var i :| 0 <= i < |thread| && thread[i] == p;
    before, after := thread[..i], thread[i + 1..];
  }

  // ---- Directories ---------------------------------------------------------------------

  /** A directory: the pair that begins it, and its entries. */
  datatype Dir = Dir(head: BlockPair, listing: seq<Slot>)

  /** The directories along the thread; a hard link continues the one it stands in. */
  function Dirs(f: Forest, thread: seq<BlockPair>): seq<Dir>
    requires AllIn(f, thread)
  {
    if thread == [] then [] else Begun(thread[0], f[thread[0]].listing, f[thread[0]].tail, Dirs(f, thread[1..]))
  }

  function Begun(p: BlockPair, listing: seq<Slot>, tail: Option<Thread>, rest: seq<Dir>): (r: seq<Dir>)
    ensures r != []
  {
    if tail.Some? && tail.value.hard && rest != [] then [Dir(p, listing + rest[0].listing)] + rest[1..] else [Dir(p, listing)] + rest
  }

  lemma BegunApart(p: BlockPair, listing: seq<Slot>, tail: Option<Thread>, a: seq<Dir>, b: seq<Dir>)
    requires a != []
    ensures Begun(p, listing, tail, a + b) == Begun(p, listing, tail, a) + b
  {
  }

  lemma {:induction false} DirsBehind(f: Forest, g: Forest, before: seq<BlockPair>, x: seq<BlockPair>, y: seq<BlockPair>)
    requires AllIn(f, before + x) && AllIn(g, before + y) && AllIn(f, x) && AllIn(g, y) && Dirs(f, x) == Dirs(g, y)
    requires forall i :: 0 <= i < |before| ==> before[i] in f && before[i] in g && g[before[i]] == f[before[i]]
    ensures Dirs(f, before + x) == Dirs(g, before + y)
  {
    if before == [] {
      assert before + x == x && before + y == y;
    } else {
      assert (before + x)[1..] == before[1..] + x && (before + y)[1..] == before[1..] + y;
      DirsBehind(f, g, before[1..], x, y);
    }
  }

  lemma {:induction false} DirsSame(f: Forest, g: Forest, thread: seq<BlockPair>)
    requires AllIn(f, thread) && AllIn(g, thread)
    requires forall i :: 0 <= i < |thread| ==> g[thread[i]].listing == f[thread[i]].listing && g[thread[i]].tail == f[thread[i]].tail
    ensures Dirs(f, thread) == Dirs(g, thread)
  {
    if thread != [] {
      DirsSame(f, g, thread[1..]);
    }
  }

  /** A hard linked chain reads as one pair that holds all its entries. */
  lemma {:induction false} DirsChain(g: Forest, chain: seq<BlockPair>, last: Option<Thread>, after: seq<BlockPair>)
    requires chain != [] && Linked(g, chain, last) && AllIn(g, after) && AllIn(g, chain + after)
    ensures Dirs(g, chain + after) == Begun(chain[0], ChainListing(g, chain), last, Dirs(g, after))
  {
    var p, more := chain[0], chain[1..];
    assert (chain + after)[1..] == more + after;
    assert LinkedAt(g, chain, last, 0) && (chain + after)[0] == p;
    assert ChainListing(g, chain) == g[p].listing + ChainListing(g, more);
    if more == [] {
      assert more + after == after && ChainListing(g, chain) == g[p].listing;
    } else {
      forall i | 0 <= i < |more|
        ensures LinkedAt(g, more, last, i)
      {
        assert LinkedAt(g, chain, last, i + 1);
      }
      DirsChain(g, more, last, after);
      assert g[p].tail == Some(Thread(more[0], true));
      BegunTwice(p, g[p].listing, g[p].tail, more[0], ChainListing(g, more), last, Dirs(g, after));
    }
  }

  lemma BegunTwice(p: BlockPair, listing: seq<Slot>, tail: Option<Thread>, next: BlockPair, more: seq<Slot>, last: Option<Thread>, rest: seq<Dir>)
    requires tail.Some? && tail.value.hard
    ensures Begun(p, listing, tail, Begun(next, more, last, rest)) == Begun(p, listing + more, last, rest)
  {
    if last.Some? && last.value.hard && rest != [] {
      assert listing + (more + rest[0].listing) == (listing + more) + rest[0].listing;
    }
  }

  /** `g` reads as `f` along the thread, whatever else either holds. */
  predicate Along(g: Forest, f: Forest, thread: seq<BlockPair>) {
    Sane(g) && forall p :: p in thread ==> p in g && p in f && g[p] == f[p]
  }

  /** Pairs off the thread do not matter. */
  lemma OffThread(f: Forest, g: Forest, thread: seq<BlockPair>)
    requires Threaded(f, thread) && Along(g, f, thread)
    ensures Threaded(g, thread) && Of(g, thread) == Of(f, thread) && Dirs(g, thread) == Dirs(f, thread)
  {
    forall i | 0 <= i < |thread|
      ensures thread[i] in g && thread[i] in f && g[thread[i]] == f[thread[i]] && ThreadedAt(g, thread, i)
    {
      assert thread[i] in thread && ThreadedAt(f, thread, i);
    }
    SumFrame(Moves, f, g, thread);
    SumFrame(Relocations, f, g, thread);
    DirsSame(f, g, thread);
  }

  lemma OnThread(f: Forest, thread: seq<BlockPair>)
    requires Threaded(f, thread)
    ensures Along(f, f, thread)
  {
    forall p | p in thread
      ensures p in f
    {
      var i :| 0 <= i < |thread| && thread[i] == p;
      assert thread[i] in f;
    }
  }

  // ---- One landing ---------------------------------------------------------------------

  lemma LandingSplits(f: Forest, thread: seq<BlockPair>, p: BlockPair, q: Request, l: Landing, before: seq<BlockPair>, after: seq<BlockPair>)
    requires Sane(f) && p in f && Applies(f[p], q) && Lands(f, p, q, l)
    requires Threaded(Commit(f, p, q), thread) && thread == (before + [p]) + after && p !in before && p !in after
    ensures SplitResult(f, l.forest, before, p, after, l.conts, q)
    ensures AllIn(f, before) && AllIn(f, after) && AllIn(l.forest, before) && AllIn(l.forest, after)
    ensures forall i :: 0 <= i < |before| ==> l.forest[before[i]] == f[before[i]]
    ensures forall i :: 0 <= i < |after| ==> l.forest[after[i]] == f[after[i]]
  {
    var b := |before|;
    forall i | 0 <= i < b
      ensures before[i] in f && before[i] != p
    {
      assert thread[i] == before[i];
    }
    forall i | 0 <= i < |after|
      ensures after[i] in f && after[i] != p
    {
      assert thread[b + 1 + i] == after[i];
    }
  }

  lemma LandingSum(k: Kind, f: Forest, thread: seq<BlockPair>, p: BlockPair, q: Request, l: Landing, before: seq<BlockPair>, after: seq<BlockPair>)
    requires Sane(f) && p in f && Applies(f[p], q) && Lands(f, p, q, l)
    requires Threaded(Commit(f, p, q), thread) && thread == (before + [p]) + after && p !in before && p !in after
    ensures AllIn(l.forest, (before + ([p] + l.conts)) + after)
    ensures Sum(k, l.forest, (before + ([p] + l.conts)) + after) == Sum(k, Commit(f, p, q), thread)
  {
    LandingSplits(f, thread, p, q, l, before, after);
    SplitConserves(k, f, l.forest, before, p, after, l.conts, q);
    assert thread[|before|] == p;
    CommitMovesSum(k, f, thread, |before|, q);
  }

  lemma LandingDirs(f: Forest, thread: seq<BlockPair>, p: BlockPair, q: Request, l: Landing, before: seq<BlockPair>, after: seq<BlockPair>)
    requires Sane(f) && p in f && Applies(f[p], q) && Lands(f, p, q, l)
    requires Threaded(Commit(f, p, q), thread) && thread == (before + [p]) + after && p !in before && p !in after
    requires AllIn(l.forest, (before + ([p] + l.conts)) + after)
    ensures Dirs(l.forest, (before + ([p] + l.conts)) + after) == Dirs(Commit(f, p, q), thread)
  {
    var g, h, chain := Commit(f, p, q), l.forest, [p] + l.conts;
    LandingSplits(f, thread, p, q, l, before, after);
    assert (before + chain) + after == before + (chain + after) && thread == before + ([p] + after);
    assert ([p] + after)[1..] == after;
    ChainIn(h, before, chain, after);
    DirsSame(g, h, after);
    DirsChain(h, chain, Intended(f[p], q).tail, after);
    DirsBehind(g, h, before, [p] + after, chain + after);
  }

  lemma ChainIn(h: Forest, before: seq<BlockPair>, chain: seq<BlockPair>, after: seq<BlockPair>)
    requires AllIn(h, (before + chain) + after)
    ensures AllIn(h, chain + after) && AllIn(h, before + (chain + after))
  {
    var all, b := (before + chain) + after, |before|;
    assert all == before + (chain + after);
    assert forall i :: 0 <= i < |chain + after| ==> (chain + after)[i] == all[b + i];
  }

  /**
   However a commit lands, the thread runs on through its continuations, the
   aggregate is that of the plain commit, and so is every directory.
   */
  lemma LandingReads(f: Forest, thread: seq<BlockPair>, p: BlockPair, q: Request, l: Landing)
    requires Sane(f) && p in f && Applies(f[p], q) && Lands(f, p, q, l)
    requires Threaded(Commit(f, p, q), thread) && p in thread
    ensures Threaded(l.forest, Insert(thread, p, l.conts))
    ensures Of(l.forest, Insert(thread, p, l.conts)) == Of(Commit(f, p, q), thread)
    ensures Dirs(l.forest, Insert(thread, p, l.conts)) == Dirs(Commit(f, p, q), thread)
  {
    var before, after := Around(thread, p);
    InsertAt(before, p, after, l.conts);
    LandingSplits(f, thread, p, q, l, before, after);
    SplitKeepsThread(f, l.forest, before, p, after, l.conts, q);
    LandingSum(Moves, f, thread, p, q, l, before, after);
    LandingSum(Relocations, f, thread, p, q, l, before, after);
    LandingDirs(f, thread, p, q, l, before, after);
  }

  /** The same, of a commit on a forest that only reads as `f` along the thread. */
  lemma LandingAlong(f: Forest, thread: seq<BlockPair>, p: BlockPair, q: Request, c: Forest, l: Landing)
    requires Sane(f) && p in f && Applies(f[p], q) && Threaded(Commit(f, p, q), thread) && p in thread
    requires Along(c, f, thread) && Lands(c, p, q, l)
    ensures Threaded(l.forest, Insert(thread, p, l.conts))
    ensures Of(l.forest, Insert(thread, p, l.conts)) == Of(Commit(f, p, q), thread)
    ensures Dirs(l.forest, Insert(thread, p, l.conts)) == Dirs(Commit(f, p, q), thread)
  {
    OffThread(Commit(f, p, q), Commit(c, p, q), thread);
    LandingReads(c, thread, p, q, l);
  }

  // ---- Two landings --------------------------------------------------------------------

  /** A later commit on another pair does not undo a landing, and the plain commits commute. */
  lemma LandsCommutes(f: Forest, p: BlockPair, q: Request, l: Landing, x: BlockPair, r: Request)
    requires Sane(f) && p in f && Applies(f[p], q) && Lands(f, p, q, l)
    requires x in f && x != p && Applies(f[x], r)
    ensures x in l.forest && l.forest[x] == f[x] && Applies(Commit(f, x, r)[p], q) && Applies(Commit(f, p, q)[x], r)
    ensures Lands(Commit(f, x, r), p, q, Landing(Commit(l.forest, x, r), l.conts))
    ensures Commit(Commit(f, x, r), p, q) == Commit(Commit(f, p, q), x, r)
  {
    CommitsCommute(f, p, q, x, r);
    var chain := [p] + l.conts;
    forall i | 0 <= i < |chain|
      ensures chain[i] != x
    {
      assert i > 0 ==> chain[i] == l.conts[i - 1] && Usable(f, l.conts[i - 1]);
    }
    LandsElsewhere(f, p, q, l, Commit(f, x, r), Commit(l.forest, x, r), x);
  }

  lemma CommitsCommute(f: Forest, p: BlockPair, q: Request, x: BlockPair, r: Request)
    requires Sane(f) && p in f && Applies(f[p], q) && x in f && x != p && Applies(f[x], r)
    ensures Applies(Commit(f, x, r)[p], q) && Applies(Commit(f, p, q)[x], r)
    ensures Commit(Commit(f, x, r), p, q) == Commit(Commit(f, p, q), x, r)
  {
  }

  lemma LandsElsewhere(f: Forest, p: BlockPair, q: Request, l: Landing, g: Forest, h: Forest, x: BlockPair)
    requires Sane(f) && p in f && Applies(f[p], q) && Lands(f, p, q, l) && x in f && x != p
    requires Sane(g) && g.Keys == f.Keys && OthersKept(f, x, g)
    requires Sane(h) && h.Keys == l.forest.Keys && OthersKept(l.forest, x, h) && h[x] == g[x]
    requires forall i :: 0 <= i < |[p] + l.conts| ==> ([p] + l.conts)[i] != x
    ensures Lands(g, p, q, Landing(h, l.conts))
  {
    ChainFrame(l.forest, h, [p] + l.conts, Intended(f[p], q).tail);
    forall i | 0 <= i < |l.conts|
      ensures l.conts[i] in h && h[l.conts[i]] == l.forest[l.conts[i]]
    {
      assert ([p] + l.conts)[i + 1] == l.conts[i];
    }
  }

  /** Two commits on different pairs, each landing as it may, read as the two plain ones. */
  lemma TwoLandings(f: Forest, thread: seq<BlockPair>, p: BlockPair, q: Request, l: Landing, x: BlockPair, r: Request, m: Landing)
    requires Sane(f) && p in f && Applies(f[p], q) && Lands(f, p, q, l)
    requires x in f && x != p && Applies(f[x], r) && x in l.forest && l.forest[x] == f[x] && Lands(l.forest, x, r, m)
    requires Threaded(Commit(Commit(f, p, q), x, r), thread) && p in thread && x in thread
    ensures var t, h := Insert(Insert(thread, p, l.conts), x, m.conts), Commit(Commit(f, p, q), x, r);
            Threaded(m.forest, t) && Of(m.forest, t) == Of(h, thread) && Dirs(m.forest, t) == Dirs(h, thread)
  {
    LandsCommutes(f, p, q, l, x, r);
    LandingReads(Commit(f, x, r), thread, p, q, Landing(Commit(l.forest, x, r), l.conts));
    InsertHas(thread, p, l.conts, x);
    LandingReads(l.forest, Insert(thread, p, l.conts), x, r, m);
  }

  // ---- Landings where links, not only tails, lead on ----------------------------------------

  lemma {:induction false} ChainHolder(g: Forest, chain: seq<BlockPair>, s: Slot) returns (m: nat)
    requires AllIn(g, chain) && s in ChainListing(g, chain)
    ensures m < |chain| && s in g[chain[m]].listing
  {
    if s in g[chain[0]].listing {
      m := 0;
    } else {
      var k := ChainHolder(g, chain[1..], s);
      m := k + 1;
    }
  }

  /** What the plain commit's pair names, some pair of the chain names. */
  lemma ChainNames(f: Forest, p: BlockPair, q: Request, l: Landing, t: BlockPair) returns (m: nat)
    requires Sane(f) && p in f && Applies(f[p], q) && Lands(f, p, q, l) && Names(Commit(f, p, q), p, t)
    ensures m <= |l.conts| && ([p] + l.conts)[m] in l.forest && Names(l.forest, ([p] + l.conts)[m], t)
  {
    var v, chain := Intended(f[p], q), [p] + l.conts;
    if v.tail.Some? && v.tail.value.pair == t {
      m := |l.conts|;
      assert LinkedAt(l.forest, chain, v.tail, m);
    } else {
      var n :| 0 <= n < |v.listing| && ChildOf(v.listing[n]) == Some(t);
      assert v.listing[n] in ChainListing(l.forest, chain);
      m := ChainHolder(l.forest, chain, v.listing[n]);
      var j :| 0 <= j < |l.forest[chain[m]].listing| && l.forest[chain[m]].listing[j] == v.listing[n];
    }
  }

  /** A search list and where the pair stands in it. */
  ghost predicate SpansAround(f: Forest, p: BlockPair, q: Request, l: Landing, before: seq<BlockPair>, after: seq<BlockPair>) {
    && Sane(f) && p in f && Applies(f[p], q) && Lands(f, p, q, l) && p !in before && p !in after
    && Spans(Commit(f, p, q), (before + [p]) + after)
  }

  lemma AroundAt(before: seq<BlockPair>, p: BlockPair, conts: seq<BlockPair>, after: seq<BlockPair>, i: nat)
    requires i < |(before + ([p] + conts)) + after|
    ensures var u, was, b, n := (before + ([p] + conts)) + after, (before + [p]) + after, |before|, |conts|;
            && (i < b ==> u[i] == was[i]) && (b <= i <= b + n ==> u[i] == ([p] + conts)[i - b]) && (i > b + n ==> u[i] == was[i - n])
  {
  }

  lemma SpansIn(f: Forest, p: BlockPair, q: Request, l: Landing, before: seq<BlockPair>, after: seq<BlockPair>, o: nat)
    requires SpansAround(f, p, q, l, before, after) && o < |(before + [p]) + after| && o != |before|
    ensures var x := ((before + [p]) + after)[o]; x != p && x in f && x in l.forest && l.forest[x] == f[x]
  {
    var was := (before + [p]) + after;
    assert o < |before| ==> was[o] == before[o];
    assert o > |before| ==> was[o] == after[o - |before| - 1];
  }

  /** All that the view links to is listed. */
  predicate LinksIn(v: View, u: seq<BlockPair>) {
    (v.tail.Some? ==> v.tail.value.pair in u) && ChildrenOn(v, u)
  }

  lemma LinksOf(g: Forest, was: seq<BlockPair>, o: nat, u: seq<BlockPair>)
    requires o < |was| && was[o] in g && LinksWithin(g, was, o) && forall x :: x in was ==> x in u
    ensures LinksIn(g[was[o]], u)
  {
  }

  lemma LinksAtIndex(g: Forest, u: seq<BlockPair>, i: nat)
    requires i < |u| && u[i] in g && LinksIn(g[u[i]], u)
    ensures LinksWithin(g, u, i)
  {
  }

  lemma SpansLinks(f: Forest, p: BlockPair, q: Request, l: Landing, before: seq<BlockPair>, after: seq<BlockPair>, i: nat)
    requires SpansAround(f, p, q, l, before, after) && i < |(before + ([p] + l.conts)) + after|
    ensures var u := (before + ([p] + l.conts)) + after; u[i] in l.forest && LinksWithin(l.forest, u, i)
  {
    var u, was, b, n := (before + ([p] + l.conts)) + after, (before + [p]) + after, |before|, |l.conts|;
    AroundAt(before, p, l.conts, after, i);
    HasAll(before, p, l.conts, after);
    if b <= i <= b + n {
      ChainLinks(f, p, q, l, u, i - b, was);
    } else {
      var o := if i < b then i else i - n;
      SpansIn(f, p, q, l, before, after, o);
      LinksOf(Commit(f, p, q), was, o, u);
    }
    LinksAtIndex(l.forest, u, i);
  }

  lemma HasAll(before: seq<BlockPair>, p: BlockPair, conts: seq<BlockPair>, after: seq<BlockPair>)
    ensures var u, was := (before + ([p] + conts)) + after, (before + [p]) + after;
            p in was && (forall x :: x in was ==> x in u) && forall x :: x in [p] + conts ==> x in u
  {
  }

  lemma ChainLinks(f: Forest, p: BlockPair, q: Request, l: Landing, u: seq<BlockPair>, m: nat, was: seq<BlockPair>)
    requires Sane(f) && p in f && Applies(f[p], q) && Lands(f, p, q, l) && m <= |l.conts|
    requires p in was && Spans(Commit(f, p, q), was) && (forall x :: x in was ==> x in u) && (forall x :: x in [p] + l.conts ==> x in u)
    ensures var x := ([p] + l.conts)[m]; x in l.forest && LinksIn(l.forest[x], u)
  {
    var g, chain := Commit(f, p, q), [p] + l.conts;
    var o :| 0 <= o < |was| && was[o] == p;
    assert LinksWithin(g, was, o);
    assert LinkedAt(l.forest, chain, g[p].tail, m);
    assert m + 1 < |chain| ==> chain[m + 1] in chain;
    ChainChildren(l.forest, chain, m, g[p].listing, u);
  }

  /** Where a pair other than `p` stands in the longer list. */
  function Later(b: nat, n: nat, o: nat): nat {
    if o <= b then o else o + n
  }

  lemma LaterAt(before: seq<BlockPair>, p: BlockPair, conts: seq<BlockPair>, after: seq<BlockPair>, o: nat)
    requires o < |(before + [p]) + after|
    ensures var u, was, i := (before + ([p] + conts)) + after, (before + [p]) + after, Later(|before|, |conts|, o);
            i < |u| && u[i] == was[o]
  {
  }

  lemma NamedAgain(f: Forest, p: BlockPair, q: Request, l: Landing, before: seq<BlockPair>, after: seq<BlockPair>, j: nat, o: nat)
    returns (k: nat)
    requires SpansAround(f, p, q, l, before, after) && j < o < |(before + [p]) + after|
    requires var was := (before + [p]) + after; Names(Commit(f, p, q), was[j], was[o])
    ensures var u, was := (before + ([p] + l.conts)) + after, (before + [p]) + after;
            k < Later(|before|, |l.conts|, o) && k < |u| && u[k] in l.forest && Names(l.forest, u[k], was[o])
  {
    var was, b := (before + [p]) + after, |before|;
    LaterAt(before, p, l.conts, after, j);
    if j == b {
      var m := ChainNames(f, p, q, l, was[o]);
      AroundAt(before, p, l.conts, after, b + m);
      k := b + m;
    } else {
      SpansIn(f, p, q, l, before, after, j);
      k := Later(b, |l.conts|, j);
    }
  }

  lemma ContNamed(g: Forest, chain: seq<BlockPair>, last: Option<Thread>, m: nat)
    requires Linked(g, chain, last) && m + 1 < |chain|
    ensures Names(g, chain[m], chain[m + 1])
  {
    assert LinkedAt(g, chain, last, m);
  }

  lemma SpansNamed(f: Forest, p: BlockPair, q: Request, l: Landing, before: seq<BlockPair>, after: seq<BlockPair>, i: nat)
    requires SpansAround(f, p, q, l, before, after) && 0 < i < |(before + ([p] + l.conts)) + after|
    requires var u := (before + ([p] + l.conts)) + after; forall j :: 0 <= j < |u| ==> u[j] in l.forest
    ensures NamedBefore(l.forest, (before + ([p] + l.conts)) + after, i)
  {
    var b, n, was := |before|, |l.conts|, (before + [p]) + after;
    AroundAt(before, p, l.conts, after, i);
    if b < i <= b + n {
      AroundAt(before, p, l.conts, after, i - 1);
      ContNamed(l.forest, [p] + l.conts, Intended(f[p], q).tail, i - 1 - b);
    } else {
      var o := if i <= b then i else i - n;
      assert NamedBefore(Commit(f, p, q), was, o);
      var j :| 0 <= j < o && Names(Commit(f, p, q), was[j], was[o]);
      var k := NamedAgain(f, p, q, l, before, after, j, o);
    }
  }

  lemma SpansSum(k: Kind, f: Forest, p: BlockPair, q: Request, l: Landing, before: seq<BlockPair>, after: seq<BlockPair>)
    requires SpansAround(f, p, q, l, before, after)
    ensures AllIn(l.forest, (before + ([p] + l.conts)) + after)
    ensures Sum(k, l.forest, (before + ([p] + l.conts)) + after) == Sum(k, Commit(f, p, q), (before + [p]) + after)
  {
    var was := (before + [p]) + after;
    forall i | 0 <= i < |before|
      ensures before[i] in f
    {
      assert was[i] == before[i];
    }
    forall i | 0 <= i < |after|
      ensures after[i] in f
    {
      assert was[|before| + 1 + i] == after[i];
    }
    GrownConserves(k, f, l.forest, before, p, after, l.conts, q);
    assert was[|before|] == p;
    CommitMovesSum(k, f, was, |before|, q);
  }

  /** However a commit lands, links reach the same pairs and its continuations, and the aggregate is the same. */
  lemma LandingSpans(f: Forest, pairs: seq<BlockPair>, p: BlockPair, q: Request, l: Landing)
    requires Sane(f) && p in f && Applies(f[p], q) && Lands(f, p, q, l) && Spans(Commit(f, p, q), pairs) && p in pairs
    ensures Spans(l.forest, Insert(pairs, p, l.conts))
    ensures Of(l.forest, Insert(pairs, p, l.conts)) == Of(Commit(f, p, q), pairs)
  {
    var before, after := Around(pairs, p);
    InsertAt(before, p, after, l.conts);
    var u := (before + ([p] + l.conts)) + after;
    forall i | 0 <= i < |u|
      ensures u[i] in l.forest && LinksWithin(l.forest, u, i)
    {
      SpansLinks(f, p, q, l, before, after, i);
    }
    forall i | 0 < i < |u|
      ensures NamedBefore(l.forest, u, i)
    {
      SpansNamed(f, p, q, l, before, after, i);
    }
    SplitNoRepeats(f, before, p, after, l.conts);
    SpansSum(Moves, f, p, q, l, before, after);
    SpansSum(Relocations, f, p, q, l, before, after);
  }
}
