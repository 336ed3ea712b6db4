/**
 Moving a pair to a fresh block (`compact_and_program`,
 `relocate_compact_to_fresh`, `propagate_relocation` in `src/fs.rs`), where
 one commit on the pair's thread predecessor repoints everything that names it:
 the thread, and the directory entry if the predecessor holds one.
 */
module Relocation {
  import opened Words
  import opened Directory
  import opened Operations
  import opened Rebuild
  import opened Split
  import opened Gstate
  import opened Protocol
  import opened Rename
  import opened Conservation
  import opened Landings

  /**
   The pair at `from` is to live at `to`. Its thread predecessor `parent` names it
   in entry `entry`, or in no entry if the pair is a HardTail continuation.
   */
  datatype Plan = Plan(before: seq<BlockPair>, parent: BlockPair, from: BlockPair, after: seq<BlockPair>, to: BlockPair, entry: Option<nat>)

  function ThreadOld(r: Plan): seq<BlockPair> {
    (r.before + [r.parent]) + ([r.from] + r.after)
  }

  function ThreadNew(r: Plan): seq<BlockPair> {
    (r.before + [r.parent]) + ([r.to] + r.after)
  }

  function Body(r: Plan): (s: seq<byte>)
    ensures |s| == RELOCATE_SIZE
  {
    RelocateBody(r.from, r.to)
  }

  /** Every directory the view names, but for entry `skip`, is on the old thread and is not the pair that moves. */
  predicate Elsewhere(v: View, r: Plan, skip: Option<nat>) {
    forall j :: 0 <= j < |v.listing| && Some(j) != skip && ChildOf(v.listing[j]).Some? ==>
      ChildOf(v.listing[j]).value in ThreadOld(r) && ChildOf(v.listing[j]).value != r.from
  }

  /**
   The relocation may start. `g` is the forest as the caller's commit on the pair
   leaves it, whatever that commit does, its tail included: threaded, the target
   address new, and the predecessor's entry, if any, the only one that names the pair.
   */
  ghost predicate Movable(g: Forest, r: Plan) {
    && Threaded(g, ThreadOld(r))
    && r.to !in g && Addressable(r.from) && Addressable(r.to) && !r.to.IsNull()
    && r.parent in g && (r.entry.Some? ==> r.entry.value < |g[r.parent].listing|)
    && (forall p :: p in ThreadOld(r) ==> p in g && Elsewhere(g[p], r, if p == r.parent then r.entry else None))
  }

  /** The commit that balances the body, or lays it down. */
  function Balance(r: Plan): Request {
    Request(Noop, None, Some(Body(r)), None)
  }

  /** The commit that carries the caller's request and the relocation's body in one. */
  function Carrying(q: Request, r: Plan): Request
    requires Sized(q)
  {
    var net := if q.relocate.Some? then XorBytes(q.relocate.value, Body(r)) else Body(r);
    q.(relocate := if q.relocate.Some? && net == Zeros(RELOCATE_SIZE) then None else Some(net))
  }

  /** Carrying the body in the caller's commit is the caller's commit and the body's. */
  lemma CarryingIsBoth(f: Forest, q: Request, r: Plan)
    requires Sane(f) && r.from in f && Applies(f[r.from], q)
    ensures Applies(f[r.from], Carrying(q, r))
    ensures Commit(f, r.from, Carrying(q, r)) == Commit(Commit(f, r.from, q), r.from, Balance(r))
  {
    var v := f[r.from];
    if q.relocate.Some? {
      XorAssoc(v.relocate, q.relocate.value, Body(r));
      XorZeros(v.relocate);
    }
    assert Intended(v, Carrying(q, r)) == Intended(Intended(v, q), Balance(r));
  }

  /** The predecessor's commit: its entry, if any, and its tail repointed, the body once more. */
  function Repoint(g: Forest, r: Plan): Request
    requires r.parent in g
  {
    Request(if r.entry.Some? then UpdateDirStruct(r.entry.value, r.to) else Noop, None, Some(Body(r)),
            Some(Thread(r.to, g[r.parent].tail.Some? && g[r.parent].tail.value.hard)))
  }

  // ---- Wear levelling: alternate, then fresh block, then predecessor ----------------------

  /** The alternate block is programmed in place. */
  function Anchored(g: Forest, r: Plan): (h: Forest)
    requires Sane(g) && r.from in g
    ensures Sane(h)
  {
    Commit(g, r.from, Balance(r))
  }

  /** The same bytes are programmed on the fresh block, which nothing names yet. */
  function Copied(g: Forest, r: Plan): (h: Forest)
    requires Sane(g) && r.from in g
    ensures Sane(h)
  {
    Anchored(g, r)[r.to := Anchored(g, r)[r.from]]
  }

  /** The predecessor repoints. */
  function Repointed(g: Forest, r: Plan): Forest
    requires Sane(g) && r.parent in g && (r.entry.Some? ==> r.entry.value < |g[r.parent].listing|)
  {
    Commit(g, r.parent, Repoint(g, r))
  }

  lemma PlanDistinct(g: Forest, r: Plan)
    requires Movable(g, r)
    ensures ThreadOld(r)[|r.before|] == r.parent && ThreadOld(r)[|r.before| + 1] == r.from && r.parent != r.from
    ensures r.to != r.from && r.to != r.parent && r.to !in ThreadOld(r)
    ensures Distinct(ThreadNew(r))
  {
    var t, u := ThreadOld(r), ThreadNew(r);
    assert t[|r.before|] == r.parent && t[|r.before| + 1] == r.from;
    forall i, j | 0 <= i < j < |u|
      ensures u[i] != u[j]
    {
      assert i != |r.before| + 1 ==> u[i] == t[i];
      assert j != |r.before| + 1 ==> u[j] == t[j];
    }
  }

  /** A commit that only lays down the body moves the aggregate by it and keeps the thread. */
  lemma BalanceMoves(g: Forest, r: Plan)
    requires Threaded(g, ThreadOld(r))
    ensures r.from in g && Threaded(Anchored(g, r), ThreadOld(r))
    ensures Of(Anchored(g, r), ThreadOld(r))
         == Aggregate(Sum(Moves, g, ThreadOld(r)), XorBytes(Sum(Relocations, g, ThreadOld(r)), Body(r)))
  {
    var t, i := ThreadOld(r), |r.before| + 1;
    assert t[i] == r.from;
    assert ThreadedAt(g, t, i);
    CommitKeepsThread(g, t, i, Balance(r));
    CommitMovesSum(Moves, g, t, i, Balance(r));
    CommitMovesSum(Relocations, g, t, i, Balance(r));
    XorZeros(Sum(Moves, g, t));
  }

  lemma CopiedThread(g: Forest, r: Plan)
    requires Threaded(g, ThreadOld(r)) && r.to !in g
    ensures r.from in g
    ensures Threaded(Copied(g, r), ThreadOld(r)) && Of(Copied(g, r), ThreadOld(r)) == Of(Anchored(g, r), ThreadOld(r))
  {
    BalanceMoves(g, r);
    CopiedAlong(g, r);
    OffThread(Anchored(g, r), Copied(g, r), ThreadOld(r));
  }

  /**
   A mount of `h` gives the relocation up by a commit on the old pair and is quiet
   afterwards; every directory reads as along the old thread of `g`.
   */
  ghost predicate GivesUp(land: Lander, h: Forest, r: Plan, g: Forest)
    requires Honest(land) && Threaded(g, ThreadOld(r))
  {
    var t, done := ThreadOld(r), land(h, r.from, Balance(r));
    var now := Insert(t, r.from, done.conts);
    Mounts(land, h, t, done.forest, now) && Dirs(done.forest, now) == Dirs(g, t)
  }

  /** While the body stands alone, mounting cancels it, however that commit lands. */
  lemma Cancelled(land: Lander, h: Forest, r: Plan)
    requires Honest(land) && Threaded(h, ThreadOld(r)) && Of(h, ThreadOld(r)) == Aggregate(Zeros(MOVE_SIZE), Body(r))
    requires Addressable(r.from) && Addressable(r.to) && r.from != r.to
    ensures GivesUp(land, h, r, h)
  {
    var t := ThreadOld(r);
    CancelLands(land, h, r);
    BalanceMoves(h, r);
    RelocateBodyDecodes(r.from, r.to);
    OnlyRelocation(land, h, Of(h, t), PendingRelocation(r.from, r.to));
    XorSelf(Body(r));
  }

  lemma CancelLands(land: Lander, h: Forest, r: Plan)
    requires Honest(land) && Threaded(h, ThreadOld(r))
    ensures r.from in h && Lands(h, r.from, Balance(r), land(h, r.from, Balance(r)))
    ensures var t, done := ThreadOld(r), land(h, r.from, Balance(r));
            var now := Insert(t, r.from, done.conts);
            && Threaded(Anchored(h, r), t) && Threaded(done.forest, now)
            && Of(done.forest, now) == Of(Anchored(h, r), t) && Dirs(done.forest, now) == Dirs(h, t)
  {
    var t := ThreadOld(r);
    BalanceMoves(h, r);
    assert t[|r.before| + 1] == r.from;
    assert HonestAt(land, h, r.from, Balance(r));
    LandingReads(h, t, r.from, Balance(r), land(h, r.from, Balance(r)));
    DirsSame(h, Anchored(h, r), t);
  }

  /** From the programmed alternate on, up to the repoint, a mount gives the relocation up. */
  lemma WearGivesUp(land: Lander, g: Forest, r: Plan, h: Forest)
    requires Honest(land) && Movable(g, r) && Quiet(g, ThreadOld(r)) && r.from in g && Along(h, Anchored(g, r), ThreadOld(r))
    ensures GivesUp(land, h, r, g)
  {
    PlanDistinct(g, r);
    BalanceMoves(g, r);
    XorZeros(Body(r));
    OffThread(Anchored(g, r), h, ThreadOld(r));
    DirsSame(g, Anchored(g, r), ThreadOld(r));
    Cancelled(land, h, r);
  }

  /** The copy on the fresh block is not on the thread yet. */
  lemma CopiedAlong(g: Forest, r: Plan)
    requires Threaded(g, ThreadOld(r)) && r.to !in g
    ensures r.from in g && Along(Copied(g, r), Anchored(g, r), ThreadOld(r))
  {
    BalanceMoves(g, r);
    OnThread(Anchored(g, r), ThreadOld(r));
  }

  // ---- The repoint -------------------------------------------------------------------------

  lemma ChildOfPair(s: Slot, pair: BlockPair)
    requires Addressable(pair) && s.content == Some(Content(StructKind.Pair, TwoWords(pair.a, pair.b)))
    ensures ChildOf(s) == Some(pair)
  {
    TwoWordsRead(pair.a, pair.b);
  }

  /** `h` is `g` but for a copy of the moving pair, with the body, at the new address. */
  ghost predicate Prepared(h: Forest, g: Forest, r: Plan) {
    && Movable(g, r) && Sane(h) && r.to in h && h[r.to] == Intended(g[r.from], Balance(r))
    && (forall p :: p in g && p != r.from ==> p in h && h[p] == g[p])
  }

  lemma OldToNew(r: Plan, p: BlockPair)
    requires p in ThreadOld(r) && p != r.from
    ensures p in ThreadNew(r)
  {
    var i :| 0 <= i < |ThreadOld(r)| && ThreadOld(r)[i] == p;
    assert i != |r.before| + 1 ==> ThreadNew(r)[i] == p;
  }

  lemma ElsewhereOnNew(v: View, r: Plan)
    requires Elsewhere(v, r, None)
    ensures ChildrenOn(v, ThreadNew(r))
  {
    forall j | 0 <= j < |v.listing| && ChildOf(v.listing[j]).Some?
      ensures ChildOf(v.listing[j]).value in ThreadNew(r)
    {
      assert Some(j) != None;
      OldToNew(r, ChildOf(v.listing[j]).value);
    }
  }

  lemma ParentOnNew(g: Forest, r: Plan)
    requires Movable(g, r)
    ensures ChildrenOn(Intended(g[r.parent], Repoint(g, r)), ThreadNew(r))
  {
    var v, w := g[r.parent], Intended(g[r.parent], Repoint(g, r));
    assert ThreadOld(r)[|r.before|] == r.parent && Elsewhere(v, r, r.entry);
    if r.entry == None {
      assert w.listing == v.listing;
      ElsewhereOnNew(v, r);
    } else {
      var e := r.entry.value;
      assert w.listing == v.listing[e := v.listing[e].(content := Some(Content(StructKind.Pair, TwoWords(r.to.a, r.to.b))))];
      forall j | 0 <= j < |w.listing| && ChildOf(w.listing[j]).Some?
        ensures ChildOf(w.listing[j]).value in ThreadNew(r)
      {
        if j == e {
          ChildOfPair(w.listing[j], r.to);
          assert ThreadNew(r)[|r.before| + 1] == r.to;
        } else {
          assert w.listing[j] == v.listing[j] && Some(j) != r.entry;
          OldToNew(r, ChildOf(v.listing[j]).value);
        }
      }
    }
  }

  lemma ParentTail(h: Forest, g: Forest, r: Plan)
    requires Prepared(h, g, r) && r.parent in h && h[r.parent] == g[r.parent]
    ensures var k := Repointed(h, r);
            r.parent in k && k[r.parent] == Intended(g[r.parent], Repoint(g, r)) && TailTo(k[r.parent], Some(r.to))
    ensures ChildrenOn(Repointed(h, r)[r.parent], ThreadNew(r))
  {
    ParentOnNew(g, r);
  }

  lemma FreshTail(h: Forest, g: Forest, r: Plan)
    requires Prepared(h, g, r) && r.parent in h && h[r.parent] == g[r.parent]
    ensures var k := Repointed(h, r);
            r.to in k && TailTo(k[r.to], At(ThreadNew(r), |r.before| + 2)) && ChildrenOn(k[r.to], ThreadNew(r))
  {
    var t, i := ThreadOld(r), |r.before| + 1;
    PlanDistinct(g, r);
    ThreadedInto(g, t, i);
    assert At(ThreadNew(r), i + 1) == At(t, i + 1);
    assert r.from in t && Elsewhere(g[r.from], r, None) && h[r.to].listing == g[r.from].listing;
    ElsewhereOnNew(h[r.to], r);
  }

  lemma OtherTail(h: Forest, g: Forest, r: Plan, i: nat)
    requires Prepared(h, g, r) && r.parent in h && h[r.parent] == g[r.parent]
    requires i < |ThreadNew(r)| && i != |r.before| && i != |r.before| + 1
    ensures var k, u := Repointed(h, r), ThreadNew(r);
            u[i] in k && TailTo(k[u[i]], At(u, i + 1)) && ChildrenOn(k[u[i]], u)
  {
    var t, u, b := ThreadOld(r), ThreadNew(r), |r.before|;
    PlanDistinct(g, r);
    ThreadedInto(g, t, i);
    assert u[i] == t[i] && t[i] != t[b] && t[i] != t[b + 1] && At(u, i + 1) == At(t, i + 1);
    assert t[i] in t && Elsewhere(g[t[i]], r, None);
    ElsewhereOnNew(g[t[i]], r);
  }

  /** The repoint puts the fresh pair on the thread in the old one's place. */
  lemma RepointedThread(h: Forest, g: Forest, r: Plan)
    requires Prepared(h, g, r) && r.parent in h && h[r.parent] == g[r.parent]
    ensures Threaded(Repointed(h, r), ThreadNew(r))
  {
    var k, u := Repointed(h, r), ThreadNew(r);
    PlanDistinct(g, r);
    forall i | 0 <= i < |u|
      ensures u[i] in k && TailTo(k[u[i]], At(u, i + 1)) && ChildrenOn(k[u[i]], u)
    {
      if i == |r.before| {
        ParentTail(h, g, r);
      } else if i == |r.before| + 1 {
        FreshTail(h, g, r);
      } else {
        OtherTail(h, g, r, i);
      }
    }
    ThreadedFrom(k, u);
  }

  /** Two pairs with equal totals stand for each other in the sum. */
  lemma SumReplaced(k: Kind, g: Forest, r: Plan)
    requires Sane(g) && AllIn(g, ThreadOld(r)) && AllIn(g, ThreadNew(r)) && r.from in g && r.to in g
    requires Total(k, g[r.from]) == Total(k, g[r.to])
    ensures Sum(k, g, ThreadNew(r)) == Sum(k, g, ThreadOld(r))
  {
    var t, u, i := ThreadOld(r), ThreadNew(r), |r.before| + 1;
    assert t[..i] + t[i + 1..] == u[..i] + u[i + 1..] && t[i] == r.from && u[i] == r.to;
    SumPick(k, g, t, i);
    SumPick(k, g, u, i);
  }

  lemma NewIn(g: Forest, r: Plan)
    requires AllIn(g, ThreadOld(r)) && r.to in g
    ensures AllIn(g, ThreadNew(r))
  {
    var t, u, i := ThreadOld(r), ThreadNew(r), |r.before| + 1;
    forall j | 0 <= j < |u|
      ensures u[j] in g
    {
      assert j != i ==> u[j] == t[j];
    }
  }

  lemma CopiedPrepared(g: Forest, r: Plan)
    requires Movable(g, r)
    ensures Prepared(Copied(g, r), g, r) && r.parent in Copied(g, r) && Copied(g, r)[r.parent] == g[r.parent]
    ensures r.from in Copied(g, r) && Copied(g, r)[r.from] == Copied(g, r)[r.to]
  {
    PlanDistinct(g, r);
  }

  lemma RepointSum(k: Kind, g: Forest, r: Plan)
    requires Sane(g) && AllIn(g, ThreadNew(r)) && Distinct(ThreadNew(r)) && r.parent in g
    requires r.entry.Some? ==> r.entry.value < |g[r.parent].listing|
    ensures AllIn(Repointed(g, r), ThreadNew(r))
    ensures Sum(k, Repointed(g, r), ThreadNew(r)) == XorBytes(Sum(k, g, ThreadNew(r)), Delta(k, Repoint(g, r)))
  {
    assert ThreadNew(r)[|r.before|] == r.parent;
    CommitMovesSum(k, g, ThreadNew(r), |r.before|, Repoint(g, r));
  }

  /** After the repoint both copies of the body cancel: the aggregate is the caller's, on the new thread. */
  lemma RepointedConserves(g: Forest, r: Plan)
    requires Movable(g, r)
    ensures Threaded(Repointed(Copied(g, r), r), ThreadNew(r))
    ensures Of(Repointed(Copied(g, r), r), ThreadNew(r)) == Of(g, ThreadOld(r))
  {
    var h, t := Copied(g, r), ThreadOld(r);
    CopiedPrepared(g, r);
    BalanceMoves(g, r);
    CopiedThread(g, r);
    RepointedThread(h, g, r);
    PlanDistinct(g, r);
    NewIn(h, r);
    SumReplaced(Moves, h, r);
    SumReplaced(Relocations, h, r);
    RepointSum(Moves, h, r);
    RepointSum(Relocations, h, r);
    XorZeros(Sum(Moves, g, t));
    XorAssoc(Sum(Relocations, g, t), Body(r), Body(r));
    XorSelf(Body(r));
    XorZeros(Sum(Relocations, g, t));
  }

  /** The caller's request committed on the pair that moves, without the relocation. */
  function Committed(f: Forest, r: Plan, q: Request): Forest
    requires Sane(f) && r.from in f && Applies(f[r.from], q)
  {
    Commit(f, r.from, q)
  }

  /** The repoint lands as `m`. */
  ghost predicate Repoints(h: Forest, r: Plan, m: Landing) {
    Sane(h) && r.parent in h && Applies(h[r.parent], Repoint(h, r)) && Lands(h, r.parent, Repoint(h, r), m)
  }

  function ThreadDone(r: Plan, m: Landing): seq<BlockPair> {
    Insert(ThreadNew(r), r.parent, m.conts)
  }

  /** Both forests are threaded and quiet, and their directories read the same. */
  ghost predicate Settles(f: Forest, t: seq<BlockPair>, h: Forest, u: seq<BlockPair>) {
    Threaded(f, t) && Quiet(f, t) && Threaded(h, u) && Quiet(h, u) && Dirs(h, u) == Dirs(f, t)
  }

  /**
   Every crash point of a wear relocation that carries the request `q`, from the
   programmed alternate on. Up to the repoint, with whatever off the thread, a mount
   cancels the relocation on the old pair, and the directories are those the request
   alone would leave. After the repoint, however
   it lands, nothing is in flight on a thread that runs through the new pair, and
   the directories read as after the plain one.
   */
  lemma WearRelocationCrashPoints(land: Lander, f: Forest, r: Plan, q: Request, m: Landing, c: Forest)
    requires Honest(land) && Sane(f) && r.from in f && Applies(f[r.from], q)
    requires Movable(Committed(f, r, q), r) && Quiet(Committed(f, r, q), ThreadOld(r))
    requires Repoints(Copied(Committed(f, r, q), r), r, m)
    ensures Commit(f, r.from, Carrying(q, r)) == Anchored(Committed(f, r, q), r)
    ensures Along(Copied(Committed(f, r, q), r), Anchored(Committed(f, r, q), r), ThreadOld(r))
    ensures Along(c, Anchored(Committed(f, r, q), r), ThreadOld(r)) ==> GivesUp(land, c, r, Committed(f, r, q))
    ensures Settles(Repointed(Copied(Committed(f, r, q), r), r), ThreadNew(r), m.forest, ThreadDone(r, m))
  {
    var g := Committed(f, r, q);
    CarryingIsBoth(f, q, r);
    CopiedAlong(g, r);
    if Along(c, Anchored(g, r), ThreadOld(r)) {
      WearGivesUp(land, g, r, c);
    }
    CopiedPrepared(g, r);
    RepointedConserves(g, r);
    assert ThreadNew(r)[|r.before|] == r.parent;
    LandingReads(Copied(g, r), ThreadNew(r), r.parent, Repoint(Copied(g, r), r), m);
  }

  // ---- A worn block: only the fresh block is written before the predecessor --------------------

  /** The commit lands on the fresh block alone; the old pair still reads as before. */
  function FreshOnly(f: Forest, r: Plan, q: Request): (g: Forest)
    requires Sane(f) && r.from in f && Applies(f[r.from], q)
    ensures Sane(g)
  {
    CarryingIsBoth(f, q, r);
    f[r.to := Intended(f[r.from], Carrying(q, r))]
  }

  /** The forest in which the target already reads as the pair that moves; the commit lands there. */
  function Seeded(f: Forest, r: Plan): (g: Forest)
    requires Sane(f) && r.from in f
    ensures Sane(g)
  {
    f[r.to := f[r.from]]
  }

  /** The commit lands on the fresh block as `l`: the pair's alternate was worn, and it may have been about to split. */
  predicate LandsFresh(f: Forest, r: Plan, q: Request, l: Landing)
    requires Sane(f) && r.from in f && Applies(f[r.from], q)
  {
    CarryingIsBoth(f, q, r);
    Lands(Seeded(f, r), r.to, Carrying(q, r), l)
  }

  function ThreadFresh(r: Plan, l: Landing, m: Landing): seq<BlockPair> {
    Insert(Insert(ThreadNew(r), r.to, l.conts), r.parent, m.conts)
  }

  /**
   No crash point of a fresh-only relocation shows any state at all: before the
   repoint the forest is the one before the request, on its thread `prior`, and
   after it, however both commits land, the one that the request leaves.
   */
  lemma FreshRelocationCrashPoints(f: Forest, r: Plan, q: Request, prior: seq<BlockPair>, l: Landing, m: Landing)
    requires Threaded(f, prior) && Quiet(f, prior) && r.from in f && Applies(f[r.from], q)
    requires Movable(Committed(f, r, q), r) && Quiet(Committed(f, r, q), ThreadOld(r))
    requires LandsFresh(f, r, q, l) && Repoints(l.forest, r, m)
    ensures Settles(f, prior, l.forest, prior)
    ensures r.parent in FreshOnly(f, r, q) && FreshOnly(f, r, q)[r.parent] == Committed(f, r, q)[r.parent]
    ensures Settles(Repointed(FreshOnly(f, r, q), r), ThreadNew(r), m.forest, ThreadFresh(r, l, m))
  {
    PlanDistinct(Committed(f, r, q), r);
    FreshPrior(f, r, q, prior, l);
    FreshSettles(f, r, q, prior);
    FreshLands(f, r, q, l, m);
  }

  lemma FreshPrior(f: Forest, r: Plan, q: Request, prior: seq<BlockPair>, l: Landing)
    requires Threaded(f, prior) && Quiet(f, prior) && r.from in f && Applies(f[r.from], q) && r.to !in f && LandsFresh(f, r, q, l)
    ensures Settles(f, prior, l.forest, prior)
  {
    CarryingIsBoth(f, q, r);
    forall p | p in prior
      ensures p in f && p in l.forest && l.forest[p] == f[p]
    {
      assert p != r.to && Seeded(f, r)[p] == f[p];
    }
    OffThread(f, l.forest, prior);
  }

  lemma FreshLands(f: Forest, r: Plan, q: Request, l: Landing, m: Landing)
    requires Sane(f) && r.from in f && Applies(f[r.from], q) && Movable(Committed(f, r, q), r)
    requires LandsFresh(f, r, q, l) && Repoints(l.forest, r, m)
    requires r.parent in FreshOnly(f, r, q) && FreshOnly(f, r, q)[r.parent] == Committed(f, r, q)[r.parent]
    requires var g := Repointed(FreshOnly(f, r, q), r); Threaded(g, ThreadNew(r)) && Quiet(g, ThreadNew(r))
    ensures Settles(Repointed(FreshOnly(f, r, q), r), ThreadNew(r), m.forest, ThreadFresh(r, l, m))
  {
    var d, u := Seeded(f, r), ThreadNew(r);
    CarryingIsBoth(f, q, r);
    PlanDistinct(Committed(f, r, q), r);
    FreshIsCommit(f, r, q);
    assert u[|r.before|] == r.parent && u[|r.before| + 1] == r.to;
    assert l.forest[r.parent] == d[r.parent] == FreshOnly(f, r, q)[r.parent];
    SeededLands(d, r, Carrying(q, r), l, m);
  }

  lemma FreshIsCommit(f: Forest, r: Plan, q: Request)
    requires Sane(f) && r.from in f && Applies(f[r.from], q)
    ensures Applies(f[r.from], Carrying(q, r)) && Commit(Seeded(f, r), r.to, Carrying(q, r)) == FreshOnly(f, r, q)
  {
    CarryingIsBoth(f, q, r);
  }

  lemma SeededLands(d: Forest, r: Plan, c: Request, l: Landing, m: Landing)
    requires Sane(d) && r.to in d && Applies(d[r.to], c) && Lands(d, r.to, c, l) && Repoints(l.forest, r, m)
    requires r.parent in d && l.forest[r.parent] == d[r.parent] && r.parent != r.to && r.to in ThreadNew(r) && r.parent in ThreadNew(r)
    requires Applies(d[r.parent], Repoint(d, r))
    requires var g := Commit(Commit(d, r.to, c), r.parent, Repoint(d, r)); Threaded(g, ThreadNew(r)) && Quiet(g, ThreadNew(r))
    ensures Settles(Commit(Commit(d, r.to, c), r.parent, Repoint(d, r)), ThreadNew(r), m.forest, ThreadFresh(r, l, m))
  {
    TwoLandings(d, ThreadNew(r), r.to, c, l, r.parent, Repoint(l.forest, r), m);
  }

  lemma FreshSettles(f: Forest, r: Plan, q: Request, prior: seq<BlockPair>)
    requires Threaded(f, prior) && Quiet(f, prior) && r.from in f && Applies(f[r.from], q)
    requires Movable(Committed(f, r, q), r) && Quiet(Committed(f, r, q), ThreadOld(r))
    ensures var g := FreshOnly(f, r, q);
            && Threaded(g, prior) && Quiet(g, prior) && r.parent in g && g[r.parent] == Committed(f, r, q)[r.parent]
            && Threaded(Repointed(g, r), ThreadNew(r)) && Quiet(Repointed(g, r), ThreadNew(r))
    ensures var c := Copied(Committed(f, r, q), r);
            && r.parent in c && Threaded(Repointed(c, r), ThreadNew(r)) && AllIn(Repointed(FreshOnly(f, r, q), r), ThreadNew(r))
            && Dirs(Repointed(FreshOnly(f, r, q), r), ThreadNew(r)) == Dirs(Repointed(c, r), ThreadNew(r))
  {
    var g, c := FreshOnly(f, r, q), Copied(Committed(f, r, q), r);
    PlanDistinct(Committed(f, r, q), r);
    forall p | p in prior
      ensures p in f && p in g && g[p] == f[p]
    {
      assert p != r.to;
    }
    OffThread(f, g, prior);
    RepointedConserves(Committed(f, r, q), r);
    CopiedPrepared(Committed(f, r, q), r);
    forall p | p in ThreadNew(r)
      ensures p in Repointed(g, r) && p in Repointed(c, r) && Repointed(g, r)[p] == Repointed(c, r)[p]
    {
      FreshAgrees(f, r, q, p);
    }
    OffThread(Repointed(c, r), Repointed(g, r), ThreadNew(r));
  }

  lemma FreshAgrees(f: Forest, r: Plan, q: Request, p: BlockPair)
    requires Sane(f) && r.from in f && Applies(f[r.from], q) && Movable(Committed(f, r, q), r) && p in ThreadNew(r)
    ensures var g, c := FreshOnly(f, r, q), Copied(Committed(f, r, q), r);
            && r.parent in g && g[r.parent] == Committed(f, r, q)[r.parent] && r.parent in c && c[r.parent] == g[r.parent]
            && p in Repointed(g, r) && p in Repointed(c, r) && Repointed(g, r)[p] == Repointed(c, r)[p]
  {
    var t, u := ThreadOld(r), ThreadNew(r);
    PlanDistinct(Committed(f, r, q), r);
    CarryingIsBoth(f, q, r);
    var i :| 0 <= i < |u| && u[i] == p;
    assert u[|r.before| + 1] == r.to;
    assert i != |r.before| + 1 ==> u[i] == t[i] && t[i] != t[|r.before| + 1];
  }
}
