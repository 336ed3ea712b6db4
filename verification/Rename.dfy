/**
 Mount recovery and the cross-directory rename (`mount`, `recover_pending_move`,
 `recover_pending_relocation` and `rename` in `src/fs.rs`).
 */
module Rename {
  import opened Words
  import opened Tags
  import opened Directory
  import opened Attributes
  import opened Operations
  import opened Rebuild
  import opened Split
  import opened Gstate
  import opened Protocol
  import opened Conservation
  import opened Landings

  // ---- Mount ---------------------------------------------------------------------------

  function MoveRequest(op: WriteOp, body: seq<byte>): Request {
    Request(op, Some(body), None, None)
  }

  /** The commit that finishes a move: the owed deletion, balanced by the same body. */
  function FinishRequest(m: PendingMove): Request {
    MoveRequest(Remove(m.id), MoveBody(m.pair, m.id))
  }

  /** The commit that gives a relocation up: a balancing body. */
  function CancelRequest(l: PendingRelocation): Request {
    Request(Noop, None, Some(RelocateBody(l.from, l.to)), None)
  }

  /** `recover_pending_move`, whose commit lands as `land` says. */
  function FinishMove(land: Lander, f: Forest, m: PendingMove): (r: Result<Forest>)
    requires Honest(land) && Sane(f)
    ensures r.Ok? ==> Sane(r.value)
  {
    if m.pair !in f || m.id >= |f[m.pair].listing| then Err(Corrupt)
    else
      assert HonestAt(land, f, m.pair, FinishRequest(m));
      Ok(land(f, m.pair, FinishRequest(m)).forest)
  }

  /** `recover_pending_relocation`. */
  function CancelRelocation(land: Lander, f: Forest, l: PendingRelocation): (r: Result<Forest>)
    requires Honest(land) && Sane(f)
    ensures r.Ok? ==> Sane(r.value)
  {
    if l.from !in f then Err(Corrupt)
    else
      assert HonestAt(land, f, l.from, CancelRequest(l));
      Ok(land(f, l.from, CancelRequest(l)).forest)
  }

  /** What a mount that reads aggregate `agg` leaves behind. */
  function Recovered(land: Lander, f: Forest, agg: Aggregate): Result<Forest>
    requires Honest(land) && Sane(f) && |agg.move| == MOVE_SIZE && |agg.relocate| == RELOCATE_SIZE
  {
    var m := MovePending(agg.move);
    var g := if m.Some? then FinishMove(land, f, m.value) else Ok(f);
    if g.Err? then g
    else
      var l := RelocationPending(agg.relocate);
      if l.Some? then CancelRelocation(land, g.value, l.value) else g
  }

  /** Mounting: accumulate over the pairs that links reach, then finish or cancel what is in flight. */
  method Mount(land: Lander, f: Forest, root: BlockPair, limit: nat, ghost pairs: seq<BlockPair>) returns (r: Result<Forest>)
    requires Honest(land) && Spans(f, pairs) && pairs[0] == root
    ensures limit > 0 ==> r == if |pairs| > limit then Err(OutOfRange) else Recovered(land, f, Of(f, pairs))
  {
    var agg := Accumulate(f, root, limit, pairs);
    if agg.Err? {
      return Err(agg.error);
    }
    var m := MovePending(agg.value.move);
    var g := f;
    if m.Some? {
      var done := FinishMove(land, f, m.value);
      if done.Err? {
        return done;
      }
      g := done.value;
    }
    var l := RelocationPending(agg.value.relocate);
    if l.Some? {
      return CancelRelocation(land, g, l.value);
    }
    return Ok(g);
  }

  predicate Quiet(f: Forest, thread: seq<BlockPair>)
    requires Threaded(f, thread)
  {
    Of(f, thread) == Aggregate(Zeros(MOVE_SIZE), Zeros(RELOCATE_SIZE))
  }

  /** A quiet forest mounts unchanged. */
  lemma QuietMount(land: Lander, f: Forest, thread: seq<BlockPair>)
    requires Honest(land) && Threaded(f, thread) && Quiet(f, thread)
    ensures Recovered(land, f, Of(f, thread)) == Ok(f)
  {
  }

  lemma OnlyRelocation(land: Lander, f: Forest, agg: Aggregate, l: PendingRelocation)
    requires Honest(land) && Sane(f) && |agg.move| == MOVE_SIZE && |agg.relocate| == RELOCATE_SIZE
    requires MovePending(agg.move) == None && RelocationPending(agg.relocate) == Some(l)
    ensures Recovered(land, f, agg) == CancelRelocation(land, f, l)
  {
  }

  lemma OnlyMove(land: Lander, f: Forest, agg: Aggregate, m: PendingMove)
    requires Honest(land) && Sane(f) && |agg.move| == MOVE_SIZE && agg.relocate == Zeros(RELOCATE_SIZE)
    requires MovePending(agg.move) == Some(m) && m.pair in f && m.id < |f[m.pair].listing|
    ensures Applies(f[m.pair], FinishRequest(m)) && Lands(f, m.pair, FinishRequest(m), land(f, m.pair, FinishRequest(m)))
    ensures Recovered(land, f, agg) == Ok(land(f, m.pair, FinishRequest(m)).forest)
  {
    assert HonestAt(land, f, m.pair, FinishRequest(m));
  }

  // ---- The rename ------------------------------------------------------------------------

  /** A move of entry `id` of `src` to the end of `dst`, by indices into the thread. */
  datatype Job = Job(src: nat, id: Bits10, dst: nat, create: WriteOp)

  /** The destination entry has the source entry's layout and attributes. */
  predicate Ready(f: Forest, thread: seq<BlockPair>, job: Job)
    requires Threaded(f, thread)
  {
    && job.src < |thread| && job.dst < |thread| && job.src != job.dst && Addressable(thread[job.src])
    && job.id < |f[thread[job.src]].listing|
    && Adds(job.create) && job.create.id == |f[thread[job.dst]].listing|
    && var s := f[thread[job.src]].listing[job.id];
       s.content == Some(NewContent(job.create)) && s.attrs == Collected(job.create.moved)
  }

  function Body(thread: seq<BlockPair>, job: Job): (s: seq<byte>)
    requires job.src < |thread|
    ensures |s| == MOVE_SIZE
  {
    MoveBody(thread[job.src], job.id)
  }

  function CreateRequest(thread: seq<BlockPair>, job: Job): Request
    requires job.src < |thread|
  {
    MoveRequest(job.create, Body(thread, job))
  }

  function DeleteRequest(thread: seq<BlockPair>, job: Job): Request
    requires job.src < |thread|
  {
    MoveRequest(Remove(job.id), Body(thread, job))
  }

  /** Step one, as a plain commit: the entry is created at the destination. */
  function Created(f: Forest, thread: seq<BlockPair>, job: Job): Forest
    requires Threaded(f, thread) && Ready(f, thread, job)
  {
    Commit(f, thread[job.dst], CreateRequest(thread, job))
  }

  /** Step two, as a plain commit: the entry is deleted at the source. */
  function Moved(f: Forest, thread: seq<BlockPair>, job: Job): Forest
    requires Threaded(f, thread) && Ready(f, thread, job)
  {
    assert thread[job.src] != thread[job.dst];
    Commit(Created(f, thread, job), thread[job.src], DeleteRequest(thread, job))
  }

  lemma CreatedKeepsThread(f: Forest, thread: seq<BlockPair>, job: Job)
    requires Threaded(f, thread) && Ready(f, thread, job)
    ensures Threaded(Created(f, thread, job), thread)
  {
    var v, w := f[thread[job.dst]], f[thread[job.src]];
    assert ThreadedAt(f, thread, job.dst) && ThreadedAt(f, thread, job.src);
    forall s | s in Effect(job.create, v.listing) && ChildOf(s).Some?
      ensures ChildOf(s).value in thread
    {
      if s !in v.listing {
        assert s.content == w.listing[job.id].content;
        assert ChildOf(s) == ChildOf(w.listing[job.id]);
      }
    }
    CommitKeepsThread(f, thread, job.dst, MoveRequest(job.create, Body(thread, job)));
  }

  lemma MovedKeepsThread(f: Forest, thread: seq<BlockPair>, job: Job)
    requires Threaded(f, thread) && Ready(f, thread, job)
    ensures Threaded(Moved(f, thread, job), thread)
  {
    var g := Created(f, thread, job);
    CreatedKeepsThread(f, thread, job);
    assert ThreadedAt(g, thread, job.src);
    var v := g[thread[job.src]];
    forall s | s in Effect(Remove(job.id), v.listing) && ChildOf(s).Some?
      ensures ChildOf(s).value in thread
    {
      assert s in v.listing;
    }
    CommitKeepsThread(g, thread, job.src, MoveRequest(Remove(job.id), Body(thread, job)));
  }

  /** Between the two commits the aggregate is exactly the body of the move. */
  lemma CreatedAggregate(f: Forest, thread: seq<BlockPair>, job: Job)
    requires Threaded(f, thread) && Quiet(f, thread) && Ready(f, thread, job)
    ensures Threaded(Created(f, thread, job), thread)
    ensures Of(Created(f, thread, job), thread) == Aggregate(Body(thread, job), Zeros(RELOCATE_SIZE))
  {
    var q := MoveRequest(job.create, Body(thread, job));
    CreatedKeepsThread(f, thread, job);
    CommitMovesSum(Moves, f, thread, job.dst, q);
    CommitMovesSum(Relocations, f, thread, job.dst, q);
    XorZeros(Body(thread, job));
    XorZeros(Zeros(RELOCATE_SIZE));
  }

  /** After both it is zero again. */
  lemma MovedAggregate(f: Forest, thread: seq<BlockPair>, job: Job)
    requires Threaded(f, thread) && Quiet(f, thread) && Ready(f, thread, job)
    ensures Threaded(Moved(f, thread, job), thread) && Quiet(Moved(f, thread, job), thread)
  {
    var g, q := Created(f, thread, job), MoveRequest(Remove(job.id), Body(thread, job));
    CreatedAggregate(f, thread, job);
    MovedKeepsThread(f, thread, job);
    CommitMovesSum(Moves, g, thread, job.src, q);
    CommitMovesSum(Relocations, g, thread, job.src, q);
    XorSelf(Body(thread, job));
    XorZeros(Zeros(RELOCATE_SIZE));
  }

  // ---- ... whose commits may split their pairs -----------------------------------------------

  /** The two commits of the rename land as `first` and `second`. */
  predicate Renames(f: Forest, thread: seq<BlockPair>, job: Job, first: Landing, second: Landing)
    requires Threaded(f, thread) && Ready(f, thread, job)
  {
    var src := thread[job.src];
    && Lands(f, thread[job.dst], CreateRequest(thread, job), first)
    && src in first.forest && Applies(first.forest[src], DeleteRequest(thread, job))
    && Lands(first.forest, src, DeleteRequest(thread, job), second)
  }

  function Midway(thread: seq<BlockPair>, job: Job, first: Landing): seq<BlockPair>
    requires job.dst < |thread|
  {
    Insert(thread, thread[job.dst], first.conts)
  }

  function Finally(thread: seq<BlockPair>, job: Job, first: Landing, second: Landing): seq<BlockPair>
    requires job.src < |thread| && job.dst < |thread|
  {
    Insert(Midway(thread, job, first), thread[job.src], second.conts)
  }

  /** However the first commit lands, the aggregate is the body of the move, and the source pair is as it was. */
  lemma MidwayAggregate(f: Forest, thread: seq<BlockPair>, job: Job, first: Landing)
    requires Threaded(f, thread) && Quiet(f, thread) && Ready(f, thread, job)
    requires Lands(f, thread[job.dst], CreateRequest(thread, job), first)
    ensures Threaded(first.forest, Midway(thread, job, first))
    ensures Of(first.forest, Midway(thread, job, first)) == Aggregate(Body(thread, job), Zeros(RELOCATE_SIZE))
    ensures thread[job.src] in first.forest && first.forest[thread[job.src]] == f[thread[job.src]]
  {
    CreatedAggregate(f, thread, job);
    LandingReads(f, thread, thread[job.dst], CreateRequest(thread, job), first);
  }

  /** However both land, nothing is in flight, and every directory reads as after the two plain commits. */
  lemma FinallySettled(f: Forest, thread: seq<BlockPair>, job: Job, first: Landing, second: Landing)
    requires Threaded(f, thread) && Quiet(f, thread) && Ready(f, thread, job) && Renames(f, thread, job, first, second)
    ensures var t := Finally(thread, job, first, second);
            && Threaded(second.forest, t) && Quiet(second.forest, t)
            && Dirs(second.forest, t) == Dirs(Moved(f, thread, job), thread)
  {
    MovedAggregate(f, thread, job);
    MidwayAggregate(f, thread, job, first);
    TwoLandings(f, thread, thread[job.dst], CreateRequest(thread, job), first, thread[job.src], DeleteRequest(thread, job), second);
  }

  /** Mounting `c` leaves `h`, where nothing is in flight. */
  ghost predicate Mounts(land: Lander, c: Forest, t: seq<BlockPair>, h: Forest, u: seq<BlockPair>)
    requires Honest(land)
  {
    Threaded(c, t) && Recovered(land, c, Of(c, t)) == Ok(h) && Threaded(h, u) && Quiet(h, u)
  }

  /** The commit with which a mount of `c` finishes the move: the rename's own second request. */
  function Completed(land: Lander, c: Forest, thread: seq<BlockPair>, job: Job): Landing
    requires job.src < |thread|
  {
    land(c, thread[job.src], DeleteRequest(thread, job))
  }

  lemma QuietAlong(land: Lander, f: Forest, c: Forest, thread: seq<BlockPair>)
    requires Honest(land) && Threaded(f, thread) && Quiet(f, thread) && Along(c, f, thread)
    ensures Mounts(land, c, thread, c, thread) && Dirs(c, thread) == Dirs(f, thread)
  {
    OffThread(f, c, thread);
    QuietMount(land, c, thread);
  }

  /** Mounting between the two commits completes the move. */
  lemma MidwayMounts(land: Lander, f: Forest, thread: seq<BlockPair>, job: Job, first: Landing, c: Forest)
    requires Threaded(f, thread) && Quiet(f, thread) && Ready(f, thread, job) && Honest(land)
    requires Lands(f, thread[job.dst], CreateRequest(thread, job), first) && Along(c, first.forest, Midway(thread, job, first))
    ensures var now, done := Midway(thread, job, first), Completed(land, c, thread, job);
            var t := Insert(now, thread[job.src], done.conts);
            Mounts(land, c, now, done.forest, t) && Dirs(done.forest, t) == Dirs(Moved(f, thread, job), thread)
  {
    var g, now, src := first.forest, Midway(thread, job, first), thread[job.src];
    MidwayAggregate(f, thread, job, first);
    OffThread(g, c, now);
    InsertHas(thread, thread[job.dst], first.conts, src);
    MidwayFinish(land, c, thread, job, now);
    PlainLands(g, src, DeleteRequest(thread, job));
    FinallySettled(f, thread, job, first, Landing(Commit(g, src, DeleteRequest(thread, job)), []));
    InsertNothing(now, src);
    LandingAlong(g, now, src, DeleteRequest(thread, job), c, Completed(land, c, thread, job));
  }

  lemma MidwayFinish(land: Lander, c: Forest, thread: seq<BlockPair>, job: Job, now: seq<BlockPair>)
    requires Honest(land) && job.src < |thread| && Addressable(thread[job.src]) && Threaded(c, now)
    requires thread[job.src] in c && job.id < |c[thread[job.src]].listing|
    requires Of(c, now) == Aggregate(Body(thread, job), Zeros(RELOCATE_SIZE))
    ensures Recovered(land, c, Of(c, now)) == Ok(Completed(land, c, thread, job).forest)
    ensures Lands(c, thread[job.src], DeleteRequest(thread, job), Completed(land, c, thread, job))
  {
    MoveBodyDecodes(thread[job.src], job.id);
    OnlyMove(land, c, Of(c, now), PendingMove(thread[job.src], job.id));
  }

  /**
   The rename is atomic at every crash point, whichever of its commits, or of the
   mount's, split their pairs, and whatever a commit cut short has left off the
   thread. Mounting before the first commit has landed changes nothing; mounting
   between the two completes the move, so that every directory reads as after the
   second; and mounting after it, or once more, changes nothing.
   */
  lemma RenameAtomic(land: Lander, f: Forest, thread: seq<BlockPair>, job: Job, first: Landing, second: Landing, c: Forest)
    requires Threaded(f, thread) && Quiet(f, thread) && Ready(f, thread, job) && Honest(land)
    requires Renames(f, thread, job, first, second)
    ensures Along(c, f, thread) ==> Mounts(land, c, thread, c, thread) && Dirs(c, thread) == Dirs(f, thread)
    ensures Along(c, first.forest, Midway(thread, job, first)) ==>
              var now, done := Midway(thread, job, first), Completed(land, c, thread, job);
              var t := Insert(now, thread[job.src], done.conts);
              Mounts(land, c, now, done.forest, t) && Dirs(done.forest, t) == Dirs(Moved(f, thread, job), thread)
    ensures Along(c, second.forest, Finally(thread, job, first, second)) ==>
              var t := Finally(thread, job, first, second);
              Mounts(land, c, t, c, t) && Dirs(c, t) == Dirs(Moved(f, thread, job), thread)
  {
    var now, end := Midway(thread, job, first), Finally(thread, job, first, second);
    FinallySettled(f, thread, job, first, second);
    if Along(c, f, thread) {
      QuietAlong(land, f, c, thread);
    }
    if Along(c, first.forest, now) {
      MidwayMounts(land, f, thread, job, first, c);
    }
    if Along(c, second.forest, end) {
      QuietAlong(land, second.forest, c, end);
    }
  }

  /** After the move the entry is listed by the destination's chain only, at its end; all other pairs are as they were. */
  lemma MovedListings(f: Forest, thread: seq<BlockPair>, job: Job, first: Landing, second: Landing)
    requires Threaded(f, thread) && Ready(f, thread, job) && Renames(f, thread, job, first, second)
    ensures var h, src, dst := second.forest, thread[job.src], thread[job.dst];
            var s := f[src].listing[job.id];
            && AllIn(h, [src] + second.conts) && AllIn(h, [dst] + first.conts)
            && ChainListing(h, [src] + second.conts) == f[src].listing[..job.id] + f[src].listing[job.id + 1..]
            && ChainListing(h, [dst] + first.conts) == f[dst].listing + [Slot(Some(NewTitle(job.create)), s.content, s.attrs)]
            && forall p :: p in f && p != src && p != dst ==> p in h && h[p] == f[p]
  {
    var g, src, dst := first.forest, thread[job.src], thread[job.dst];
    var chain := [dst] + first.conts;
    assert src != dst && g[src] == f[src];
    forall i | 0 <= i < |chain|
      ensures chain[i] in second.forest && second.forest[chain[i]] == g[chain[i]]
    {
      assert i > 0 ==> chain[i] == first.conts[i - 1] && Usable(f, first.conts[i - 1]);
      assert chain[i] in g && chain[i] != src;
    }
    ChainFrame(g, second.forest, chain, Intended(f[dst], CreateRequest(thread, job)).tail);
  }
}
