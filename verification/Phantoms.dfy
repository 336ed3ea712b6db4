/**
 A rename remembered too long: in the window of a two commit relocation, a mount that
 finds an old move in the stale copy's total does it again (`recover_pending_move` in
 `src/fs.rs`).
 */
module Phantoms {
  import opened Words
  import opened Directory
  import opened Rebuild
  import opened Split
  import opened Gstate
  import opened Protocol
  import opened Rename
  import opened Conservation
  import opened Landings
  import opened Relocation
  import opened Twins

  /** Of the pair's chain, the entry the move names is gone. */
  predicate Deleted(k: Forest, m: PendingMove, done: Landing) {
    && m.pair in k && m.id < |k[m.pair].listing| && AllIn(done.forest, [m.pair] + done.conts)
    && ChainListing(done.forest, [m.pair] + done.conts) == k[m.pair].listing[..m.id] + k[m.pair].listing[m.id + 1..]
  }

  /**
   A move that the stale copy's total still spells is done again: a mount in the
   window fails, or deletes the entry that now has the number the move once named.
   */
  lemma PhantomMove(land: Lander, h: Forest, g: Forest, w: Twin, v: View, l: Landing, m: PendingMove)
    requires Honest(land) && Doubled(h, g, w, v) && Quiet(g, ThreadOld(w.plan)) && Retrees(h, w, l) && MovePending(v.move) == Some(m)
    ensures Spans(l.forest, ReachOf(w, l))
    ensures var k, agg := l.forest, Of(l.forest, ReachOf(w, l));
            var done, next := land(k, m.pair, FinishRequest(m)), RelocationPending(agg.relocate);
            if m.pair !in k || m.id >= |k[m.pair].listing| then Recovered(land, k, agg) == Err(Corrupt)
            else
              && Deleted(k, m, done) && Sane(done.forest)
              && Recovered(land, k, agg) == if next.Some? then CancelRelocation(land, done.forest, next.value) else Ok(done.forest)
  {
    WindowAggregate(h, g, w, v, l);
    XorZeros(v.move);
    FinishDeletes(land, l.forest, Of(l.forest, ReachOf(w, l)), m);
  }

  lemma FinishDeletes(land: Lander, k: Forest, agg: Aggregate, m: PendingMove)
    requires Honest(land) && Sane(k) && |agg.move| == MOVE_SIZE && |agg.relocate| == RELOCATE_SIZE && MovePending(agg.move) == Some(m)
    ensures var done, l := land(k, m.pair, FinishRequest(m)), RelocationPending(agg.relocate);
            if m.pair !in k || m.id >= |k[m.pair].listing| then Recovered(land, k, agg) == Err(Corrupt)
            else
              && Deleted(k, m, done) && Sane(done.forest)
              && Recovered(land, k, agg) == if l.Some? then CancelRelocation(land, done.forest, l.value) else Ok(done.forest)
  {
    if m.pair in k && m.id < |k[m.pair].listing| {
      DeleteLands(land, k, m);
    }
  }

  lemma DeleteLands(land: Lander, k: Forest, m: PendingMove)
    requires Honest(land) && Sane(k) && m.pair in k && m.id < |k[m.pair].listing|
    ensures var done := land(k, m.pair, FinishRequest(m));
            Deleted(k, m, done) && Sane(done.forest) && OthersKept(k, m.pair, done.forest)
  {
    assert HonestAt(land, k, m.pair, FinishRequest(m));
  }

  // ---- A file lost -----------------------------------------------------------------------

  const ROOT: BlockPair := BlockPair(0, 1)
  const SOURCE: BlockPair := BlockPair(2, 3)
  const TARGET: BlockPair := BlockPair(4, 5)
  const MOVED: BlockPair := BlockPair(4, 6)

  const CHAIN: seq<BlockPair> := [ROOT, SOURCE, TARGET]

  const MOVING: Twin := Twin(Plan([ROOT], SOURCE, TARGET, [], MOVED, None), ROOT, 1)

  /** Directory entries for the two directories, and a file. */
  predicate Entries(a: Slot, b: Slot, file: Slot) {
    ChildOf(a) == Some(SOURCE) && ChildOf(b) == Some(TARGET) && ChildOf(file) == None
  }

  /** Two directories after a completed rename from the first to the second, whose totals `m` still spell it and cancel. */
  function Renamed(a: Slot, b: Slot, file: Slot, m: seq<byte>): Forest {
    map[
      ROOT := View([a, b], Some(Thread(SOURCE, false)), Zeros(MOVE_SIZE), Zeros(RELOCATE_SIZE)),
      SOURCE := View([file], Some(Thread(TARGET, false)), m, Zeros(RELOCATE_SIZE)),
      TARGET := View([], None, m, Zeros(RELOCATE_SIZE))
    ]
  }

  lemma RenamedThread(a: Slot, b: Slot, file: Slot, m: seq<byte>)
    requires Entries(a, b, file) && |m| == MOVE_SIZE
    ensures Threaded(Renamed(a, b, file, m), CHAIN)
  {
    var g := Renamed(a, b, file, m);
    RenamedChildren(a, b, file, m);
    ThreeThreaded(g, ROOT, SOURCE, TARGET);
  }

  lemma RenamedChildren(a: Slot, b: Slot, file: Slot, m: seq<byte>)
    requires Entries(a, b, file)
    ensures var g := Renamed(a, b, file, m); ChildrenOn(g[ROOT], CHAIN) && ChildrenOn(g[SOURCE], CHAIN) && ChildrenOn(g[TARGET], CHAIN)
  {
    assert CHAIN[0] == ROOT && CHAIN[1] == SOURCE && CHAIN[2] == TARGET;
  }

  lemma ThreeThreaded(g: Forest, x: BlockPair, y: BlockPair, z: BlockPair)
    requires Sane(g) && x in g && y in g && z in g && x != y && y != z && x != z
    requires TailTo(g[x], Some(y)) && TailTo(g[y], Some(z)) && TailTo(g[z], None)
    requires ChildrenOn(g[x], [x, y, z]) && ChildrenOn(g[y], [x, y, z]) && ChildrenOn(g[z], [x, y, z])
    ensures Threaded(g, [x, y, z])
  {
    ThreadedFrom(g, [x, y, z]);
  }

  lemma OldChain()
    ensures ThreadOld(MOVING.plan) == CHAIN
    ensures forall p :: p in CHAIN <==> p == ROOT || p == SOURCE || p == TARGET
  {
    assert CHAIN[0] == ROOT && CHAIN[1] == SOURCE && CHAIN[2] == TARGET;
  }

  lemma RenamedElsewhere(a: Slot, b: Slot, file: Slot, m: seq<byte>)
    requires Entries(a, b, file)
    ensures var g := Renamed(a, b, file, m);
            && Elsewhere(g[ROOT], MOVING.plan, Some(1)) && Elsewhere(g[SOURCE], MOVING.plan, None)
            && Elsewhere(g[TARGET], MOVING.plan, None)
  {
    OldChain();
  }

  lemma RenamedApart(a: Slot, b: Slot, file: Slot, m: seq<byte>)
    requires Entries(a, b, file) && |m| == MOVE_SIZE
    ensures ThreadOld(MOVING.plan) == CHAIN && Apart(Renamed(a, b, file, m), MOVING)
  {
    OldChain();
    RenamedThread(a, b, file, m);
    RenamedElsewhere(a, b, file, m);
  }

  lemma SumTriple(k: Kind, f: Forest, a: BlockPair, b: BlockPair, c: BlockPair)
    requires Sane(f) && a in f && b in f && c in f
    ensures Sum(k, f, [a, b, c]) == XorBytes(Total(k, f[a]), XorBytes(Total(k, f[b]), Total(k, f[c])))
  {
    assert [a, b, c][1..] == [b, c] && [b, c][1..] == [c];
    SumOne(k, f, c);
  }

  lemma RenamedQuiet(a: Slot, b: Slot, file: Slot, m: seq<byte>)
    requires Entries(a, b, file) && |m| == MOVE_SIZE
    ensures Threaded(Renamed(a, b, file, m), CHAIN) && Quiet(Renamed(a, b, file, m), CHAIN)
  {
    var g := Renamed(a, b, file, m);
    RenamedThread(a, b, file, m);
    SumTriple(Moves, g, ROOT, SOURCE, TARGET);
    SumTriple(Relocations, g, ROOT, SOURCE, TARGET);
    XorSelf(m);
    XorZeros(Zeros(MOVE_SIZE));
    XorZeros(Zeros(RELOCATE_SIZE));
  }

  /**
   Nothing is in flight but the relocation of the second directory. A mount between
   its two commits finishes the old rename once more: the first directory loses a
   file that was never part of it.
   */
  lemma FileLostExample(land: Lander, a: Slot, b: Slot, file: Slot)
    requires Honest(land) && Entries(a, b, file)
    ensures var g := Renamed(a, b, file, MoveBody(SOURCE, 0));
            && Threaded(g, ThreadOld(MOVING.plan)) && Quiet(g, ThreadOld(MOVING.plan)) && Apart(g, MOVING)
            && var h := Copied(g, MOVING.plan);
            && ROOT in h && |h[ROOT].listing| == 2 && Spans(Retreed(h, MOVING), Reach(MOVING))
            && var k := Retreed(h, MOVING);
            && SOURCE in k && k[SOURCE].listing == [file]
            && var res := Recovered(land, k, Of(k, Reach(MOVING)));
            && res.Ok? && SOURCE in res.value && res.value[SOURCE].listing == []
  {
    FileLost(land, a, b, file, MoveBody(SOURCE, 0));
  }

  lemma FileLost(land: Lander, a: Slot, b: Slot, file: Slot, m: seq<byte>)
    requires Honest(land) && Entries(a, b, file) && m == MoveBody(SOURCE, 0)
    ensures var g := Renamed(a, b, file, m);
            && Threaded(g, ThreadOld(MOVING.plan)) && Quiet(g, ThreadOld(MOVING.plan)) && Apart(g, MOVING)
            && var h := Copied(g, MOVING.plan);
            && ROOT in h && |h[ROOT].listing| == 2 && Spans(Retreed(h, MOVING), Reach(MOVING))
            && var k := Retreed(h, MOVING);
            && SOURCE in k && k[SOURCE].listing == [file]
            && var res := Recovered(land, k, Of(k, Reach(MOVING)));
            && res.Ok? && SOURCE in res.value && res.value[SOURCE].listing == []
  {
    RenamedApart(a, b, file, m);
    RenamedQuiet(a, b, file, m);
    LostIn(land, Renamed(a, b, file, m), file);
  }

  lemma LostIn(land: Lander, g: Forest, file: Slot)
    requires Honest(land) && Apart(g, MOVING) && Quiet(g, ThreadOld(MOVING.plan))
    requires SOURCE in g && TARGET in g && g[SOURCE].listing == [file] && ROOT in g && |g[ROOT].listing| == 2
    requires g[TARGET].move == MoveBody(SOURCE, 0) && g[TARGET].relocate == Zeros(RELOCATE_SIZE)
    ensures var h := Copied(g, MOVING.plan);
            && ROOT in h && |h[ROOT].listing| == 2 && Spans(Retreed(h, MOVING), Reach(MOVING))
            && var k := Retreed(h, MOVING);
            && SOURCE in k && k[SOURCE].listing == [file]
            && var res := Recovered(land, k, Of(k, Reach(MOVING)));
            && res.Ok? && SOURCE in res.value && res.value[SOURCE].listing == []
  {
    WearPlain(g, MOVING);
    LostWindow(g, file);
    var k := Retreed(Copied(g, MOVING.plan), MOVING);
    LostFrom(land, k, Of(k, Reach(MOVING)), file);
  }

  /** The window leaves the first directory as it is. */
  lemma LostWindow(g: Forest, file: Slot)
    requires Apart(g, MOVING) && SOURCE in g && TARGET in g && g[SOURCE].listing == [file] && ROOT in g && |g[ROOT].listing| == 2
    ensures var h := Copied(g, MOVING.plan);
            && ROOT in h && |h[ROOT].listing| == 2 && Sane(h)
            && var k := Retreed(h, MOVING);
               SOURCE in k && TARGET in k && k[SOURCE].listing == [file]
  {
    TwinDistinct(g, MOVING);
  }

  lemma LostFrom(land: Lander, k: Forest, agg: Aggregate, file: Slot)
    requires Honest(land) && Sane(k) && SOURCE in k && TARGET in k && k[SOURCE].listing == [file] && agg.move == MoveBody(SOURCE, 0)
    requires agg.relocate == XorBytes(Zeros(RELOCATE_SIZE), RelocateBody(TARGET, MOVED))
    ensures var res := Recovered(land, k, agg); res.Ok? && SOURCE in res.value && res.value[SOURCE].listing == []
  {
    MoveBodyDecodes(SOURCE, 0);
    RelocateBodyDecodes(TARGET, MOVED);
    XorZeros(RelocateBody(TARGET, MOVED));
    LostBoth(land, k, agg, PendingMove(SOURCE, 0), PendingRelocation(TARGET, MOVED));
  }

  /** Both are done, and a directory with one entry is left with none. */
  lemma LostBoth(land: Lander, k: Forest, agg: Aggregate, m: PendingMove, l: PendingRelocation)
    requires Honest(land) && Sane(k) && |agg.move| == MOVE_SIZE && |agg.relocate| == RELOCATE_SIZE
    requires MovePending(agg.move) == Some(m) && RelocationPending(agg.relocate) == Some(l)
    requires m.pair in k && |k[m.pair].listing| == 1 && m.id == 0 && l.from in k && l.from != m.pair
    ensures var res := Recovered(land, k, agg); res.Ok? && m.pair in res.value && res.value[m.pair].listing == []
  {
    var done := land(k, m.pair, FinishRequest(m));
    FinishDeletes(land, k, agg, m);
    DeleteLands(land, k, m);
    FirstEmpty(done.forest, m.pair, done.conts);
    CancelKeeps(land, done.forest, l);
  }

  lemma FirstEmpty(f: Forest, p: BlockPair, conts: seq<BlockPair>)
    requires AllIn(f, [p] + conts) && ChainListing(f, [p] + conts) == []
    ensures p in f && f[p].listing == []
  {
    assert ([p] + conts)[0] == p;
  }

  lemma CancelKeeps(land: Lander, f: Forest, l: PendingRelocation)
    requires Honest(land) && Sane(f) && l.from in f
    ensures CancelRelocation(land, f, l).Ok? && OthersKept(f, l.from, CancelRelocation(land, f, l).value)
  {
    assert HonestAt(land, f, l.from, CancelRequest(l));
  }
}
