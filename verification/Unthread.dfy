/**
 Dropping an emptied directory from the thread (`unthread_and_steal` in
 `src/fs.rs`): its pairs' totals are folded into the predecessor's commit.
 */
module Unthread {
  import opened Words
  import opened Operations
  import opened Rebuild
  import opened Split
  import opened Gstate
  import opened Protocol
  import opened Conservation
  import opened Landings

  const NULL_PAIR: BlockPair := BlockPair(NO_BLOCK, NO_BLOCK)

  /** On disk it is eight erased bytes. */
  lemma NullPairBlank()
    ensures LeNat(NULL_PAIR.a) + LeNat(NULL_PAIR.b) == Blank(8)
  {
    NoBlockBytes(Blank(4));
    FromLeNatRoundTrip(Blank(4));
    assert Blank(4) + Blank(4) == Blank(8);
  }

  /** `dropped` stands on the thread right behind `pred`: its hard links run to its last pair and no further. */
  predicate Droppable(f: Forest, before: seq<BlockPair>, pred: BlockPair, dropped: seq<BlockPair>, after: seq<BlockPair>) {
    && Threaded(f, (before + [pred]) + (dropped + after)) && dropped != [] && pred in f && AllIn(f, dropped)
    && (forall i :: 0 <= i < |dropped| ==> HardAt(f, dropped, i))
  }

  predicate HardAt(f: Forest, dropped: seq<BlockPair>, i: nat)
    requires i < |dropped| && dropped[i] in f
  {
    (f[dropped[i]].tail.Some? && f[dropped[i]].tail.value.hard) <==> i + 1 < |dropped|
  }

  lemma DroppedTail(f: Forest, before: seq<BlockPair>, pred: BlockPair, dropped: seq<BlockPair>, after: seq<BlockPair>, i: nat)
    requires Droppable(f, before, pred, dropped, after) && i < |dropped|
    ensures i + 1 < |dropped| ==> f[dropped[i]].tail == Some(Thread(dropped[i + 1], true))
    ensures i + 1 == |dropped| ==> TailTo(f[dropped[i]], At(after, 0)) && (f[dropped[i]].tail.Some? ==> !f[dropped[i]].tail.value.hard)
  {
    var thread, j := (before + [pred]) + (dropped + after), |before| + 1 + i;
    ThreadedInto(f, thread, j);
    assert HardAt(f, dropped, i);
    assert thread[j] == dropped[i];
    assert i + 1 < |dropped| ==> At(thread, j + 1) == Some(dropped[i + 1]);
    assert i + 1 == |dropped| ==> At(thread, j + 1) == At(after, 0);
  }

  /** The walk along the dropped directory: its totals folded together, and the pair behind it. */
  method Steal(f: Forest, first: BlockPair, ghost before: seq<BlockPair>, ghost pred: BlockPair, ghost dropped: seq<BlockPair>, ghost after: seq<BlockPair>)
    returns (move: seq<byte>, relocate: seq<byte>, successor: Option<BlockPair>)
    requires Droppable(f, before, pred, dropped, after) && first == dropped[0]
    ensures move == Sum(Moves, f, dropped) && relocate == Sum(Relocations, f, dropped) && successor == At(after, 0)
  {
    move, relocate := Zeros(MOVE_SIZE), Zeros(RELOCATE_SIZE);
    var current := first;
    ghost var n := 0;
    assert dropped[..0] == [];
    while true
      invariant n < |dropped| && current == dropped[n]
      invariant move == Sum(Moves, f, dropped[..n]) && relocate == Sum(Relocations, f, dropped[..n])
      decreases |dropped| - n
    {
      DroppedTail(f, before, pred, dropped, after, n);
      SumSnoc(Moves, f, dropped, n);
      SumSnoc(Relocations, f, dropped, n);
      move := XorBytes(move, f[current].move);
      relocate := XorBytes(relocate, f[current].relocate);
      var tail := f[current].tail;
      if tail.Some? && tail.value.hard {
        current := tail.value.pair;
        n := n + 1;
      } else {
        assert dropped[..n + 1] == dropped;
        return move, relocate, if tail.Some? then Some(tail.value.pair) else None;
      }
    }
  }

  /** The commit that unthreads: what was stolen, and a soft link past the dropped directory. */
  function DropRequest(move: seq<byte>, relocate: seq<byte>, successor: Option<BlockPair>): Request {
    Request(Noop, NonZero(move), NonZero(relocate), Some(Thread(if successor.Some? then successor.value else NULL_PAIR, false)))
  }

  /** `unthread_and_steal`, whose commit lands as `land` says. */
  method UnthreadAndSteal(land: Lander, f: Forest, pred: BlockPair, first: BlockPair, ghost before: seq<BlockPair>, ghost dropped: seq<BlockPair>, ghost after: seq<BlockPair>)
    returns (l: Landing)
    requires Honest(land) && Droppable(f, before, pred, dropped, after) && first == dropped[0]
    ensures Drops(f, pred, dropped, after, l)
  {
    var move, relocate, successor := Steal(f, first, before, pred, dropped, after);
    assert HonestAt(land, f, pred, DropRequest(move, relocate, successor));
    l := land(f, pred, DropRequest(move, relocate, successor));
  }

  /** The drop of `dropped` lands as `l`. A drop that clears the tail is always a rebuild, so it may split `pred`. */
  predicate Drops(f: Forest, pred: BlockPair, dropped: seq<BlockPair>, after: seq<BlockPair>, l: Landing)
    requires Sane(f) && pred in f && AllIn(f, dropped)
  {
    Lands(f, pred, DropRequest(Sum(Moves, f, dropped), Sum(Relocations, f, dropped), At(after, 0)), l)
  }

  /** The drop as a plain commit. */
  function Dropped(f: Forest, pred: BlockPair, dropped: seq<BlockPair>, after: seq<BlockPair>): Forest
    requires Sane(f) && pred in f && AllIn(f, dropped)
  {
    Commit(f, pred, DropRequest(Sum(Moves, f, dropped), Sum(Relocations, f, dropped), At(after, 0)))
  }

  lemma DropDelta(k: Kind, f: Forest, dropped: seq<BlockPair>, after: seq<BlockPair>)
    requires Sane(f) && AllIn(f, dropped)
    ensures Delta(k, DropRequest(Sum(Moves, f, dropped), Sum(Relocations, f, dropped), At(after, 0))) == Sum(k, f, dropped)
  {
  }

  /** Dropping a directory with its state stolen conserves the sum of either kind. */
  lemma DropConserves(k: Kind, f: Forest, before: seq<BlockPair>, pred: BlockPair, dropped: seq<BlockPair>, after: seq<BlockPair>)
    requires Droppable(f, before, pred, dropped, after)
    ensures var g := Dropped(f, pred, dropped, after);
            AllIn(g, (before + [pred]) + after) && Sum(k, g, (before + [pred]) + after) == Sum(k, f, (before + [pred]) + (dropped + after))
  {
    var thread, kept, b := (before + [pred]) + (dropped + after), (before + [pred]) + after, |before|;
    var q := DropRequest(Sum(Moves, f, dropped), Sum(Relocations, f, dropped), At(after, 0));
    KeptOf(before, pred, dropped, after);
    KeptIn(f, before, pred, dropped, after);
    assert kept[b] == pred;
    CommitMovesSum(k, f, kept, b, q);
    DropDelta(k, f, dropped, after);
    SumConcat(k, f, before + [pred], dropped + after);
    SumConcat(k, f, dropped, after);
    SumConcat(k, f, before + [pred], after);
    var x, d, r := Sum(k, f, before + [pred]), Sum(k, f, dropped), Sum(k, f, after);
    XorAssoc(x, r, d);
    XorComm(r, d);
  }

  lemma KeptIn(f: Forest, before: seq<BlockPair>, pred: BlockPair, dropped: seq<BlockPair>, after: seq<BlockPair>)
    requires AllIn(f, (before + [pred]) + (dropped + after))
    ensures AllIn(f, before + [pred]) && AllIn(f, dropped) && AllIn(f, after) && AllIn(f, dropped + after) && AllIn(f, (before + [pred]) + after)
  {
    var thread, b := (before + [pred]) + (dropped + after), |before|;
    assert forall i :: 0 <= i <= b ==> (before + [pred])[i] == thread[i];
    assert forall i :: 0 <= i < |dropped + after| ==> (dropped + after)[i] == thread[b + 1 + i];
    assert forall i :: 0 <= i < |dropped| ==> dropped[i] == (dropped + after)[i];
    assert forall i :: 0 <= i < |after| ==> after[i] == (dropped + after)[|dropped| + i];
  }

  lemma KeptOf(before: seq<BlockPair>, pred: BlockPair, dropped: seq<BlockPair>, after: seq<BlockPair>)
    requires Distinct((before + [pred]) + (dropped + after))
    ensures Distinct((before + [pred]) + after)
  {
    var thread, kept, b, n := (before + [pred]) + (dropped + after), (before + [pred]) + after, |before|, |dropped|;
    forall i, j | 0 <= i < j < |kept|
      ensures kept[i] != kept[j]
    {
      assert kept[i] == thread[if i <= b then i else i + n] && kept[j] == thread[if j <= b then j else j + n];
    }
  }

  lemma KeptTails(f: Forest, before: seq<BlockPair>, pred: BlockPair, dropped: seq<BlockPair>, after: seq<BlockPair>, i: nat)
    requires Droppable(f, before, pred, dropped, after) && i < |(before + [pred]) + after| && i != |before|
    ensures var kept := (before + [pred]) + after;
            kept[i] != pred && kept[i] in f && TailTo(f[kept[i]], At(kept, i + 1))
  {
    var thread, kept, b, n := (before + [pred]) + (dropped + after), (before + [pred]) + after, |before|, |dropped|;
    var o := if i < b then i else i + n;
    ThreadedInto(f, thread, o);
    assert kept[i] == thread[o] && thread[b] == pred && At(kept, i + 1) == At(thread, o + 1);
  }

  /** No live link leads into the directory any more. */
  predicate Unnamed(f: Forest, before: seq<BlockPair>, pred: BlockPair, after: seq<BlockPair>) {
    var kept := (before + [pred]) + after;
    (forall i :: 0 <= i < |after| ==> !after[i].IsNull()) && forall p :: p in kept ==> p in f && ChildrenOn(f[p], kept)
  }

  /** With no live link left into it, the dropped directory is off the thread. */
  lemma DropKeepsThread(f: Forest, before: seq<BlockPair>, pred: BlockPair, dropped: seq<BlockPair>, after: seq<BlockPair>)
    requires Droppable(f, before, pred, dropped, after) && Unnamed(f, before, pred, after)
    ensures Threaded(Dropped(f, pred, dropped, after), (before + [pred]) + after)
  {
    var kept, b := (before + [pred]) + after, |before|;
    var g := Dropped(f, pred, dropped, after);
    KeptOf(before, pred, dropped, after);
    forall i | 0 <= i < |kept|
      ensures kept[i] in g && TailTo(g[kept[i]], At(kept, i + 1)) && ChildrenOn(g[kept[i]], kept)
    {
      assert kept[i] in kept;
      if i == b {
        assert kept[b] == pred && At(kept, b + 1) == At(after, 0);
      } else {
        KeptTails(f, before, pred, dropped, after, i);
      }
    }
    ThreadedFrom(g, kept);
  }

  // ---- The drop as it lands ------------------------------------------------------------

  lemma {:induction false} DirsSoft(f: Forest, front: seq<BlockPair>, rest: seq<BlockPair>)
    requires front != [] && AllIn(f, front) && AllIn(f, rest) && AllIn(f, front + rest)
    requires var t := f[front[|front| - 1]].tail; t.Some? ==> !t.value.hard
    ensures Dirs(f, front + rest) == Dirs(f, front) + Dirs(f, rest)
  {
    var p, more := front[0], front[1..];
    assert (front + rest)[1..] == more + rest && (front + rest)[0] == p;
    if more == [] {
      assert more + rest == rest;
    } else {
      assert more[|more| - 1] == front[|front| - 1];
      DirsSoft(f, more, rest);
      assert Dirs(f, more) != [] by {
        assert Dirs(f, more) == Begun(more[0], f[more[0]].listing, f[more[0]].tail, Dirs(f, more[1..]));
      }
      BegunApart(p, f[p].listing, f[p].tail, Dirs(f, more), Dirs(f, rest));
    }
  }

  lemma DroppedLinked(f: Forest, before: seq<BlockPair>, pred: BlockPair, dropped: seq<BlockPair>, after: seq<BlockPair>, last: Option<Thread>)
    requires Droppable(f, before, pred, dropped, after) && last == f[dropped[|dropped| - 1]].tail
    ensures Linked(f, dropped, last) && (last.Some? ==> !last.value.hard)
  {
    forall i | 0 <= i < |dropped|
      ensures LinkedAt(f, dropped, last, i)
    {
      DroppedTail(f, before, pred, dropped, after, i);
    }
    DroppedTail(f, before, pred, dropped, after, |dropped| - 1);
  }

  /** Before the drop: the directories up to the predecessor's, the one to go, and those behind it. */
  lemma DirsBeforeDrop(f: Forest, before: seq<BlockPair>, pred: BlockPair, dropped: seq<BlockPair>, after: seq<BlockPair>)
    requires Droppable(f, before, pred, dropped, after) && (f[pred].tail.Some? ==> !f[pred].tail.value.hard)
    ensures AllIn(f, before + [pred]) && AllIn(f, after)
    ensures Dirs(f, (before + [pred]) + (dropped + after))
         == Dirs(f, before + [pred]) + ([Dir(dropped[0], ChainListing(f, dropped))] + Dirs(f, after))
  {
    KeptIn(f, before, pred, dropped, after);
    DirsSoft(f, before + [pred], dropped + after);
    var last := f[dropped[|dropped| - 1]].tail;
    DroppedLinked(f, before, pred, dropped, after, last);
    DirsChain(f, dropped, last, after);
  }

  lemma DirsAfterDrop(f: Forest, before: seq<BlockPair>, pred: BlockPair, dropped: seq<BlockPair>, after: seq<BlockPair>)
    requires Droppable(f, before, pred, dropped, after) && Unnamed(f, before, pred, after) && (f[pred].tail.Some? ==> !f[pred].tail.value.hard)
    ensures AllIn(f, before + [pred]) && AllIn(f, after) && Threaded(Dropped(f, pred, dropped, after), (before + [pred]) + after)
    ensures Dirs(Dropped(f, pred, dropped, after), (before + [pred]) + after) == Dirs(f, before + [pred]) + Dirs(f, after)
  {
    var g := Dropped(f, pred, dropped, after);
    KeptIn(f, before, pred, dropped, after);
    KeptOf(before, pred, dropped, after);
    DropKeepsThread(f, before, pred, dropped, after);
    DirsSoft(g, before + [pred], after);
    DroppedDirs(f, g, before, pred, after);
  }

  /** Only the predecessor's tail differs, and that not in being soft. */
  lemma DroppedDirs(f: Forest, g: Forest, before: seq<BlockPair>, pred: BlockPair, after: seq<BlockPair>)
    requires Distinct((before + [pred]) + after) && AllIn(f, (before + [pred]) + after) && AllIn(g, (before + [pred]) + after)
    requires AllIn(f, before + [pred]) && AllIn(g, before + [pred]) && AllIn(f, after) && AllIn(g, after)
    requires pred in f && pred in g && OthersKept(f, pred, g) && g[pred].listing == f[pred].listing
    ensures Dirs(g, before + [pred]) == Dirs(f, before + [pred]) && Dirs(g, after) == Dirs(f, after)
  {
    var kept := (before + [pred]) + after;
    assert kept[|before|] == pred;
    forall i | 0 <= i < |before|
      ensures before[i] in f && before[i] in g && g[before[i]] == f[before[i]]
    {
      assert before[i] == kept[i] == (before + [pred])[i];
    }
    forall i | 0 <= i < |after|
      ensures g[after[i]] == f[after[i]]
    {
      assert after[i] == kept[|before| + 1 + i];
    }
    DirsBehind(f, g, before, [pred], [pred]);
    DirsSame(f, g, after);
  }

  lemma DropSettles(f: Forest, before: seq<BlockPair>, pred: BlockPair, dropped: seq<BlockPair>, after: seq<BlockPair>, l: Landing)
    requires Droppable(f, before, pred, dropped, after) && Unnamed(f, before, pred, after) && Drops(f, pred, dropped, after, l)
    ensures var g, kept := Dropped(f, pred, dropped, after), (before + [pred]) + after;
            var now := Insert(kept, pred, l.conts);
            && Threaded(g, kept) && Of(g, kept) == Of(f, (before + [pred]) + (dropped + after))
            && Threaded(l.forest, now) && Of(l.forest, now) == Of(g, kept) && Dirs(l.forest, now) == Dirs(g, kept)
  {
    var kept := (before + [pred]) + after;
    DropKeepsThread(f, before, pred, dropped, after);
    DropConserves(Moves, f, before, pred, dropped, after);
    DropConserves(Relocations, f, before, pred, dropped, after);
    assert kept[|before|] == pred;
    LandingReads(f, kept, pred, DropRequest(Sum(Moves, f, dropped), Sum(Relocations, f, dropped), At(after, 0)), l);
  }

  /**
   However the drop lands, the aggregate is conserved, the directory's pairs are off
   the thread, and it is the one directory that is gone.
   */
  lemma DropLanding(f: Forest, before: seq<BlockPair>, pred: BlockPair, dropped: seq<BlockPair>, after: seq<BlockPair>, l: Landing)
    requires Droppable(f, before, pred, dropped, after) && Unnamed(f, before, pred, after) && Drops(f, pred, dropped, after, l)
    ensures var now := Insert((before + [pred]) + after, pred, l.conts);
            && Threaded(l.forest, now) && Of(l.forest, now) == Of(f, (before + [pred]) + (dropped + after))
    ensures f[pred].tail.Some? && !f[pred].tail.value.hard ==>
              && AllIn(f, before + [pred]) && AllIn(f, after)
              && Dirs(f, (before + [pred]) + (dropped + after))
                 == Dirs(f, before + [pred]) + ([Dir(dropped[0], ChainListing(f, dropped))] + Dirs(f, after))
              && Dirs(l.forest, Insert((before + [pred]) + after, pred, l.conts)) == Dirs(f, before + [pred]) + Dirs(f, after)
  {
    DropSettles(f, before, pred, dropped, after, l);
    if f[pred].tail.Some? && !f[pred].tail.value.hard {
      DirsBeforeDrop(f, before, pred, dropped, after);
      DirsAfterDrop(f, before, pred, dropped, after);
    }
  }
}
