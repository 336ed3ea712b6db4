/**
 What a mount in the window of a two commit relocation leaves (`recover_pending_relocation`
 and `deorphan_sweep` in `src/fs.rs`). Its cancel goes to the stale copy, which shares
 a block with the new one: whether that block is written decides everything after.
 */
module Sweep {
  import opened Words
  import opened Rebuild
  import opened Split
  import opened Gstate
  import opened Protocol
  import opened Rename
  import opened Conservation
  import opened Landings
  import opened Relocation
  import opened Twins
  import Sizes
  import Unthread

  /** With idle totals a mount in the window commits the balancing body on the stale copy, and nothing else. */
  lemma WearWindowCancels(land: Lander, g: Forest, w: Twin, l: Landing)
    requires Honest(land) && Apart(g, w) && Quiet(g, ThreadOld(w.plan)) && w.plan.from in g && Idle(g[w.plan.from])
    requires Retrees(Copied(g, w.plan), w, l)
    ensures Spans(l.forest, ReachOf(w, l))
    ensures Recovered(land, l.forest, Of(l.forest, ReachOf(w, l))) == Ok(land(l.forest, w.plan.from, Balance(w.plan)).forest)
  {
    WearWindowReads(g, w, l);
    TwinDistinct(g, w);
    assert w.plan.from in Copied(g, w.plan) && w.plan.from != w.parent;
    assert ReadsAsRelocation(Of(l.forest, ReachOf(w, l)), w.plan);
    OnlyRelocation(land, l.forest, Of(l.forest, ReachOf(w, l)), PendingRelocation(w.plan.from, w.plan.to));
  }

  // ---- Whether the mount's cancel appends or rebuilds -------------------------------------------------

  /** `can_append` for the cancel: the active block's log ends at `end`, and `erased` says what is behind it. */
  predicate CancelAppends(r: Plan, erased: bool, end: nat, prog: nat, size: nat)
    requires prog > 0
  {
    Sizes.CanAppend(erased, end, prog, size, Balance(r))
  }

  /**
   The forest after the cancel. The two copies share the block that was active before
   the relocation. An append writes the stale copy's other block; a rebuild writes the
   shared one, which then is the newer in both copies.
   */
  function AfterCancel(k: Forest, w: Twin, appends: bool): (a: Forest)
    requires Sane(k) && w.plan.from in k
    ensures Sane(a)
  {
    var a := Anchored(k, w.plan);
    if appends then a else a[w.plan.to := a[w.plan.from]]
  }

  /** How recently each block was programmed, as the revisions say: the later block of a pair is the active one. */
  type Ages = nat -> nat

  function Active(p: BlockPair, age: Ages): nat {
    if age(p.a) < age(p.b) then p.b else p.a
  }

  /** `relocated_twin_in`: `t` shares a block with the stale pair, as its inactive half. */
  predicate TwinOf(t: BlockPair, stale: BlockPair, age: Ages) {
    t != stale &&
    if t.a == stale.a || t.a == stale.b then Active(t, age) != t.a
    else (t.b == stale.a || t.b == stale.b) && Active(t, age) != t.b
  }

  /** Wear levelling replaced the pair's alternate: `kept` was active, and `target` and the alternate are one commit newer. */
  predicate WearBlocks(r: Plan, kept: nat, alternate: nat, target: nat, age: Ages) {
    && ((r.from == BlockPair(kept, alternate) && r.to == BlockPair(kept, target))
        || (r.from == BlockPair(alternate, kept) && r.to == BlockPair(target, kept)))
    && kept != alternate && kept != target && alternate != target
    && age(alternate) == age(kept) + 1 && age(target) == age(kept) + 1
  }

  function AfterWrite(age: Ages, block: nat, appends: bool): Ages {
    (b: nat) => if b == block && !appends then age(b) + 2 else age(b)
  }

  lemma SpansSame(k: Forest, a: Forest, pairs: seq<BlockPair>)
    requires Spans(k, pairs) && Sane(a)
    requires forall i :: 0 <= i < |pairs| ==> pairs[i] in a && a[pairs[i]].tail == k[pairs[i]].tail && a[pairs[i]].listing == k[pairs[i]].listing
    ensures Spans(a, pairs)
  {
    forall i | 0 <= i < |pairs|
      ensures LinksWithin(a, pairs, i) && (i > 0 ==> NamedBefore(a, pairs, i))
    {
      assert LinksWithin(k, pairs, i);
      if i > 0 {
        assert NamedBefore(k, pairs, i);
        var j :| 0 <= j < i && Names(k, pairs[j], pairs[i]);
        assert Names(a, pairs[j], pairs[i]);
      }
    }
  }

  /** The window, in which both copies read the same. */
  lemma WindowForest(g: Forest, w: Twin)
    requires Apart(g, w) && w.plan.from in g
    ensures var h, v := Copied(g, w.plan), Intended(g[w.plan.from], Balance(w.plan));
            && w.parent in h && w.entry < |h[w.parent].listing| && Spans(Retreed(h, w), Reach(w))
            && var k := Retreed(h, w); w.plan.from in k && w.plan.to in k && k[w.plan.from] == v == k[w.plan.to]
    ensures Reach(w)[|w.plan.before| + 1] == w.plan.from && Reach(w)[|ThreadOld(w.plan)|] == w.plan.to && Distinct(Reach(w))
  {
    WearDoubled(g, w);
    WindowSpans(Copied(g, w.plan), g, w, Intended(g[w.plan.from], Balance(w.plan)));
    TwinDistinct(g, w);
    OldInReach(w);
  }

  lemma CancelFrame(k: Forest, w: Twin, appends: bool)
    requires Sane(k) && w.plan.from in k && w.plan.to in k && k[w.plan.from] == k[w.plan.to]
    ensures var a := AfterCancel(k, w, appends);
            forall p :: p in k ==> p in a && a[p].tail == k[p].tail && a[p].listing == k[p].listing
  {
  }

  lemma CancelSpans(g: Forest, w: Twin, appends: bool)
    requires Apart(g, w) && w.plan.from in g
    ensures var h := Copied(g, w.plan);
            && w.parent in h && w.entry < |h[w.parent].listing| && w.plan.from in Retreed(h, w)
            && Spans(AfterCancel(Retreed(h, w), w, appends), Reach(w))
  {
    WindowForest(g, w);
    var k := Retreed(Copied(g, w.plan), w);
    CancelFrame(k, w, appends);
    SpansSame(k, AfterCancel(k, w, appends), Reach(w));
  }

  /** The cancel moves the sum by its delta, once if it appends and twice if it rebuilds. */
  lemma CancelSum(kind: Kind, g: Forest, w: Twin, appends: bool)
    requires Apart(g, w) && w.plan.from in g
    ensures var h, d := Copied(g, w.plan), Delta(kind, Balance(w.plan));
            && w.parent in h && w.entry < |h[w.parent].listing| && Spans(Retreed(h, w), Reach(w)) && w.plan.from in Retreed(h, w)
            && var k := Retreed(h, w);
               var a := AfterCancel(k, w, appends);
               && Spans(a, Reach(w))
               && Sum(kind, a, Reach(w)) == XorBytes(Sum(kind, k, Reach(w)), if appends then d else Zeros(Width(kind)))
  {
    WindowForest(g, w);
    CancelSpans(g, w, appends);
    var k, d := Retreed(Copied(g, w.plan), w), Delta(kind, Balance(w.plan));
    var a := Anchored(k, w.plan);
    CommitMovesSum(kind, k, Reach(w), |w.plan.before| + 1, Balance(w.plan));
    if !appends {
      CommitMovesSum(kind, a, Reach(w), |ThreadOld(w.plan)|, Balance(w.plan));
      DeltaTwice(Sum(kind, k, Reach(w)), d);
      XorZeros(Sum(kind, k, Reach(w)));
    }
  }

  lemma RebuiltNotWindowed(g: Forest, w: Twin)
    requires Apart(g, w) && w.plan.from in g
    ensures var h := Copied(g, w.plan);
            && w.parent in h && w.entry < |h[w.parent].listing| && w.plan.from in Retreed(h, w)
            && !Windowed(AfterCancel(Retreed(h, w), w, false), g, w)
  {
    WindowForest(g, w);
    TwinDistinct(g, w);
    RelocateBodyDecodes(w.plan.from, w.plan.to);
    var t, b := g[w.plan.from].relocate, Relocation.Body(w.plan);
    DeltaTwice(t, b);
    if XorBytes(t, b) == t {
      XorComm(t, b);
      XorAssoc(b, t, t);
      XorSelf(t);
      XorZeros(b);
      assert false;
    }
  }

  /**
   With idle totals, what the cancel leaves is right exactly when it appends: then the
   new copy still carries the body, nothing is in flight, and the sweep finds the twin.
   A rebuild takes the body from both copies: the relocation reads as pending still,
   and the sweep takes the stale copy for an orphan.
   */
  lemma WearWindowHeals(g: Forest, w: Twin, erased: bool, end: nat, prog: nat, size: nat, kept: nat, alternate: nat, target: nat, age: Ages)
    requires Apart(g, w) && Quiet(g, ThreadOld(w.plan)) && w.plan.from in g && Idle(g[w.plan.from])
    requires prog > 0 && WearBlocks(w.plan, kept, alternate, target, age)
    ensures var h, appends := Copied(g, w.plan), CancelAppends(w.plan, erased, end, prog, size);
            && w.parent in h && w.entry < |h[w.parent].listing| && w.plan.from in Retreed(h, w)
            && var a := AfterCancel(Retreed(h, w), w, appends);
            && (Windowed(a, g, w) <==> appends)
            && Spans(a, Reach(w)) && MovePending(Of(a, Reach(w)).move) == None
            && Of(a, Reach(w)).relocate == (if appends then Zeros(RELOCATE_SIZE) else Relocation.Body(w.plan))
            && (TwinOf(w.plan.to, w.plan.from, AfterWrite(age, kept, appends)) <==> appends)
  {
    var appends := CancelAppends(w.plan, erased, end, prog, size);
    WearWindowed(g, w);
    WearPlain(g, w);
    CancelSpans(g, w, appends);
    CancelSum(Moves, g, w, appends);
    CancelSum(Relocations, g, w, appends);
    var r := w.plan;
    TwinDistinct(g, w);
    RelocateBodyDecodes(r.from, r.to);
    XorZeros(Zeros(MOVE_SIZE));
    XorZeros(Relocation.Body(r));
    XorSelf(Relocation.Body(r));
    XorZeros(g[r.from].move);
    if !appends {
      RebuiltNotWindowed(g, w);
    }
  }

  // ---- What the sweep then does ------------------------------------------------------------------

  /** The sweep's commit if it takes the stale copy for an orphan: `unthread_and_steal` past it. */
  function Swept(a: Forest, w: Twin): Forest
    requires Sane(a) && w.plan.parent in a && w.plan.from in a
  {
    Unthread.Dropped(a, w.plan.parent, [w.plan.from], w.plan.after)
  }

  /** Tails lead along `kept`, so every thread from its first pair is `kept`. */
  lemma {:induction false} OnlyThread(b: Forest, t: seq<BlockPair>, kept: seq<BlockPair>, n: nat)
    requires Threaded(b, t) && kept != [] && t[0] == kept[0] && n < |kept| && AllIn(b, kept)
    requires forall i :: 0 <= i < |kept| ==> TailTo(b[kept[i]], At(kept, i + 1))
    ensures n < |t| && t[n] == kept[n] && (n + 1 == |kept| ==> |t| == |kept|)
  {
    if n > 0 {
      OnlyThread(b, t, kept, n - 1);
      assert ThreadedAt(b, t, n - 1) && TailTo(b[kept[n - 1]], At(kept, n));
    }
    assert ThreadedAt(b, t, n) && TailTo(b[kept[n]], At(kept, n + 1));
  }

  lemma SweptTail(g: Forest, w: Twin, a: Forest, i: nat)
    requires Apart(g, w) && Sane(a) && w.plan.parent in a && w.plan.from in a && AllIn(a, ThreadOld(w.plan))
    requires forall j :: 0 <= j < |ThreadOld(w.plan)| ==> a[ThreadOld(w.plan)[j]].tail == g[ThreadOld(w.plan)[j]].tail
    requires forall j :: 0 <= j < |w.plan.after| ==> !w.plan.after[j].IsNull()
    requires i < |(w.plan.before + [w.plan.parent]) + w.plan.after|
    ensures var b, kept := Swept(a, w), (w.plan.before + [w.plan.parent]) + w.plan.after;
            kept[i] in b && TailTo(b[kept[i]], At(kept, i + 1)) && kept[i] in ThreadOld(w.plan)
  {
    var r, t, kept := w.plan, ThreadOld(w.plan), (w.plan.before + [w.plan.parent]) + w.plan.after;
    var o := if i <= |r.before| then i else i + 1;
    TwinDistinct(g, w);
    assert kept[i] == t[o] && t[o] in t;
    ThreadedInto(g, t, o);
    if i == |r.before| {
      assert At(kept, i + 1) == At(r.after, 0);
    } else {
      assert t[o] != r.parent && At(kept, i + 1) == At(t, o + 1);
    }
  }

  /** The parent's entry still names the new address, which is not on the thread. */
  lemma StillNamed(g: Forest, w: Twin, a: Forest, t: seq<BlockPair>)
    requires Apart(g, w) && Sane(a) && w.plan.parent in a && w.plan.from in a && w.parent in a && w.entry < |a[w.parent].listing|
    requires ChildOf(a[w.parent].listing[w.entry]) == Some(w.plan.to)
    requires t == (w.plan.before + [w.plan.parent]) + w.plan.after && forall i :: 0 <= i < |t| ==> t[i] in ThreadOld(w.plan)
    ensures !Threaded(Swept(a, w), t)
  {
    TwinDistinct(g, w);
    var i := KeptAt(w);
    AllWithin(t, ThreadOld(w.plan));
    assert Swept(a, w)[w.parent].listing == a[w.parent].listing;
    NamedOff(Swept(a, w), t, i, w.entry);
  }

  lemma KeptAt(w: Twin) returns (i: nat)
    requires w.parent in ThreadOld(w.plan) && w.parent != w.plan.from
    ensures var kept := (w.plan.before + [w.plan.parent]) + w.plan.after; i < |kept| && kept[i] == w.parent
  {
    var o :| 0 <= o < |ThreadOld(w.plan)| && ThreadOld(w.plan)[o] == w.parent;
    assert ThreadOld(w.plan)[|w.plan.before| + 1] == w.plan.from;
    i := if o <= |w.plan.before| then o else o - 1;
  }

  lemma AllWithin(t: seq<BlockPair>, was: seq<BlockPair>)
    requires forall i :: 0 <= i < |t| ==> t[i] in was
    ensures forall p :: p !in was ==> p !in t
  {
  }

  /** An entry that names a pair off the list: the list is no thread. */
  lemma NamedOff(b: Forest, t: seq<BlockPair>, i: nat, e: nat)
    requires i < |t| && t[i] in b && e < |b[t[i]].listing| && ChildOf(b[t[i]].listing[e]).Some?
    requires ChildOf(b[t[i]].listing[e]).value !in t
    ensures !Threaded(b, t)
  {
    assert !ThreadedAt(b, t, i);
  }

  /** `a` has the old thread's tails, and the entry names the new address. */
  ghost predicate Stranded(g: Forest, w: Twin, a: Forest) {
    && Apart(g, w) && Sane(a) && w.plan.parent in a && w.plan.from in a && w.parent in a && AllIn(a, ThreadOld(w.plan))
    && (forall j :: 0 <= j < |ThreadOld(w.plan)| ==> a[ThreadOld(w.plan)[j]].tail == g[ThreadOld(w.plan)[j]].tail)
    && w.entry < |a[w.parent].listing| && ChildOf(a[w.parent].listing[w.entry]) == Some(w.plan.to)
    && forall j :: 0 <= j < |w.plan.after| ==> !w.plan.after[j].IsNull()
  }

  lemma StrandedUnthreaded(g: Forest, w: Twin, a: Forest, t: seq<BlockPair>)
    requires Stranded(g, w, a) && t != [] && t[0] == ThreadOld(w.plan)[0]
    ensures !Threaded(Swept(a, w), t)
  {
    var b, kept := Swept(a, w), (w.plan.before + [w.plan.parent]) + w.plan.after;
    if Threaded(b, t) {
      forall i | 0 <= i < |kept|
        ensures kept[i] in b && TailTo(b[kept[i]], At(kept, i + 1)) && kept[i] in ThreadOld(w.plan)
      {
        SweptTail(g, w, a, i);
      }
      forall i | 0 <= i < |kept|
        ensures |t| == |kept| && t[i] == kept[i]
      {
        OnlyThread(b, t, kept, i);
        OnlyThread(b, t, kept, |kept| - 1);
      }
      StillNamed(g, w, a, t);
    }
  }

  /**
   After a rebuild the sweep of a directory of one pair leaves no thread at all: the
   pair lives on at its new address, named by its parent's entry, but no tail leads to
   it any more.
   */
  lemma SweepLosesPair(g: Forest, w: Twin, t: seq<BlockPair>)
    requires Apart(g, w) && w.plan.from in g && (g[w.plan.from].tail.Some? ==> !g[w.plan.from].tail.value.hard)
    requires forall i :: 0 <= i < |w.plan.after| ==> !w.plan.after[i].IsNull()
    requires t != [] && t[0] == ThreadOld(w.plan)[0]
    ensures var h := Copied(g, w.plan);
            && w.parent in h && w.entry < |h[w.parent].listing| && w.plan.from in Retreed(h, w)
            && var a := AfterCancel(Retreed(h, w), w, false);
            && w.plan.parent in a && !Threaded(Swept(a, w), t)
  {
    var h := Copied(g, w.plan);
    WindowForest(g, w);
    TwinDistinct(g, w);
    WearDoubled(g, w);
    ParentListing(h, g, w, Intended(g[w.plan.from], Balance(w.plan)));
    var a := AfterCancel(Retreed(h, w), w, false);
    forall j | 0 <= j < |ThreadOld(w.plan)|
      ensures ThreadOld(w.plan)[j] in a && a[ThreadOld(w.plan)[j]].tail == g[ThreadOld(w.plan)[j]].tail
    {
      assert ThreadOld(w.plan)[j] in ThreadOld(w.plan);
    }
    StrandedUnthreaded(g, w, a, t);
  }
}
