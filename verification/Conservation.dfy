/**
 What keeps the aggregate of global state: splits, dropping an emptied
 directory (`unthread_and_steal` in `src/fs.rs`), and a relocation whose
 repoint is one commit (`propagate_relocation`).
 */
module Conservation {
  import opened Words
  import opened Directory
  import opened Operations
  import opened Rebuild
  import opened Split
  import opened Gstate
  import opened Protocol

  predicate AllIn(f: Forest, pairs: seq<BlockPair>) {
    forall i :: 0 <= i < |pairs| ==> pairs[i] in f
  }

  /** The sum over a list is the sum before, at, and after any stretch of it. */
  lemma SumThree(k: Kind, f: Forest, a: seq<BlockPair>, b: seq<BlockPair>, c: seq<BlockPair>)
    requires Sane(f) && AllIn(f, a) && AllIn(f, b) && AllIn(f, c)
    ensures AllIn(f, (a + b) + c)
    ensures Sum(k, f, (a + b) + c) == XorBytes(XorBytes(Sum(k, f, a), Sum(k, f, b)), Sum(k, f, c))
  {
    SumConcat(k, f, a + b, c);
    SumConcat(k, f, a, b);
  }

  lemma {:induction false} StatelessSum(k: Kind, f: Forest, pairs: seq<BlockPair>)
    requires Sane(f) && AllIn(f, pairs) && Stateless(f, pairs)
    ensures Sum(k, f, pairs) == Zeros(Width(k))
  {
    if pairs != [] {
      StatelessSum(k, f, pairs[1..]);
      XorZeros(Zeros(Width(k)));
    }
  }

  // ---- Split ---------------------------------------------------------------------------

  /** A commit that brings pairs without state onto the thread moves the aggregate by its delta alone. */
  lemma GrownConserves(k: Kind, f: Forest, g: Forest, before: seq<BlockPair>, orig: BlockPair, after: seq<BlockPair>,
                       more: seq<BlockPair>, q: Request)
    requires Sane(f) && Sane(g) && AllIn(f, before) && AllIn(f, after) && orig in f && Stateless(g, more)
    requires orig !in before && orig !in after && Applies(f[orig], q)
    requires orig in g && Total(k, g[orig]) == Total(k, Intended(f[orig], q))
    requires forall p :: p in f && p != orig ==> p in g && g[p] == f[p]
    ensures AllIn(g, (before + ([orig] + more)) + after)
    ensures Sum(k, g, (before + ([orig] + more)) + after) == XorBytes(Sum(k, f, (before + [orig]) + after), Delta(k, q))
  {
    SumThree(k, g, before, [orig] + more, after);
    SumThree(k, f, before, [orig], after);
    SumConcat(k, g, [orig], more);
    StatelessSum(k, g, more);
    SumOne(k, f, orig);
    SumOne(k, g, orig);
    SumFrame(k, f, g, before);
    SumFrame(k, f, g, after);
    CommitTotal(k, f[orig], q);
    XorZeros(Total(k, g[orig]));
    var a, t, d, c := Sum(k, f, before), Total(k, f[orig]), Delta(k, q), Sum(k, f, after);
    assert Total(k, g[orig]) == XorBytes(t, d);
    XorAssoc(a, t, d);
    XorShuffle(XorBytes(a, t), d, c);
  }

  /**
   A split conserves the aggregate: the pair keeps its own totals, moved by the
   commit's delta, and the continuations add nothing.
   */
  lemma SplitConserves(k: Kind, f: Forest, g: Forest, before: seq<BlockPair>, orig: BlockPair, after: seq<BlockPair>,
                       conts: seq<BlockPair>, q: Request)
    requires Sane(f) && Sane(g) && AllIn(f, before) && AllIn(f, after) && orig in f
    requires orig !in before && orig !in after
    requires Applies(f[orig], q) && SplitDone(g, f[orig], q, orig, conts) && Stateless(g, conts)
    requires forall p :: p in f && p != orig ==> p in g && g[p] == f[p]
    ensures AllIn(g, (before + ([orig] + conts)) + after)
    ensures Sum(k, g, (before + ([orig] + conts)) + after) == XorBytes(Sum(k, f, (before + [orig]) + after), Delta(k, q))
  {
    GrownConserves(k, f, g, before, orig, after, conts, q);
  }

  lemma {:induction false} ChainMember(g: Forest, pairs: seq<BlockPair>, m: nat, s: Slot)
    requires AllIn(g, pairs) && m < |pairs| && s in g[pairs[m]].listing
    ensures s in ChainListing(g, pairs)
  {
    if m > 0 {
      ChainMember(g, pairs[1..], m - 1, s);
    }
  }

  /** The children a view names are all on the thread. */
  predicate ChildrenOn(v: View, thread: seq<BlockPair>) {
    forall j :: 0 <= j < |v.listing| && ChildOf(v.listing[j]).Some? ==> ChildOf(v.listing[j]).value in thread
  }

  predicate TailTo(v: View, next: Option<BlockPair>) {
    if next.Some? then v.tail.Some? && v.tail.value.pair == next.value else v.tail == None
  }

  function At(pairs: seq<BlockPair>, i: nat): Option<BlockPair> {
    if i < |pairs| then Some(pairs[i]) else None
  }

  lemma ThreadedFrom(g: Forest, thread: seq<BlockPair>)
    requires |thread| > 0 && Distinct(thread) && Sane(g) && AllIn(g, thread)
    requires forall i :: 0 <= i < |thread| ==> TailTo(g[thread[i]], At(thread, i + 1)) && ChildrenOn(g[thread[i]], thread)
    ensures Threaded(g, thread)
  {
    forall i | 0 <= i < |thread|
      ensures ThreadedAt(g, thread, i)
    {
      assert TailTo(g[thread[i]], At(thread, i + 1)) && ChildrenOn(g[thread[i]], thread);
    }
  }

  lemma ThreadedInto(f: Forest, thread: seq<BlockPair>, i: nat)
    requires Threaded(f, thread) && i < |thread|
    ensures TailTo(f[thread[i]], At(thread, i + 1)) && ChildrenOn(f[thread[i]], thread)
  {
    assert ThreadedAt(f, thread, i);
  }

  /**
   What a split leaves of the forest. The thread is the one that the request alone
   would leave, so the request may set the pair's tail too.
   */
  predicate SplitResult(f: Forest, g: Forest, before: seq<BlockPair>, orig: BlockPair, after: seq<BlockPair>, conts: seq<BlockPair>, q: Request) {
    && Sane(f) && orig in f && Applies(f[orig], q) && Threaded(Commit(f, orig, q), (before + [orig]) + after)
    && Sane(g) && SplitDone(g, f[orig], q, orig, conts)
    && (forall p :: p in f && p != orig ==> p in g && g[p] == f[p])
    && (forall i :: 0 <= i < |conts| ==> conts[i] !in f) && Distinct(conts)
  }

  lemma SplitBefore(f: Forest, g: Forest, before: seq<BlockPair>, orig: BlockPair, after: seq<BlockPair>, conts: seq<BlockPair>, q: Request, i: nat)
    requires SplitResult(f, g, before, orig, after, conts, q) && i < |before|
    ensures var now := (before + ([orig] + conts)) + after;
            now[i] in g && TailTo(g[now[i]], At(now, i + 1)) && ChildrenOn(g[now[i]], now)
  {
    var was, now := (before + [orig]) + after, (before + ([orig] + conts)) + after;
    ThreadedInto(Commit(f, orig, q), was, i);
    assert now[i] == was[i] && was[i] != was[|before|] && now[i + 1] == was[i + 1];
    assert forall p :: p in was ==> p in now;
  }

  lemma SplitAfter(f: Forest, g: Forest, before: seq<BlockPair>, orig: BlockPair, after: seq<BlockPair>, conts: seq<BlockPair>, q: Request, j: nat)
    requires SplitResult(f, g, before, orig, after, conts, q) && j < |after|
    ensures var now := (before + ([orig] + conts)) + after;
            var i := |before| + 1 + |conts| + j;
            now[i] in g && TailTo(g[now[i]], At(now, i + 1)) && ChildrenOn(g[now[i]], now)
  {
    var was, now := (before + [orig]) + after, (before + ([orig] + conts)) + after;
    var i, o := |before| + 1 + |conts| + j, |before| + 1 + j;
    ThreadedInto(Commit(f, orig, q), was, o);
    assert now[i] == after[j] == was[o] && was[|before|] == orig && was[o] != orig;
    assert At(now, i + 1) == At(after, j + 1) == At(was, o + 1);
    assert forall p :: p in was ==> p in now;
  }

  lemma SplitChain(f: Forest, g: Forest, before: seq<BlockPair>, orig: BlockPair, after: seq<BlockPair>, conts: seq<BlockPair>, q: Request, m: nat)
    requires SplitResult(f, g, before, orig, after, conts, q) && m <= |conts|
    ensures var now := (before + ([orig] + conts)) + after;
            var i := |before| + m;
            now[i] in g && TailTo(g[now[i]], At(now, i + 1)) && ChildrenOn(g[now[i]], now)
  {
    var was, now := (before + [orig]) + after, (before + ([orig] + conts)) + after;
    var chain, i := [orig] + conts, |before| + m;
    assert now[i] == chain[m] && LinkedAt(g, chain, Intended(f[orig], q).tail, m);
    ThreadedInto(Commit(f, orig, q), was, |before|);
    assert was[|before|] == orig && At(was, |before| + 1) == At(after, 0);
    assert m + 1 < |chain| ==> now[i + 1] == chain[m + 1];
    assert m + 1 == |chain| ==> At(now, i + 1) == At(after, 0);
    assert forall p :: p in was ==> p in now;
    ChainChildren(g, chain, m, Effect(q.op, f[orig].listing), now);
  }

  /** After a split the continuations stand on the thread right behind their pair. */
  lemma SplitKeepsThread(f: Forest, g: Forest, before: seq<BlockPair>, orig: BlockPair, after: seq<BlockPair>, conts: seq<BlockPair>, q: Request)
    requires SplitResult(f, g, before, orig, after, conts, q)
    ensures Threaded(g, (before + ([orig] + conts)) + after)
  {
    var now := (before + ([orig] + conts)) + after;
    forall i | 0 <= i < |now|
      ensures now[i] in g && TailTo(g[now[i]], At(now, i + 1)) && ChildrenOn(g[now[i]], now)
    {
      if i < |before| {
        SplitBefore(f, g, before, orig, after, conts, q, i);
      } else if i <= |before| + |conts| {
        SplitChain(f, g, before, orig, after, conts, q, i - |before|);
      } else {
        SplitAfter(f, g, before, orig, after, conts, q, i - |before| - |conts| - 1);
      }
    }
    SplitNoRepeats(f, before, orig, after, conts);
    ThreadedFrom(g, now);
  }

  lemma ChainChildren(g: Forest, chain: seq<BlockPair>, m: nat, all: seq<Slot>, thread: seq<BlockPair>)
    requires AllIn(g, chain) && m < |chain| && ChainListing(g, chain) == all
    requires forall s :: s in all && ChildOf(s).Some? ==> ChildOf(s).value in thread
    ensures ChildrenOn(g[chain[m]], thread)
  {
    var v := g[chain[m]];
    forall j | 0 <= j < |v.listing| && ChildOf(v.listing[j]).Some?
      ensures ChildOf(v.listing[j]).value in thread
    {
      ChainMember(g, chain, m, v.listing[j]);
    }
  }

  lemma SplitNoRepeats(f: Forest, before: seq<BlockPair>, orig: BlockPair, after: seq<BlockPair>, conts: seq<BlockPair>)
    requires Distinct((before + [orig]) + after) && AllIn(f, (before + [orig]) + after)
    requires (forall i :: 0 <= i < |conts| ==> conts[i] !in f) && Distinct(conts)
    ensures Distinct((before + ([orig] + conts)) + after)
  {
    var was, now := (before + [orig]) + after, (before + ([orig] + conts)) + after;
    var b, n := |before|, |conts|;
    forall i, j | 0 <= i < j < |now|
      ensures now[i] != now[j]
    {
      if b < i <= b + n || b < j <= b + n {
        assert b < i <= b + n ==> now[i] == conts[i - b - 1];
        assert b < j <= b + n ==> now[j] == conts[j - b - 1];
        assert !(b < i <= b + n) ==> now[i] == was[if i <= b then i else i - n];
        assert !(b < j <= b + n) ==> now[j] == was[if j <= b then j else j - n];
      } else {
        assert now[i] == was[if i <= b then i else i - n] && now[j] == was[if j <= b then j else j - n];
      }
    }
  }
}
