/**
 A relocation whose parent is not its thread predecessor (`propagate_relocation`,
 `mount` and `deorphan_sweep` in `src/fs.rs`): two commits, and between them the
 tree names the new address while the thread still names the old one.

 Both copies of the pair are then reachable, so a mount in that window adds the
 totals of the stale copy to the aggregate. It reads exactly the relocation in
 flight if and only if the pair's own totals are in order; a total left by an
 earlier, completed rename or relocation is read as one still to be done.
 */
module Twins {
  import opened Words
  import opened Operations
  import opened Rebuild
  import opened Split
  import opened Gstate
  import opened Protocol
  import opened Rename
  import opened Conservation
  import opened Landings
  import opened Relocation

  /** `plan.parent` is the thread predecessor; the entry that names the pair is `entry` of `parent`, another pair. */
  datatype Twin = Twin(plan: Plan, parent: BlockPair, entry: nat)

  /** The relocation may start from `g`: as `Movable`, but for where the entry is. */
  ghost predicate Apart(g: Forest, w: Twin) {
    var r := w.plan;
    && Threaded(g, ThreadOld(r)) && r.entry == None
    && r.to !in g && Addressable(r.from) && Addressable(r.to) && !r.to.IsNull()
    && w.parent in ThreadOld(r) && w.parent != r.parent && w.parent != r.from && w.parent in g && w.entry < |g[w.parent].listing|
    && (forall p :: p in ThreadOld(r) ==> p in g && Elsewhere(g[p], r, if p == w.parent then Some(w.entry) else None))
  }

  /**
   Both copies exist: the new one with the commit and the body; at the old address
   `v`, which is the same for wear levelling and what was there before if the old
   block is worn.
   */
  ghost predicate Doubled(h: Forest, g: Forest, w: Twin, v: View) {
    var r := w.plan;
    && Apart(g, w) && Sane(h) && r.from in g && r.from in h && r.to in h
    && h[r.to] == Intended(g[r.from], Balance(r)) && h[r.from] == v
    && v.tail == g[r.from].tail && ChildrenOn(v, ThreadOld(r))
    && (forall p :: p in g && p != r.from ==> p in h && h[p] == g[p])
  }

  /** The request of the first commit. */
  function Retree(w: Twin): Request {
    Request(UpdateDirStruct(w.entry, w.plan.to), None, Some(Relocation.Body(w.plan)), None)
  }

  /** The first commit: the parent's entry names the new address, with the body once more. */
  function Retreed(h: Forest, w: Twin): (k: Forest)
    requires Sane(h) && w.parent in h && w.entry < |h[w.parent].listing|
    ensures Sane(k)
  {
    Commit(h, w.parent, Retree(w))
  }

  /** The first commit lands as `l`. */
  predicate Retrees(h: Forest, w: Twin, l: Landing) {
    Sane(h) && w.parent in h && w.entry < |h[w.parent].listing| && Lands(h, w.parent, Retree(w), l)
  }

  function Rethread(k: Forest, w: Twin): Request
    requires w.plan.parent in k
  {
    Request(Noop, None, None, Some(Thread(w.plan.to, k[w.plan.parent].tail.Some? && k[w.plan.parent].tail.value.hard)))
  }

  /** The second: the predecessor's tail follows. The sweep of a mount commits the same. */
  function Rethreaded(k: Forest, w: Twin): (l: Forest)
    requires Sane(k) && w.plan.parent in k
    ensures Sane(l)
  {
    Commit(k, w.plan.parent, Rethread(k, w))
  }

  /** The second commit lands as `m`. */
  predicate Rethreads(k: Forest, w: Twin, m: Landing) {
    Sane(k) && w.plan.parent in k && Lands(k, w.plan.parent, Rethread(k, w), m)
  }

  /** What links reach between the two commits. */
  function Reach(w: Twin): seq<BlockPair> {
    ThreadOld(w.plan) + [w.plan.to]
  }

  /** ... if the first landed as `l`. */
  function ReachOf(w: Twin, l: Landing): seq<BlockPair> {
    Insert(Reach(w), w.parent, l.conts)
  }

  lemma TwinDistinct(g: Forest, w: Twin)
    requires Apart(g, w)
    ensures var r := w.plan;
            && ThreadOld(r)[|r.before|] == r.parent && ThreadOld(r)[|r.before| + 1] == r.from && r.parent != r.from
            && r.to != r.from && r.to != r.parent && r.to != w.parent && r.to !in ThreadOld(r)
            && Distinct(ThreadNew(r)) && Distinct(Reach(w))
  {
    var r := w.plan;
    var t, u := ThreadOld(r), ThreadNew(r);
    assert t[|r.before|] == r.parent && t[|r.before| + 1] == r.from;
    forall p | p in t
      ensures p in g
    {
    }
    forall i, j | 0 <= i < j < |u|
      ensures u[i] != u[j]
    {
      assert i != |r.before| + 1 ==> u[i] == t[i];
      assert j != |r.before| + 1 ==> u[j] == t[j];
    }
  }

  /** The listing of the parent after the first commit. */
  lemma ParentListing(h: Forest, g: Forest, w: Twin, v: View)
    requires Doubled(h, g, w, v)
    ensures w.parent in h && h[w.parent] == g[w.parent] && w.entry < |h[w.parent].listing|
    ensures var l, l' := g[w.parent].listing, Retreed(h, w)[w.parent].listing;
            && |l'| == |l| && ChildOf(l'[w.entry]) == Some(w.plan.to)
            && forall j :: 0 <= j < |l| && j != w.entry ==> l'[j] == l[j]
    ensures Retreed(h, w)[w.parent].tail == g[w.parent].tail
  {
    var v := g[w.parent];
    ChildOfPair(Retreed(h, w)[w.parent].listing[w.entry], w.plan.to);
  }

  // ---- The window ----------------------------------------------------------------------------

  lemma OldInReach(w: Twin)
    ensures Reach(w)[|ThreadOld(w.plan)|] == w.plan.to && forall p :: p in ThreadOld(w.plan) ==> p in Reach(w)
    ensures forall i :: 0 <= i < |ThreadOld(w.plan)| ==> Reach(w)[i] == ThreadOld(w.plan)[i]
  {
  }

  /** The links of the new copy are those the committed pair has. */
  lemma CopyLinks(h: Forest, g: Forest, w: Twin, v: View)
    requires Doubled(h, g, w, v) && w.parent in h && w.entry < |h[w.parent].listing|
    ensures w.plan.to in Retreed(h, w) && LinksWithin(Retreed(h, w), Reach(w), |ThreadOld(w.plan)|)
  {
    var r, t := w.plan, ThreadOld(w.plan);
    var k, b := Retreed(h, w), |w.plan.before| + 1;
    TwinDistinct(g, w);
    OldInReach(w);
    ThreadedInto(g, t, b);
    assert k[r.to].tail == g[r.from].tail && k[r.to].listing == g[r.from].listing;
    assert At(t, b + 1).Some? ==> At(t, b + 1).value in t;
  }

  /** Between the commits every link ends in the old thread or at the new address. */
  lemma WindowLinks(h: Forest, g: Forest, w: Twin, v: View, i: nat)
    requires Doubled(h, g, w, v) && i < |Reach(w)|
    ensures w.parent in h && w.entry < |h[w.parent].listing|
    ensures Reach(w)[i] in Retreed(h, w) && LinksWithin(Retreed(h, w), Reach(w), i)
  {
    var t := ThreadOld(w.plan);
    ParentListing(h, g, w, v);
    OldInReach(w);
    if i == |t| {
      CopyLinks(h, g, w, v);
    } else {
      TwinDistinct(g, w);
      ThreadedInto(g, t, i);
      assert At(t, i + 1).Some? ==> At(t, i + 1).value in t;
    }
  }

  lemma WindowNames(h: Forest, g: Forest, w: Twin, v: View, i: nat)
    requires Doubled(h, g, w, v) && 0 < i < |Reach(w)|
    requires w.parent in h && w.entry < |h[w.parent].listing| && forall j :: 0 <= j < |Reach(w)| ==> Reach(w)[j] in Retreed(h, w)
    ensures NamedBefore(Retreed(h, w), Reach(w), i)
  {
    var r, t, all := w.plan, ThreadOld(w.plan), Reach(w);
    TwinDistinct(g, w);
    ParentListing(h, g, w, v);
    var k := Retreed(h, w);
    if i == |t| {
      var j :| 0 <= j < |t| && t[j] == w.parent;
      assert all[j] == w.parent && all[i] == r.to;
      assert ChildOf(k[w.parent].listing[w.entry]) == Some(r.to);
      assert Names(k, all[j], all[i]);
    } else {
      ThreadedInto(g, t, i - 1);
      assert all[i - 1] == t[i - 1] && all[i] == t[i] && At(t, i) == Some(t[i]);
      assert k[t[i - 1]].tail == g[t[i - 1]].tail;
      assert Names(k, all[i - 1], all[i]);
    }
  }

  /** A mount in the window visits the old thread and the new copy. */
  lemma WindowSpans(h: Forest, g: Forest, w: Twin, v: View)
    requires Doubled(h, g, w, v)
    ensures w.parent in h && w.entry < |h[w.parent].listing| && Spans(Retreed(h, w), Reach(w))
  {
    TwinDistinct(g, w);
    ParentListing(h, g, w, v);
    forall i | 0 <= i < |Reach(w)|
      ensures Reach(w)[i] in Retreed(h, w) && LinksWithin(Retreed(h, w), Reach(w), i)
    {
      WindowLinks(h, g, w, v, i);
    }
    forall i | 0 < i < |Reach(w)|
      ensures NamedBefore(Retreed(h, w), Reach(w), i)
    {
      WindowNames(h, g, w, v, i);
    }
  }

  /** The stale copy in the place of the committed one changes the sum by both their totals. */
  lemma SumSwapped(k: Kind, h: Forest, g: Forest, w: Twin, v: View)
    requires Doubled(h, g, w, v)
    ensures AllIn(h, ThreadOld(w.plan)) && AllIn(g, ThreadOld(w.plan))
    ensures Sum(k, h, ThreadOld(w.plan)) == XorBytes(XorBytes(Sum(k, g, ThreadOld(w.plan)), Total(k, g[w.plan.from])), Total(k, v))
  {
    var t, i := ThreadOld(w.plan), |w.plan.before| + 1;
    var rest := RestSame(h, g, w, v);
    SumPick(k, h, t, i);
    SumPick(k, g, t, i);
    SumFrame(k, h, g, rest);
    Exchanged(Total(k, g[w.plan.from]), Total(k, v), Sum(k, g, rest));
  }

  lemma BothIn(h: Forest, g: Forest, w: Twin, v: View)
    requires Doubled(h, g, w, v)
    ensures AllIn(h, ThreadOld(w.plan)) && AllIn(g, ThreadOld(w.plan)) && Distinct(ThreadOld(w.plan))
    ensures forall p :: p in ThreadOld(w.plan) && p != w.plan.from ==> p in h && p in g && h[p] == g[p]
  {
    var t := ThreadOld(w.plan);
    forall j | 0 <= j < |t|
      ensures t[j] in h && t[j] in g
    {
      assert t[j] in t;
    }
  }

  lemma RestSame(h: Forest, g: Forest, w: Twin, v: View) returns (rest: seq<BlockPair>)
    requires Doubled(h, g, w, v)
    ensures var t, i := ThreadOld(w.plan), |w.plan.before| + 1;
            AllIn(h, t) && AllIn(g, t) && i < |t| && t[i] == w.plan.from && rest == t[..i] + t[i + 1..]
    ensures forall j :: 0 <= j < |rest| ==> rest[j] in g && rest[j] in h && h[rest[j]] == g[rest[j]]
  {
    BothIn(h, g, w, v);
    TwinDistinct(g, w);
    rest := Without(ThreadOld(w.plan), |w.plan.before| + 1);
  }

  /** The list without its entry `i`, which stands nowhere else. */
  lemma Without(t: seq<BlockPair>, i: nat) returns (rest: seq<BlockPair>)
    requires Distinct(t) && i < |t|
    ensures rest == t[..i] + t[i + 1..] && forall j :: 0 <= j < |rest| ==> rest[j] in t && rest[j] != t[i]
  {
    rest := t[..i] + t[i + 1..];
    forall j | 0 <= j < |rest|
      ensures rest[j] in t && rest[j] != t[i]
    {
      assert rest[j] == t[if j < i then j else j + 1];
    }
  }

  lemma Exchanged(a: seq<byte>, b: seq<byte>, s: seq<byte>)
    requires |a| == |b| == |s|
    ensures XorBytes(b, s) == XorBytes(XorBytes(XorBytes(a, s), a), b)
  {
    XorComm(a, s);
    XorAssoc(s, a, a);
    XorSelf(a);
    XorZeros(s);
    XorComm(b, s);
  }

  lemma WindowPlain(h: Forest, g: Forest, w: Twin, v: View)
    requires Doubled(h, g, w, v)
    ensures w.parent in h && w.entry < |h[w.parent].listing| && Spans(Retreed(h, w), Reach(w)) && Threaded(g, ThreadOld(w.plan))
    ensures Of(Retreed(h, w), Reach(w))
         == Aggregate(XorBytes(Sum(Moves, g, ThreadOld(w.plan)), v.move), XorBytes(Sum(Relocations, g, ThreadOld(w.plan)), v.relocate))
  {
    WindowSpans(h, g, w, v);
    WindowSum(Moves, h, g, w, v);
    WindowSum(Relocations, h, g, w, v);
  }

  /** However the parent's commit lands, a mount reads what it reads after the plain one. */
  lemma WindowLanded(h: Forest, g: Forest, w: Twin, v: View, l: Landing)
    requires Doubled(h, g, w, v) && Retrees(h, w, l)
    ensures Spans(l.forest, ReachOf(w, l)) && Spans(Retreed(h, w), Reach(w)) && Of(l.forest, ReachOf(w, l)) == Of(Retreed(h, w), Reach(w))
  {
    WindowSpans(h, g, w, v);
    OldInReach(w);
    assert w.parent in Reach(w);
    LandingSpans(h, Reach(w), w.parent, Retree(w), l);
  }

  /**
   In the window the aggregate is the caller's and the stale copy's totals: the
   copies' common totals cancel, and so do the two bodies.
   */
  lemma WindowAggregate(h: Forest, g: Forest, w: Twin, v: View, l: Landing)
    requires Doubled(h, g, w, v) && Retrees(h, w, l)
    ensures Spans(l.forest, ReachOf(w, l)) && Threaded(g, ThreadOld(w.plan))
    ensures Of(l.forest, ReachOf(w, l))
         == Aggregate(XorBytes(Sum(Moves, g, ThreadOld(w.plan)), v.move), XorBytes(Sum(Relocations, g, ThreadOld(w.plan)), v.relocate))
  {
    WindowPlain(h, g, w, v);
    WindowLanded(h, g, w, v, l);
  }

  /** The parent's commit moves the sum over the old thread by the body. */
  lemma RetreedSum(k: Kind, h: Forest, g: Forest, w: Twin, v: View)
    requires Doubled(h, g, w, v)
    ensures w.parent in h && w.entry < |h[w.parent].listing|
    ensures AllIn(h, ThreadOld(w.plan)) && AllIn(Retreed(h, w), ThreadOld(w.plan)) && AllIn(g, ThreadOld(w.plan))
    ensures Sum(k, Retreed(h, w), ThreadOld(w.plan))
         == XorBytes(XorBytes(XorBytes(Sum(k, g, ThreadOld(w.plan)), Total(k, g[w.plan.from])), Total(k, v)), Delta(k, Retree(w)))
  {
    var t := ThreadOld(w.plan);
    ParentListing(h, g, w, v);
    SumSwapped(k, h, g, w, v);
    var j :| 0 <= j < |t| && t[j] == w.parent;
    CommitMovesSum(k, h, t, j, Retree(w));
  }

  lemma WindowSum(k: Kind, h: Forest, g: Forest, w: Twin, v: View)
    requires Doubled(h, g, w, v) && w.parent in h && w.entry < |h[w.parent].listing| && Spans(Retreed(h, w), Reach(w))
    ensures AllIn(g, ThreadOld(w.plan))
    ensures Sum(k, Retreed(h, w), Reach(w)) == XorBytes(Sum(k, g, ThreadOld(w.plan)), Total(k, v))
  {
    var r, t := w.plan, ThreadOld(w.plan);
    TwinDistinct(g, w);
    RetreedSum(k, h, g, w, v);
    SumConcat(k, Retreed(h, w), t, [r.to]);
    SumOne(k, Retreed(h, w), r.to);
    CommitTotal(k, g[r.from], Balance(r));
    assert Delta(k, Retree(w)) == Delta(k, Balance(r));
    FiveCancel(Sum(k, g, t), Total(k, g[r.from]), Total(k, v), Delta(k, Retree(w)));
  }

  lemma FiveCancel(s: seq<byte>, a: seq<byte>, v: seq<byte>, d: seq<byte>)
    requires |s| == |a| == |v| == |d|
    ensures XorBytes(XorBytes(XorBytes(XorBytes(s, a), v), d), XorBytes(a, d)) == XorBytes(s, v)
  {
    var x, l, n := XorBytes(s, v), XorBytes(XorBytes(XorBytes(XorBytes(s, a), v), d), XorBytes(a, d)), |s|;
    forall i | 0 <= i < n
      ensures l[i] == x[i]
    {
      FiveCancelByte(s[i], a[i], v[i], d[i]);
    }
  }

  lemma FiveCancelByte(s: byte, a: byte, v: byte, d: byte)
    ensures (((s ^ a) ^ v) ^ d) ^ (a ^ d) == s ^ v
  {
  }

  // ---- What a mount in the window reads -------------------------------------------------------

  /** After wear levelling both addresses hold the same, with the body. */
  lemma WearDoubled(g: Forest, w: Twin)
    requires Apart(g, w)
    ensures w.plan.from in g && Doubled(Copied(g, w.plan), g, w, Intended(g[w.plan.from], Balance(w.plan)))
  {
    TwinDistinct(g, w);
    ThreadedInto(g, ThreadOld(w.plan), |w.plan.before| + 1);
  }

  /** After a move off a worn block the old address holds what it held before the request. */
  lemma WornDoubled(f: Forest, w: Twin, q: Request)
    requires Sane(f) && w.plan.from in f && Applies(f[w.plan.from], q) && Apart(Committed(f, w.plan, q), w)
    requires Intended(f[w.plan.from], q).tail == f[w.plan.from].tail && ChildrenOn(f[w.plan.from], ThreadOld(w.plan))
    ensures Doubled(FreshOnly(f, w.plan, q), Committed(f, w.plan, q), w, f[w.plan.from])
  {
    CarryingIsBoth(f, q, w.plan);
    TwinDistinct(Committed(f, w.plan, q), w);
  }

  /** The aggregate says that exactly this relocation is in flight. */
  predicate ReadsAsRelocation(agg: Aggregate, r: Plan)
    requires |agg.move| == MOVE_SIZE && |agg.relocate| == RELOCATE_SIZE
  {
    MovePending(agg.move) == None && RelocationPending(agg.relocate) == Some(PendingRelocation(r.from, r.to))
  }

  /** A pair whose own totals say that nothing is in flight. */
  predicate Idle(v: View)
    requires Gstate.Proper(v)
  {
    MovePending(v.move) == None && v.relocate == Zeros(RELOCATE_SIZE)
  }

  lemma WearPlain(g: Forest, w: Twin)
    requires Apart(g, w) && Quiet(g, ThreadOld(w.plan))
    ensures var h := Copied(g, w.plan);
            && w.plan.from in g && w.parent in h && w.entry < |h[w.parent].listing| && Spans(Retreed(h, w), Reach(w))
            && Of(Retreed(h, w), Reach(w)) == Aggregate(g[w.plan.from].move, XorBytes(g[w.plan.from].relocate, Relocation.Body(w.plan)))
            && (ReadsAsRelocation(Of(Retreed(h, w), Reach(w)), w.plan) <==> Idle(g[w.plan.from]))
  {
    var r, t := w.plan, g[w.plan.from];
    var b := Relocation.Body(r);
    WearDoubled(g, w);
    WindowPlain(Copied(g, r), g, w, Intended(t, Balance(r)));
    XorZeros(t.move);
    XorZeros(XorBytes(t.relocate, b));
    TwinDistinct(g, w);
    RelocateBodyDecodes(r.from, r.to);
    if RelocationPending(XorBytes(t.relocate, b)) == Some(PendingRelocation(r.from, r.to)) {
      RelocationDecodesOnly(XorBytes(t.relocate, b), r.from, r.to);
      XorAssoc(t.relocate, b, b);
      XorSelf(b);
      XorZeros(t.relocate);
    }
    XorZeros(b);
  }

  /**
   In the window of a wear relocation a mount reads the relocation in flight, and
   nothing else, if and only if the pair's own totals are idle.
   */
  lemma WearWindowReads(g: Forest, w: Twin, l: Landing)
    requires Apart(g, w) && Quiet(g, ThreadOld(w.plan)) && w.plan.from in g && Retrees(Copied(g, w.plan), w, l)
    ensures Spans(l.forest, ReachOf(w, l))
    ensures Of(l.forest, ReachOf(w, l)) == Aggregate(g[w.plan.from].move, XorBytes(g[w.plan.from].relocate, Relocation.Body(w.plan)))
    ensures ReadsAsRelocation(Of(l.forest, ReachOf(w, l)), w.plan) <==> Idle(g[w.plan.from])
  {
    WearPlain(g, w);
    WearDoubled(g, w);
    WindowLanded(Copied(g, w.plan), g, w, Intended(g[w.plan.from], Balance(w.plan)), l);
  }

  /** In the window of a move off a worn block a mount reads that nothing is in flight under the same condition. */
  lemma WornWindowReads(f: Forest, w: Twin, q: Request, l: Landing)
    requires Sane(f) && w.plan.from in f && Applies(f[w.plan.from], q) && Apart(Committed(f, w.plan, q), w)
    requires Intended(f[w.plan.from], q).tail == f[w.plan.from].tail && ChildrenOn(f[w.plan.from], ThreadOld(w.plan))
    requires Quiet(Committed(f, w.plan, q), ThreadOld(w.plan)) && Retrees(FreshOnly(f, w.plan, q), w, l)
    ensures var v := f[w.plan.from];
            && Spans(l.forest, ReachOf(w, l)) && Of(l.forest, ReachOf(w, l)) == Aggregate(v.move, v.relocate)
            && (MovePending(v.move) == None && RelocationPending(v.relocate) == None <==> Idle(v))
  {
    var v := f[w.plan.from];
    WornDoubled(f, w, q);
    WindowAggregate(FreshOnly(f, w.plan, q), Committed(f, w.plan, q), w, v, l);
    XorZeros(v.move);
    XorZeros(v.relocate);
  }

  // ---- After the window --------------------------------------------------------------------------

  /** `l` is the forest after the first commit, but for what the old address holds. */
  ghost predicate Windowed(l: Forest, g: Forest, w: Twin) {
    && Apart(g, w) && Sane(l) && w.plan.from in g && w.plan.to in l && l[w.plan.to] == Intended(g[w.plan.from], Balance(w.plan))
    && w.parent in l && l[w.parent] == Intended(g[w.parent], Retree(w))
    && (forall p :: p in g && p != w.plan.from && p != w.parent ==> p in l && l[p] == g[p])
  }

  lemma NewThreadHas(w: Twin)
    ensures forall p :: p in ThreadOld(w.plan) && p != w.plan.from ==> p in ThreadNew(w.plan)
    ensures ThreadNew(w.plan)[|w.plan.before| + 1] == w.plan.to && ThreadNew(w.plan)[|w.plan.before|] == w.plan.parent
  {
    forall p | p in ThreadOld(w.plan) && p != w.plan.from
      ensures p in ThreadNew(w.plan)
    {
      OldToNew(w.plan, p);
    }
  }

  lemma ChildrenOnNew(l: Forest, g: Forest, w: Twin, p: BlockPair)
    requires Windowed(l, g, w) && p in ThreadOld(w.plan) && p in g
    ensures p != w.parent ==> ChildrenOn(g[p], ThreadNew(w.plan))
    ensures ChildrenOn(l[w.parent], ThreadNew(w.plan))
  {
    NewThreadHas(w);
    assert Elsewhere(g[p], w.plan, if p == w.parent then Some(w.entry) else None);
    assert Elsewhere(g[w.parent], w.plan, Some(w.entry));
    var was, now := g[w.parent].listing, l[w.parent].listing;
    forall j | 0 <= j < |now| && ChildOf(now[j]).Some?
      ensures ChildOf(now[j]).value in ThreadNew(w.plan)
    {
      if j == w.entry {
        ChildOfPair(now[j], w.plan.to);
      } else {
        assert now[j] == was[j] && Some(j) != Some(w.entry);
      }
    }
    if p != w.parent {
      forall j | 0 <= j < |g[p].listing| && ChildOf(g[p].listing[j]).Some?
        ensures ChildOf(g[p].listing[j]).value in ThreadNew(w.plan)
      {
        assert Some(j) != None;
      }
    }
  }

  lemma WindowedChildren(l: Forest, g: Forest, w: Twin, i: nat)
    requires Windowed(l, g, w) && i < |ThreadNew(w.plan)|
    ensures var u := ThreadNew(w.plan); u[i] in l && ChildrenOn(l[u[i]], u)
  {
    var t, u := ThreadOld(w.plan), ThreadNew(w.plan);
    TwinDistinct(g, w);
    NewThreadHas(w);
    ThreadedInto(g, t, i);
    assert t[i] in t;
    ChildrenOnNew(l, g, w, t[i]);
    if i == |w.plan.before| + 1 {
      assert l[w.plan.to].listing == g[w.plan.from].listing;
    } else {
      assert u[i] == t[i] && t[i] != t[|w.plan.before| + 1];
    }
  }

  lemma WindowedTail(l: Forest, g: Forest, w: Twin, i: nat)
    requires Windowed(l, g, w) && w.plan.parent in l && i < |ThreadNew(w.plan)|
    ensures var m, u := Rethreaded(l, w), ThreadNew(w.plan); u[i] in m && TailTo(m[u[i]], At(u, i + 1))
  {
    var t, u, b := ThreadOld(w.plan), ThreadNew(w.plan), |w.plan.before|;
    TwinDistinct(g, w);
    NewThreadHas(w);
    ThreadedInto(g, t, i);
    assert i != b ==> At(u, i + 1) == At(t, i + 1);
    assert i != b + 1 ==> u[i] == t[i] && t[i] != t[b + 1];
  }

  lemma RethreadedAt(l: Forest, g: Forest, w: Twin, i: nat)
    requires Windowed(l, g, w) && w.plan.parent in l && i < |ThreadNew(w.plan)|
    ensures var m, u := Rethreaded(l, w), ThreadNew(w.plan);
            u[i] in m && TailTo(m[u[i]], At(u, i + 1)) && ChildrenOn(m[u[i]], u)
  {
    WindowedChildren(l, g, w, i);
    WindowedTail(l, g, w, i);
  }

  /** The predecessor's commit, by the relocation or by a later mount's sweep, makes the new thread. */
  lemma RethreadedThread(l: Forest, g: Forest, w: Twin)
    requires Windowed(l, g, w)
    ensures w.plan.parent in l && Threaded(Rethreaded(l, w), ThreadNew(w.plan))
  {
    TwinDistinct(g, w);
    assert w.plan.parent in ThreadOld(w.plan);
    forall i | 0 <= i < |ThreadNew(w.plan)|
      ensures var m, u := Rethreaded(l, w), ThreadNew(w.plan);
              u[i] in m && TailTo(m[u[i]], At(u, i + 1)) && ChildrenOn(m[u[i]], u)
    {
      RethreadedAt(l, g, w, i);
    }
    ThreadedFrom(Rethreaded(l, w), ThreadNew(w.plan));
  }

  /** The committed pair's view at the new address too, with the body. */
  lemma CopyBody(k: Kind, g: Forest, w: Twin) returns (m: Forest)
    requires Apart(g, w)
    ensures w.plan.from in g && Threaded(g, ThreadOld(w.plan)) && Sane(m) && AllIn(m, ThreadNew(w.plan))
    ensures m == g[w.plan.to := Intended(g[w.plan.from], Balance(w.plan))]
    ensures Sum(k, m, ThreadNew(w.plan)) == XorBytes(Sum(k, g, ThreadOld(w.plan)), Delta(k, Balance(w.plan)))
  {
    TwinDistinct(g, w);
    var r := w.plan;
    var g0 := g[r.to := g[r.from]];
    NewThreadHas(w);
    SumReplacedIn(k, g, w);
    m := Commit(g0, r.to, Balance(r));
    CommitMovesSum(k, g0, ThreadNew(r), |r.before| + 1, Balance(r));
  }

  /** The copy's body and the parent's, each by a commit of its own, cancel in the sum over the new thread. */
  lemma BothBodies(k: Kind, g: Forest, w: Twin) returns (m: Forest)
    requires Apart(g, w)
    ensures w.plan.from in g && Threaded(g, ThreadOld(w.plan)) && Sane(m) && AllIn(m, ThreadNew(w.plan))
    ensures m == g[w.plan.to := Intended(g[w.plan.from], Balance(w.plan))][w.parent := Intended(g[w.parent], Retree(w))]
    ensures Sum(k, m, ThreadNew(w.plan)) == Sum(k, g, ThreadOld(w.plan))
  {
    var g1 := CopyBody(k, g, w);
    TwinDistinct(g, w);
    NewThreadHas(w);
    var u := ThreadNew(w.plan);
    var j :| 0 <= j < |u| && u[j] == w.parent;
    CommitMovesSum(k, g1, u, j, Retree(w));
    m := Commit(g1, w.parent, Retree(w));
    DeltaTwice(Sum(k, g, ThreadOld(w.plan)), Delta(k, Retree(w)));
  }

  lemma DeltaTwice(s: seq<byte>, d: seq<byte>)
    requires |s| == |d|
    ensures XorBytes(XorBytes(s, d), d) == s
  {
    XorAssoc(s, d, d);
    XorSelf(d);
    XorZeros(s);
  }

  /** ... on which the aggregate is the caller's, whatever the stale copy says. */
  lemma RethreadedConserves(k: Kind, l: Forest, g: Forest, w: Twin)
    requires Windowed(l, g, w)
    ensures w.plan.parent in l && Threaded(Rethreaded(l, w), ThreadNew(w.plan)) && Threaded(g, ThreadOld(w.plan))
    ensures Sum(k, Rethreaded(l, w), ThreadNew(w.plan)) == Sum(k, g, ThreadOld(w.plan))
  {
    RethreadedThread(l, g, w);
    var m := BothBodies(k, g, w);
    forall p | p in ThreadNew(w.plan)
      ensures p in Rethreaded(l, w) && p in m && Total(k, Rethreaded(l, w)[p]) == Total(k, m[p])
    {
      NewMember(l, g, w, p);
    }
    SumFrame(k, Rethreaded(l, w), m, ThreadNew(w.plan));
  }

  lemma SumReplacedIn(k: Kind, g: Forest, w: Twin)
    requires Apart(g, w) && w.plan.from in g
    ensures var g0 := g[w.plan.to := g[w.plan.from]];
            Sane(g0) && AllIn(g0, ThreadNew(w.plan)) && Sum(k, g0, ThreadNew(w.plan)) == Sum(k, g, ThreadOld(w.plan))
  {
    var r, g0 := w.plan, g[w.plan.to := g[w.plan.from]];
    TwinDistinct(g, w);
    forall j | 0 <= j < |ThreadOld(r)|
      ensures ThreadOld(r)[j] in g && ThreadOld(r)[j] in g0 && g0[ThreadOld(r)[j]] == g[ThreadOld(r)[j]]
    {
      assert ThreadOld(r)[j] in ThreadOld(r);
    }
    NewIn(g0, r);
    SumReplaced(k, g0, r);
    SumFrame(k, g, g0, ThreadOld(r));
  }

  lemma NewMember(l: Forest, g: Forest, w: Twin, p: BlockPair)
    requires Windowed(l, g, w) && p in ThreadNew(w.plan) && w.plan.parent in l
    ensures p == w.plan.to || (p in g && p != w.plan.from && p != w.plan.to)
    ensures p in l && p in Rethreaded(l, w)
    ensures Rethreaded(l, w)[p].move == l[p].move && Rethreaded(l, w)[p].relocate == l[p].relocate
  {
    TwinDistinct(g, w);
    NewThreadHas(w);
    var t, u := ThreadOld(w.plan), ThreadNew(w.plan);
    var i :| 0 <= i < |u| && u[i] == p;
    if i != |w.plan.before| + 1 {
      assert u[i] == t[i] && t[i] in t && t[i] != t[|w.plan.before| + 1];
    }
  }

  lemma RethreadedPlain(l: Forest, g: Forest, w: Twin)
    requires Windowed(l, g, w) && Quiet(g, ThreadOld(w.plan))
    ensures w.plan.parent in l && Threaded(Rethreaded(l, w), ThreadNew(w.plan)) && Quiet(Rethreaded(l, w), ThreadNew(w.plan))
  {
    RethreadedConserves(Moves, l, g, w);
    RethreadedConserves(Relocations, l, g, w);
  }

  /** Whatever stands at the old address, the second commit, however it lands, settles the forest on the new thread. */
  lemma RethreadedQuiet(k: Forest, g: Forest, w: Twin, m: Landing)
    requires Windowed(k, g, w) && Quiet(g, ThreadOld(w.plan)) && Rethreads(k, w, m)
    ensures Settles(Rethreaded(k, w), ThreadNew(w.plan), m.forest, Insert(ThreadNew(w.plan), w.plan.parent, m.conts))
  {
    RethreadedPlain(k, g, w);
    NewThreadHas(w);
    LandingReads(k, ThreadNew(w.plan), w.plan.parent, Rethread(k, w), m);
  }

  /** Between the commits of a wear relocation, before and after a mount laid a body on the stale copy. */
  lemma WearWindowed(g: Forest, w: Twin)
    requires Apart(g, w) && w.plan.from in g
    ensures var h := Copied(g, w.plan);
            && w.parent in h && w.entry < |h[w.parent].listing|
            && var k := Retreed(h, w);
            && w.plan.from in k && Windowed(k, g, w) && Windowed(Anchored(k, w.plan), g, w)
  {
    TwinDistinct(g, w);
    WearDoubled(g, w);
    ParentListing(Copied(g, w.plan), g, w, Intended(g[w.plan.from], Balance(w.plan)));
  }

  // ---- Every crash point ---------------------------------------------------------------------------

  /** Both commits land as they may. */
  lemma BothLanded(g: Forest, w: Twin, l: Landing, m: Landing)
    requires Apart(g, w) && Quiet(g, ThreadOld(w.plan)) && w.plan.from in g && Retrees(Copied(g, w.plan), w, l) && Rethreads(l.forest, w, m)
    ensures var k, u := Retreed(Copied(g, w.plan), w), ThreadNew(w.plan);
            && w.plan.parent in k
            && Settles(Rethreaded(k, w), u, m.forest, Insert(Insert(u, w.parent, l.conts), w.plan.parent, m.conts))
  {
    var c, u := Copied(g, w.plan), ThreadNew(w.plan);
    WearWindowed(g, w);
    RethreadedPlain(Retreed(c, w), g, w);
    TwinDistinct(g, w);
    NewThreadHas(w);
    assert w.parent in u && w.plan.parent in u && w.plan.parent in c;
    LandsCommutes(c, w.parent, Retree(w), l, w.plan.parent, Rethread(c, w));
    TwoLandings(c, u, w.parent, Retree(w), l, w.plan.parent, Rethread(l.forest, w), m);
  }

  /**
   Every crash point of a wear relocation in two commits. Up to the first commit a
   mount cancels it; between the two, it reads exactly this relocation if and only
   if the pair's totals are idle; after both, however they landed, nothing is in flight.
   */
  lemma TwinCrashPoints(land: Lander, f: Forest, w: Twin, q: Request, l: Landing, m: Landing)
    requires Honest(land) && Sane(f) && w.plan.from in f && Applies(f[w.plan.from], q)
    requires Apart(Committed(f, w.plan, q), w) && Quiet(Committed(f, w.plan, q), ThreadOld(w.plan))
    requires Retrees(Copied(Committed(f, w.plan, q), w.plan), w, l) && Rethreads(l.forest, w, m)
    ensures var r, t, g := w.plan, ThreadOld(w.plan), Committed(f, w.plan, q);
            var a, c := Anchored(g, r), Copied(g, r);
            && a == Commit(f, r.from, Carrying(q, r))
            && Threaded(a, t) && GivesUp(land, a, r, a) && Threaded(c, t) && GivesUp(land, c, r, c)
    ensures Spans(l.forest, ReachOf(w, l))
    ensures ReadsAsRelocation(Of(l.forest, ReachOf(w, l)), w.plan) <==> Idle(Committed(f, w.plan, q)[w.plan.from])
    ensures var k, u := Retreed(Copied(Committed(f, w.plan, q), w.plan), w), ThreadNew(w.plan);
            w.plan.parent in k && Settles(Rethreaded(k, w), u, m.forest, Insert(Insert(u, w.parent, l.conts), w.plan.parent, m.conts))
  {
    var g := Committed(f, w.plan, q);
    CarryingIsBoth(f, q, w.plan);
    TwinGivesUp(land, g, w);
    WearWindowReads(g, w, l);
    BothLanded(g, w, l, m);
  }

  lemma TwinGivesUp(land: Lander, g: Forest, w: Twin)
    requires Honest(land) && Apart(g, w) && Quiet(g, ThreadOld(w.plan)) && w.plan.from in g
    ensures var a, c := Anchored(g, w.plan), Copied(g, w.plan);
            && Threaded(a, ThreadOld(w.plan)) && GivesUp(land, a, w.plan, a) && Threaded(c, ThreadOld(w.plan)) && GivesUp(land, c, w.plan, c)
  {
    TwinDistinct(g, w);
    BalanceMoves(g, w.plan);
    XorZeros(Relocation.Body(w.plan));
    CopiedThread(g, w.plan);
    Cancelled(land, Anchored(g, w.plan), w.plan);
    Cancelled(land, Copied(g, w.plan), w.plan);
  }
}
