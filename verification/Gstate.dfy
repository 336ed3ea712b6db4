/**
 Global state (`src/gstate.rs`, `accumulate_gstate` in `src/fs.rs`): every
 pair carries a total, and the XOR of the totals over the reachable pairs says
 which move or relocation is in flight.
 */
module Gstate {
  import opened Words
  import opened Directory
  import opened Rebuild
  import opened Split

  // ---- XOR of totals -----------------------------------------------------------------

  lemma XorComm(a: seq<byte>, b: seq<byte>)
    requires |a| == |b|
    ensures XorBytes(a, b) == XorBytes(b, a)
  {
  }

  lemma XorAssoc(a: seq<byte>, b: seq<byte>, c: seq<byte>)
    requires |a| == |b| == |c|
    ensures XorBytes(XorBytes(a, b), c) == XorBytes(a, XorBytes(b, c))
  {
  }

  lemma XorSelf(a: seq<byte>)
    ensures XorBytes(a, a) == Zeros(|a|)
  {
  }

  lemma XorZeros(a: seq<byte>)
    ensures XorBytes(a, Zeros(|a|)) == a && XorBytes(Zeros(|a|), a) == a
  {
  }

  /** Which of a pair's totals is meant. */
  datatype Kind = Moves | Relocations

  function Width(k: Kind): nat {
    if k.Moves? then MOVE_SIZE else RELOCATE_SIZE
  }

  predicate Proper(v: View) {
    |v.move| == MOVE_SIZE && |v.relocate| == RELOCATE_SIZE && Collapse(v.tail) == v.tail
  }

  function Total(k: Kind, v: View): (s: seq<byte>)
    requires Proper(v)
    ensures |s| == Width(k)
  {
    if k.Moves? then v.move else v.relocate
  }

  /** All views of a forest are ones a log can have. */
  predicate Sane(f: Forest) {
    forall p :: p in f ==> Proper(f[p])
  }

  /** The XOR of the totals of `pairs`. */
  function Sum(k: Kind, f: Forest, pairs: seq<BlockPair>): (s: seq<byte>)
    requires Sane(f) && forall i :: 0 <= i < |pairs| ==> pairs[i] in f
    ensures |s| == Width(k)
  {
    if pairs == [] then Zeros(Width(k)) else XorBytes(Total(k, f[pairs[0]]), Sum(k, f, pairs[1..]))
  }

  lemma {:induction false} SumConcat(k: Kind, f: Forest, a: seq<BlockPair>, b: seq<BlockPair>)
    requires Sane(f) && (forall i :: 0 <= i < |a| ==> a[i] in f) && (forall i :: 0 <= i < |b| ==> b[i] in f)
    ensures Sum(k, f, a + b) == XorBytes(Sum(k, f, a), Sum(k, f, b))
  {
    if a == [] {
      assert a + b == b;
      XorZeros(Sum(k, f, b));
    } else {
      assert (a + b)[1..] == a[1..] + b;
      SumConcat(k, f, a[1..], b);
      XorAssoc(Total(k, f[a[0]]), Sum(k, f, a[1..]), Sum(k, f, b));
    }
  }

  lemma {:induction false} SumFrame(k: Kind, f: Forest, g: Forest, pairs: seq<BlockPair>)
    requires Sane(f) && Sane(g)
    requires forall i :: 0 <= i < |pairs| ==> pairs[i] in f && pairs[i] in g && Total(k, f[pairs[i]]) == Total(k, g[pairs[i]])
    ensures Sum(k, f, pairs) == Sum(k, g, pairs)
  {
    if pairs != [] {
      SumFrame(k, f, g, pairs[1..]);
    }
  }

  lemma SumOne(k: Kind, f: Forest, p: BlockPair)
    requires Sane(f) && p in f
    ensures Sum(k, f, [p]) == Total(k, f[p])
  {
    assert [p][1..] == [];
    XorZeros(Total(k, f[p]));
  }

  predicate SameMembers(a: seq<BlockPair>, b: seq<BlockPair>) {
    (forall p :: p in a ==> p in b) && forall p :: p in b ==> p in a
  }

  /** Any one pair can be taken out of the sum. */
  lemma SumPick(k: Kind, f: Forest, b: seq<BlockPair>, i: nat)
    requires Sane(f) && (forall j :: 0 <= j < |b| ==> b[j] in f) && i < |b|
    ensures Sum(k, f, b) == XorBytes(Total(k, f[b[i]]), Sum(k, f, b[..i] + b[i + 1..]))
  {
    var l, r := b[..i], b[i + 1..];
    assert b == l + ([b[i]] + r) && ([b[i]] + r)[1..] == r;
    SumConcat(k, f, l, r);
    SumConcat(k, f, l, [b[i]] + r);
    XorRotate(Total(k, f[b[i]]), Sum(k, f, l), Sum(k, f, r));
  }

  /** The sum does not depend on the order in which pairs are visited. */
  lemma {:induction false} SumOrder(k: Kind, f: Forest, a: seq<BlockPair>, b: seq<BlockPair>)
    requires Sane(f) && (forall i :: 0 <= i < |a| ==> a[i] in f) && (forall i :: 0 <= i < |b| ==> b[i] in f)
    requires Distinct(a) && Distinct(b) && SameMembers(a, b)
    ensures Sum(k, f, a) == Sum(k, f, b)
  {
    if a == [] {
      WithinThread(b, a);
    } else {
      assert a[0] in b;
      var i :| 0 <= i < |b| && b[i] == a[0];
      RestMembers(a, b, i);
      SumOrder(k, f, a[1..], b[..i] + b[i + 1..]);
      SumPick(k, f, b, i);
    }
  }

  lemma XorRotate(x: seq<byte>, l: seq<byte>, r: seq<byte>)
    requires |x| == |l| == |r|
    ensures XorBytes(x, XorBytes(l, r)) == XorBytes(l, XorBytes(x, r))
  {
    XorAssoc(x, l, r);
    XorAssoc(l, x, r);
    XorComm(x, l);
  }

  lemma RestMembers(a: seq<BlockPair>, b: seq<BlockPair>, i: nat)
    requires Distinct(a) && Distinct(b) && SameMembers(a, b) && a != [] && i < |b| && b[i] == a[0]
    ensures Distinct(a[1..]) && Distinct(b[..i] + b[i + 1..]) && SameMembers(a[1..], b[..i] + b[i + 1..])
  {
    var rest := b[..i] + b[i + 1..];
    forall p | p in a[1..]
      ensures p in rest
    {
      var j :| 0 <= j < |a[1..]| && a[1..][j] == p;
      assert a[j + 1] == p && p != a[0];
      assert p in b;
    }
    forall p | p in rest
      ensures p in a[1..]
    {
      assert p in b && p != a[0];
      assert p in a;
    }
  }

  // ---- Reachability ----------------------------------------------------------------------

  /** The pair a live directory entry points at. */
  function ChildOf(s: Slot): Option<BlockPair> {
    if s.content.Some? && s.content.value.layout.Pair? && |s.content.value.body| == 8 then
      Some(BlockPair(FromLeNat(s.content.value.body[..4]), FromLeNat(s.content.value.body[4..8])))
    else None
  }

  /**
   The global thread: the pairs from the root on, each one's tail naming the
   next and the last having none, with every live directory on it.
   */
  predicate Threaded(f: Forest, thread: seq<BlockPair>) {
    && |thread| > 0 && Distinct(thread) && Sane(f)
    && (forall i :: 0 <= i < |thread| ==> thread[i] in f)
    && (forall i :: 0 <= i < |thread| ==> ThreadedAt(f, thread, i))
  }

  predicate ThreadedAt(f: Forest, thread: seq<BlockPair>, i: nat)
    requires i < |thread| && thread[i] in f
  {
    var v := f[thread[i]];
    && (if i + 1 < |thread| then v.tail.Some? && v.tail.value.pair == thread[i + 1] else v.tail == None)
    && (forall j :: 0 <= j < |v.listing| && ChildOf(v.listing[j]).Some? ==> ChildOf(v.listing[j]).value in thread)
  }

  /** Pair `p` links to `t` by its tail or by a live directory entry. */
  predicate Names(f: Forest, p: BlockPair, t: BlockPair)
    requires p in f
  {
    (f[p].tail.Some? && f[p].tail.value.pair == t) || exists n :: 0 <= n < |f[p].listing| && ChildOf(f[p].listing[n]) == Some(t)
  }

  /** All links of pair `i` end in `pairs`. */
  predicate LinksWithin(f: Forest, pairs: seq<BlockPair>, i: nat)
    requires i < |pairs| && pairs[i] in f
  {
    (f[pairs[i]].tail.Some? ==> f[pairs[i]].tail.value.pair in pairs) &&
    forall n :: 0 <= n < |f[pairs[i]].listing| && ChildOf(f[pairs[i]].listing[n]).Some? ==> ChildOf(f[pairs[i]].listing[n]).value in pairs
  }

  /** `pairs` are exactly the pairs that links reach from the first: closed, and each named by one before it. */
  predicate Spans(f: Forest, pairs: seq<BlockPair>) {
    && |pairs| > 0 && Distinct(pairs) && Sane(f)
    && (forall i :: 0 <= i < |pairs| ==> pairs[i] in f)
    && (forall i :: 0 <= i < |pairs| ==> LinksWithin(f, pairs, i))
    && (forall i :: 0 < i < |pairs| ==> NamedBefore(f, pairs, i))
  }

  predicate NamedBefore(f: Forest, pairs: seq<BlockPair>, i: nat)
    requires i < |pairs| && forall j :: 0 <= j < |pairs| ==> pairs[j] in f
  {
    exists j :: 0 <= j < i && Names(f, pairs[j], pairs[i])
  }

  /** The thread is what links reach. */
  lemma ThreadSpans(f: Forest, thread: seq<BlockPair>)
    requires Threaded(f, thread)
    ensures Spans(f, thread)
  {
    forall i | 0 <= i < |thread|
      ensures LinksWithin(f, thread, i) && (i > 0 ==> NamedBefore(f, thread, i))
    {
      assert ThreadedAt(f, thread, i);
      if i > 0 {
        assert ThreadedAt(f, thread, i - 1);
        assert Names(f, thread[i - 1], thread[i]);
      }
    }
  }

  /** A set of pairs closed under the links from the first contains everything they reach. */
  lemma {:induction false} ClosedHolds(f: Forest, pairs: seq<BlockPair>, found: seq<BlockPair>, i: nat)
    requires Spans(f, pairs) && i < |pairs| && pairs[0] in found
    requires forall j :: 0 <= j < |found| ==> found[j] in f && LinksWithin(f, found, j)
    ensures pairs[i] in found
    decreases i
  {
    if i > 0 {
      assert NamedBefore(f, pairs, i);
      var j :| 0 <= j < i && Names(f, pairs[j], pairs[i]);
      ClosedHolds(f, pairs, found, j);
      var m :| 0 <= m < |found| && found[m] == pairs[j];
      assert LinksWithin(f, found, m);
    }
  }

  // ---- Accumulation ------------------------------------------------------------------------

  /** The accumulator: both kinds of state, as `Gstate` holds them. */
  datatype Aggregate = Aggregate(move: seq<byte>, relocate: seq<byte>)

  function Of(f: Forest, pairs: seq<BlockPair>): Aggregate
    requires Sane(f) && forall i :: 0 <= i < |pairs| ==> pairs[i] in f
  {
    Aggregate(Sum(Moves, f, pairs), Sum(Relocations, f, pairs))
  }

  /** The pairs of `queue` are found; the links of those before `head` are in it too. */
  predicate Searched(f: Forest, pairs: seq<BlockPair>, queue: seq<BlockPair>, head: nat) {
    && 0 < |queue| && 0 < |pairs| && head <= |queue| && queue[0] == pairs[0] && Distinct(queue)
    && (forall i :: 0 <= i < |queue| ==> queue[i] in pairs && queue[i] in f)
    && (forall i :: 0 <= i < head ==> LinksWithin(f, queue, i))
  }

  /** Appends a pair unless it is queued already. */
  function Enqueue(queue: seq<BlockPair>, p: BlockPair): (r: seq<BlockPair>)
    ensures p in r && queue <= r
    ensures Distinct(queue) ==> Distinct(r)
  {
    if p in queue then queue else queue + [p]
  }

  /** Queues the children of the listing from entry `i` on, within the queue's capacity. */
  method EnqueueChildren(listing: seq<Slot>, queue: seq<BlockPair>, limit: nat, ghost thread: seq<BlockPair>) returns (r: Result<seq<BlockPair>>)
    requires Distinct(queue) && forall p :: p in queue ==> p in thread
    requires forall j :: 0 <= j < |listing| && ChildOf(listing[j]).Some? ==> ChildOf(listing[j]).value in thread
    ensures r.Ok? ==> queue <= r.value && Distinct(r.value) && forall p :: p in r.value ==> p in thread
    ensures r.Ok? ==> forall j :: 0 <= j < |listing| && ChildOf(listing[j]).Some? ==> ChildOf(listing[j]).value in r.value
    ensures r.Err? ==> r.error == OutOfRange && |thread| > limit
    ensures r.Ok? && |queue| <= limit ==> |r.value| <= limit
  {
    var q := queue;
    for j := 0 to |listing|
      invariant |queue| <= limit ==> |q| <= limit
      invariant queue <= q && Distinct(q) && forall p :: p in q ==> p in thread
      invariant forall i :: 0 <= i < j && ChildOf(listing[i]).Some? ==> ChildOf(listing[i]).value in q
    {
      var c := ChildOf(listing[j]);
      if c.Some? {
        if c.value !in q && |q| >= limit {
          QueueOverflows(q, c.value, limit, thread);
          return Err(OutOfRange);
        }
        q := Enqueue(q, c.value);
      }
    }
    return Ok(q);
  }

  lemma SearchedMore(f: Forest, pairs: seq<BlockPair>, queue: seq<BlockPair>, head: nat, more: seq<BlockPair>)
    requires Spans(f, pairs) && Searched(f, pairs, queue, head) && head < |queue|
    requires queue <= more && Distinct(more) && forall p :: p in more ==> p in pairs
    requires f[queue[head]].tail.Some? ==> f[queue[head]].tail.value.pair in more
    requires var l := f[queue[head]].listing;
             forall n :: 0 <= n < |l| && ChildOf(l[n]).Some? ==> ChildOf(l[n]).value in more
    ensures Searched(f, pairs, more, head + 1)
  {
    forall i | 0 <= i < |more|
      ensures more[i] in pairs && more[i] in f
    {
      assert more[i] in more;
    }
    forall i | 0 <= i < head + 1
      ensures LinksWithin(f, more, i)
    {
      assert more[i] == queue[i];
      if i < head {
        assert LinksWithin(f, queue, i);
      }
    }
  }

  lemma SearchedAll(f: Forest, pairs: seq<BlockPair>, queue: seq<BlockPair>)
    requires Spans(f, pairs) && Searched(f, pairs, queue, |queue|)
    ensures Of(f, queue) == Of(f, pairs) && |queue| >= |pairs|
  {
    forall i | 0 <= i < |pairs|
      ensures pairs[i] in queue
    {
      ClosedHolds(f, pairs, queue, i);
    }
    WithinThread(pairs, queue);
    SumOrder(Moves, f, queue, pairs);
    SumOrder(Relocations, f, queue, pairs);
  }

  /** The links of a found pair end in the spanned pairs. */
  lemma LinksInside(f: Forest, pairs: seq<BlockPair>, p: BlockPair)
    requires Spans(f, pairs) && p in pairs
    ensures p in f && (f[p].tail.Some? ==> f[p].tail.value.pair in pairs)
    ensures forall j :: 0 <= j < |f[p].listing| && ChildOf(f[p].listing[j]).Some? ==> ChildOf(f[p].listing[j]).value in pairs
  {
    var i :| 0 <= i < |pairs| && pairs[i] == p;
    assert LinksWithin(f, pairs, i);
  }

  /**
   `accumulate_gstate`: a breadth first walk from the root that folds every
   pair's totals once. It finds exactly the pairs that links reach, so its result
   is their sum, whatever order it visits them in.
   */
  method Accumulate(f: Forest, root: BlockPair, limit: nat, ghost pairs: seq<BlockPair>) returns (r: Result<Aggregate>)
    requires Spans(f, pairs) && pairs[0] == root
    ensures r.Ok? ==> r.value == Of(f, pairs)
    ensures r.Err? ==> r.error == OutOfRange
    ensures limit > 0 ==> (r.Err? <==> |pairs| > limit)
  {
    var queue, head := [root], 0;
    var move, relocate := Zeros(MOVE_SIZE), Zeros(RELOCATE_SIZE);
    assert queue[..0] == [];
    while head < |queue|
      invariant Searched(f, pairs, queue, head) && (limit > 0 ==> |queue| <= limit)
      invariant move == Sum(Moves, f, queue[..head]) && relocate == Sum(Relocations, f, queue[..head])
      decreases |pairs| - head
    {
      var p := queue[head];
      LinksInside(f, pairs, p);
      move := XorBytes(move, f[p].move);
      relocate := XorBytes(relocate, f[p].relocate);
      SumSnoc(Moves, f, queue, head);
      SumSnoc(Relocations, f, queue, head);
      var more := queue;
      if f[p].tail.Some? {
        if f[p].tail.value.pair !in more && |more| >= limit {
          QueueOverflows(more, f[p].tail.value.pair, limit, pairs);
          return Err(OutOfRange);
        }
        more := Enqueue(more, f[p].tail.value.pair);
      }
      var rest := EnqueueChildren(f[p].listing, more, limit, pairs);
      if rest.Err? {
        return Err(rest.error);
      }
      SearchedMore(f, pairs, queue, head, rest.value);
      assert rest.value[..head + 1] == queue[..head + 1];
      queue, head := rest.value, head + 1;
      WithinThread(queue, pairs);
    }
    assert queue[..head] == queue;
    SearchedAll(f, pairs, queue);
    return Ok(Aggregate(move, relocate));
  }

  /** A full queue that lacks a pair of the thread means a thread longer than the queue. */
  lemma QueueOverflows(queue: seq<BlockPair>, p: BlockPair, limit: nat, thread: seq<BlockPair>)
    requires Distinct(queue) && (forall q :: q in queue ==> q in thread) && p in thread && p !in queue && |queue| >= limit
    ensures |thread| > limit
  {
    var more := queue + [p];
    WithinThread(more, thread);
  }

  lemma SumSnoc(k: Kind, f: Forest, queue: seq<BlockPair>, head: nat)
    requires Sane(f) && head < |queue| && forall i :: 0 <= i < |queue| ==> queue[i] in f
    ensures Sum(k, f, queue[..head + 1]) == XorBytes(Sum(k, f, queue[..head]), Total(k, f[queue[head]]))
  {
    assert queue[..head + 1] == queue[..head] + [queue[head]];
    SumConcat(k, f, queue[..head], [queue[head]]);
    SumOne(k, f, queue[head]);
  }

  /** A list without repeats is no longer than one that holds all its members. */
  lemma {:induction false} WithinThread(queue: seq<BlockPair>, thread: seq<BlockPair>)
    requires Distinct(queue) && forall p :: p in queue ==> p in thread
    ensures |queue| <= |thread|
  {
    if queue != [] {
      assert queue[0] in queue;
      var i :| 0 <= i < |thread| && thread[i] == queue[0];
      forall p | p in queue[1..]
        ensures p in thread[..i] + thread[i + 1..]
      {
        assert p in queue && p != queue[0];
      }
      WithinThread(queue[1..], thread[..i] + thread[i + 1..]);
    }
  }
}
