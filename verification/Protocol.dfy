/**
 The protocols built on global state (`rename`, mount recovery, `src/gstate.rs`):
 each commit is one atomic step, and a crash may fall between any two.
 */
module Protocol {
  import opened Words
  import opened Tags
  import opened Operations
  import opened Rebuild
  import opened Split
  import opened Gstate

  // ---- Bodies --------------------------------------------------------------------------

  /** `build_move_body`: the deletion that completes a move, and the pair it is owed to. */
  function MoveBody(pair: BlockPair, id: Bits10): (s: seq<byte>)
    ensures |s| == MOVE_SIZE
  {
    LeNat(Join(NewTag(TagType.Delete, id, 0))) + LeNat(pair.a) + LeNat(pair.b)
  }

  /** `build_relocate_body`. */
  function RelocateBody(from: BlockPair, to: BlockPair): (s: seq<byte>)
    ensures |s| == RELOCATE_SIZE
  {
    LeNat(from.a) + LeNat(from.b) + LeNat(to.a) + LeNat(to.b)
  }

  function PairAt(s: seq<byte>, i: nat): BlockPair
    requires i + 8 <= |s|
  {
    BlockPair(FromLeNat(s[i..i + 4]), FromLeNat(s[i + 4..i + 8]))
  }

  datatype PendingMove = PendingMove(pair: BlockPair, id: Bits10)
  datatype PendingRelocation = PendingRelocation(from: BlockPair, to: BlockPair)

  /** `pending_move`: a zero state or one that holds no Delete tag is no move. */
  function MovePending(s: seq<byte>): Option<PendingMove>
    requires |s| == MOVE_SIZE
  {
    ValueBelow(s[..4]);
    var t := Tags.Split(FromLeNat(s[..4]));
    if s == Zeros(MOVE_SIZE) || TypeFromBits(t.kind) != TagType.Delete then None else Some(PendingMove(PairAt(s, 4), t.id))
  }

  /** `pending_relocation`. */
  function RelocationPending(s: seq<byte>): Option<PendingRelocation>
    requires |s| == RELOCATE_SIZE
  {
    if s == Zeros(RELOCATE_SIZE) then None else Some(PendingRelocation(PairAt(s, 0), PairAt(s, 8)))
  }

  lemma ValueBelow(s: seq<byte>)
    requires |s| == 4
    ensures FromLeNat(s) < U32_RANGE
  {
  }

  /** A pair of block addresses that fit their words. */
  predicate Addressable(p: BlockPair) {
    p.a < U32_RANGE && p.b < U32_RANGE
  }

  lemma PairSpelled(p: BlockPair, s: seq<byte>, i: nat)
    requires Addressable(p) && i + 8 <= |s| && s[i..i + 4] == LeNat(p.a) && s[i + 4..i + 8] == LeNat(p.b)
    ensures PairAt(s, i) == p
  {
    LeNatRoundTrip(p.a);
    LeNatRoundTrip(p.b);
  }

  lemma MoveBodyParts(pair: BlockPair, id: Bits10)
    ensures var s := MoveBody(pair, id);
            s[..4] == LeNat(Join(NewTag(TagType.Delete, id, 0))) && s[4..8] == LeNat(pair.a) && s[8..12] == LeNat(pair.b)
  {
  }

  /** The state of one move decodes to that move. */
  lemma MoveBodyDecodes(pair: BlockPair, id: Bits10)
    requires Addressable(pair)
    ensures MoveBody(pair, id) != Zeros(MOVE_SIZE) && MovePending(MoveBody(pair, id)) == Some(PendingMove(pair, id))
  {
    var s, t := MoveBody(pair, id), NewTag(TagType.Delete, id, 0);
    MoveBodyParts(pair, id);
    LeNatRoundTrip(Join(t));
    SplitJoin(t);
    PairSpelled(pair, s, 4);
    NotAllZero(s);
  }

  lemma NotAllZero(s: seq<byte>)
    requires |s| == MOVE_SIZE && FromLeNat(s[..4]) != 0
    ensures s != Zeros(MOVE_SIZE)
  {
    assert Zeros(MOVE_SIZE)[..4] == [0, 0, 0, 0];
    ZeroValue();
  }

  lemma ZeroValue()
    ensures FromLeNat([0, 0, 0, 0]) == 0
  {
  }

  lemma RelocateBodyParts(from: BlockPair, to: BlockPair)
    ensures var s := RelocateBody(from, to);
            s[0..4] == LeNat(from.a) && s[4..8] == LeNat(from.b) && s[8..12] == LeNat(to.a) && s[12..16] == LeNat(to.b)
  {
  }

  /** The state of one relocation decodes to that relocation. */
  lemma RelocateBodyDecodes(from: BlockPair, to: BlockPair)
    requires Addressable(from) && Addressable(to) && from != to
    ensures RelocateBody(from, to) != Zeros(RELOCATE_SIZE)
    ensures RelocationPending(RelocateBody(from, to)) == Some(PendingRelocation(from, to))
  {
    var s, z := RelocateBody(from, to), Zeros(RELOCATE_SIZE);
    RelocateBodyParts(from, to);
    PairSpelled(from, s, 0);
    PairSpelled(to, s, 8);
    assert z[0..4] == z[8..12] && z[4..8] == z[12..16];
    assert PairAt(z, 0) == PairAt(z, 8);
  }

  /** ... and it is the only state that does. */
  lemma RelocationDecodesOnly(s: seq<byte>, from: BlockPair, to: BlockPair)
    requires |s| == RELOCATE_SIZE && RelocationPending(s) == Some(PendingRelocation(from, to))
    ensures s == RelocateBody(from, to)
  {
    FromLeNatRoundTrip(s[0..4]);
    FromLeNatRoundTrip(s[4..8]);
    FromLeNatRoundTrip(s[8..12]);
    FromLeNatRoundTrip(s[12..16]);
    assert s == s[0..4] + s[4..8] + s[8..12] + s[12..16];
  }

  // ---- Commits as steps ------------------------------------------------------------------

  /** The operation names an entry the pair has. */
  predicate Applies(v: View, q: Request) {
    Sized(q) && (q.op.Noop? || (if Adds(q.op) then q.op.id == |v.listing| else q.op.id < |v.listing|))
  }

  /** One commit on pair `p`, by append or by rebuild: the pair reads as intended, nothing else changes. */
  function Commit(f: Forest, p: BlockPair, q: Request): (g: Forest)
    requires Sane(f) && p in f && Applies(f[p], q)
    ensures Sane(g) && g.Keys == f.Keys
  {
    f[p := Intended(f[p], q)]
  }

  function Delta(k: Kind, q: Request): (s: seq<byte>)
    requires Sized(q)
    ensures |s| == Width(k)
  {
    var d := if k.Moves? then q.move else q.relocate;
    if d.Some? then d.value else Zeros(Width(k))
  }

  lemma CommitTotal(k: Kind, v: View, q: Request)
    requires Gstate.Proper(v) && Applies(v, q)
    ensures Gstate.Proper(Intended(v, q)) && Total(k, Intended(v, q)) == XorBytes(Total(k, v), Delta(k, q))
  {
    XorZeros(Total(k, v));
  }

  /** A commit moves the sum over any list that holds its pair once by exactly its delta. */
  lemma CommitMovesSum(k: Kind, f: Forest, pairs: seq<BlockPair>, i: nat, q: Request)
    requires Sane(f) && Distinct(pairs) && (forall j :: 0 <= j < |pairs| ==> pairs[j] in f)
    requires i < |pairs| && Applies(f[pairs[i]], q)
    ensures Sum(k, Commit(f, pairs[i], q), pairs) == XorBytes(Sum(k, f, pairs), Delta(k, q))
  {
    var p := pairs[i];
    var g, rest := Commit(f, p, q), pairs[..i] + pairs[i + 1..];
    SumPick(k, f, pairs, i);
    SumPick(k, g, pairs, i);
    SumFrame(k, f, g, rest);
    CommitTotal(k, f[p], q);
    XorShuffle(Total(k, f[p]), Delta(k, q), Sum(k, f, rest));
  }

  lemma XorShuffle(a: seq<byte>, d: seq<byte>, r: seq<byte>)
    requires |a| == |d| == |r|
    ensures XorBytes(XorBytes(a, d), r) == XorBytes(XorBytes(a, r), d)
  {
    XorAssoc(a, d, r);
    XorAssoc(a, r, d);
    XorComm(d, r);
  }

  /** A commit that changes no tail and brings in no foreign directory keeps the thread. */
  lemma CommitKeepsThread(f: Forest, thread: seq<BlockPair>, i: nat, q: Request)
    requires Threaded(f, thread) && i < |thread| && Applies(f[thread[i]], q) && q.tail == None
    requires forall s :: s in Effect(q.op, f[thread[i]].listing) && ChildOf(s).Some? ==> ChildOf(s).value in thread
    ensures Threaded(Commit(f, thread[i], q), thread)
  {
    var g := Commit(f, thread[i], q);
    forall j | 0 <= j < |thread|
      ensures thread[j] in g && ThreadedAt(g, thread, j)
    {
      assert ThreadedAt(f, thread, j);
    }
  }
}
