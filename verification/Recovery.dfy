/**
 What a mount makes of any global state (`Fs::mount` in `src/fs.rs`, `src/gstate.rs`):
 which states decode as a move, what is left of them, and that mounting twice is mounting once.
 */
module Recovery {
  import opened Words
  import opened Tags
  import opened Operations
  import opened Rebuild
  import opened Gstate
  import opened Protocol
  import opened Split
  import opened Landings
  import opened Rename

  // ---- Which states decode -----------------------------------------------------------------

  /** The tag word of a move state. */
  function MoveWord(s: seq<byte>): nat
    requires |s| == MOVE_SIZE
  {
    FromLeNat(s[..4])
  }

  /** A state decodes as a move exactly if its word has the type bits of a Delete tag. */
  lemma MovesExactly(s: seq<byte>)
    requires |s| == MOVE_SIZE
    ensures MovePending(s).Some? <==> MoveWord(s) / 0x10_0000 % 0x800 == 0x4FF
    ensures MovePending(s).Some? ==> MovePending(s).value.id == MoveWord(s) / 0x400 % 0x400
    ensures MovePending(s).Some? ==> LeNat(MovePending(s).value.pair.a) == s[4..8] && LeNat(MovePending(s).value.pair.b) == s[8..12]
  {
    TypeRoundTrip(TagType.Delete);
    FromLeNatRoundTrip(s[4..8]);
    FromLeNatRoundTrip(s[8..12]);
    if MoveWord(s) != 0 {
      NotAllZero(s);
    }
    DeleteBits(MoveWord(s) / 0x10_0000 % 0x800);
  }

  lemma DeleteBits(kind: Bits11)
    ensures TypeFromBits(kind) == TagType.Delete <==> kind == 0x4FF
  {
  }

  // ---- What finishing a move leaves of its state -----------------------------------------------

  /** The sum after the commit that finishes the decoded move. */
  function Leftover(s: seq<byte>): (r: seq<byte>)
    requires |s| == MOVE_SIZE
    ensures |r| == MOVE_SIZE
  {
    var m := MovePending(s);
    if m.Some? then XorBytes(s, MoveBody(m.value.pair, m.value.id)) else s
  }

  lemma XorOfBytes(a: byte, b: byte, c: byte, d: byte, p: byte, q: byte, r: byte, s: byte)
    ensures ((d ^ s) as word << 24) | ((c ^ r) as word << 16) | ((b ^ q) as word << 8) | (a ^ p) as word
            == ((d as word << 24) | (c as word << 16) | (b as word << 8) | a as word)
               ^ ((s as word << 24) | (r as word << 16) | (q as word << 8) | p as word)
  {
  }

  lemma XorOfWords(a: seq<byte>, b: seq<byte>)
    requires |a| == |b| == 4
    ensures FromLe32(XorBytes(a, b)) == FromLe32(a) ^ FromLe32(b)
  {
    XorOfBytes(a[0], a[1], a[2], a[3], b[0], b[1], b[2], b[3]);
  }

  lemma SpelledWord(s: seq<byte>, n: nat)
    requires s == LeNat(n)
    ensures |s| == 4 && FromLe32(s) == ToWord(n)
  {
    Le32RoundTrip(ToWord(n));
  }

  lemma ReadWord(s: seq<byte>, n: nat)
    requires |s| == 4 && n < U32_RANGE && FromLe32(s) == ToWord(n)
    ensures FromLeNat(s) == n
  {
    ToWordValue(n);
  }

  lemma XorSpelled(a: seq<byte>, b: seq<byte>, m: nat, n: nat)
    requires a == LeNat(m) && b == LeNat(n)
    ensures |a| == |b| == 4 && FromLe32(XorBytes(a, b)) == ToWord(m) ^ ToWord(n)
  {
    SpelledWord(a, m);
    SpelledWord(b, n);
    XorOfWords(a, b);
  }

  /** The XOR of two spelled words is the XOR of their tags. */
  lemma XorOfTags(a: seq<byte>, s: Tag, b: seq<byte>, t: Tag)
    requires a == LeNat(Join(s)) && b == LeNat(Join(t))
    ensures FromLeNat(XorBytes(a, b)) == Join(Xor(s, t))
  {
    XorSpelled(a, b, Join(s), Join(t));
    TagWordsXor(s, t);
    ReadWord(XorBytes(a, b), Join(Xor(s, t)));
  }

  lemma XorOfParts(a: seq<byte>, b: seq<byte>, i: nat, j: nat)
    requires |a| == |b| && i <= j <= |a|
    ensures XorBytes(a, b)[i..j] == XorBytes(a[i..j], b[i..j])
  {
  }

  /** Of a finished move's state only the tag's valid bit and length can be left. */
  lemma LeftoverWord(s: seq<byte>)
    requires |s| == MOVE_SIZE && MovePending(s).Some?
    ensures var t := Tags.Split(MoveWord(s)); MoveWord(Leftover(s)) == Join(Tag(t.flag, 0, 0, t.length))
    ensures Leftover(s)[4..8] == Zeros(4) && Leftover(s)[8..12] == Zeros(4)
  {
    var m, t := MovePending(s).value, Tags.Split(MoveWord(s));
    var d, body := NewTag(TagType.Delete, m.id, 0), MoveBody(m.pair, m.id);
    MovesExactly(s);
    JoinSplit(MoveWord(s));
    FromLeNatRoundTrip(s[..4]);
    MoveBodyParts(m.pair, m.id);
    XorOfTags(s[..4], t, body[..4], d);
    XorOfParts(s, body, 0, 4);
    XorOfParts(s, body, 4, 8);
    XorOfParts(s, body, 8, 12);
    XorSelf(s[4..8]);
    XorSelf(s[8..12]);
    DeleteBits(t.kind);
    DeleteBits(d.kind);
    XorZero(t.kind);
    XorZero(t.id);
    XorZero(t.length);
  }

  /** What is left decodes as no move, and is nothing exactly if the valid bit and the length were. */
  lemma LeftoverIdle(s: seq<byte>)
    requires |s| == MOVE_SIZE
    ensures MovePending(Leftover(s)) == None
    ensures Leftover(s) == Zeros(MOVE_SIZE)
            <==> s == Zeros(MOVE_SIZE) || (MovePending(s).Some? && MoveWord(s) < 0x8000_0000 && MoveWord(s) % 0x400 == 0)
  {
    if MovePending(s).Some? {
      var r, t := Leftover(s), Tags.Split(MoveWord(s));
      LeftoverWord(s);
      var u := Tag(t.flag, 0, 0, t.length);
      SplitJoin(u);
      MovesExactly(r);
      ZeroState(r);
      NotZero(s);
    }
  }

  lemma NotZero(s: seq<byte>)
    requires |s| == MOVE_SIZE && MovePending(s).Some?
    ensures s != Zeros(MOVE_SIZE)
  {
  }

  lemma ZeroState(s: seq<byte>)
    requires |s| == MOVE_SIZE && s[4..8] == Zeros(4) && s[8..12] == Zeros(4)
    ensures s == Zeros(MOVE_SIZE) <==> MoveWord(s) == 0
  {
    FromLeNatRoundTrip(s[..4]);
    FromLeNatRoundTrip(Zeros(4));
    ZeroValue();
    assert Zeros(4) == [0, 0, 0, 0];
    assert Zeros(MOVE_SIZE)[..4] == Zeros(4);
    assert Zeros(MOVE_SIZE) == Zeros(4) + Zeros(4) + Zeros(4);
    assert s == s[..4] + s[4..8] + s[8..12];
  }

  // ---- The mount -----------------------------------------------------------------------------

  /** The states that are in flight point at the thread, and the move at an entry. */
  predicate Owed(f: Forest, thread: seq<BlockPair>)
    requires Threaded(f, thread)
  {
    var m, l := MovePending(Of(f, thread).move), RelocationPending(Of(f, thread).relocate);
    (m.Some? ==> m.value.pair in thread && m.value.id < |f[m.value.pair].listing|) && (l.Some? ==> l.value.from in thread)
  }

  /** The forest with the owed deletion made, by a plain commit. */
  function Finished(f: Forest, thread: seq<BlockPair>): Forest
    requires Threaded(f, thread) && Owed(f, thread)
  {
    var m := MovePending(Of(f, thread).move);
    if m.Some? then Commit(f, m.value.pair, FinishRequest(m.value)) else f
  }

  /** Removing an entry and changing state keeps the thread, and moves the sums by the deltas. */
  lemma QuietCommit(f: Forest, thread: seq<BlockPair>, p: BlockPair, q: Request)
    requires Threaded(f, thread) && p in thread && Applies(f[p], q) && q.tail == None && (q.op.Noop? || q.op.Remove?)
    ensures Threaded(Commit(f, p, q), thread)
    ensures Of(Commit(f, p, q), thread) == Aggregate(XorBytes(Of(f, thread).move, Delta(Moves, q)), XorBytes(Of(f, thread).relocate, Delta(Relocations, q)))
  {
    var i :| 0 <= i < |thread| && thread[i] == p;
    assert ThreadedAt(f, thread, i);
    forall s | s in Effect(q.op, f[p].listing) && ChildOf(s).Some?
      ensures ChildOf(s).value in thread
    {
      assert s in f[p].listing;
    }
    CommitKeepsThread(f, thread, i, q);
    CommitMovesSum(Moves, f, thread, i, q);
    CommitMovesSum(Relocations, f, thread, i, q);
  }

  /** The forest `g` over `t` has the directories of `f` over `thread`, and this aggregate. */
  predicate Reads(g: Forest, t: seq<BlockPair>, f: Forest, thread: seq<BlockPair>, agg: Aggregate) {
    Threaded(g, t) && Threaded(f, thread) && Dirs(g, t) == Dirs(f, thread) && Of(g, t) == agg
  }

  /** One commit of the mount, however it lands. */
  lemma QuietLanding(land: Lander, f: Forest, thread: seq<BlockPair>, p: BlockPair, q: Request, move: seq<byte>, relocate: seq<byte>)
    returns (g: Forest, t: seq<BlockPair>)
    requires Honest(land) && Threaded(f, thread) && p in thread && Applies(f[p], q) && q.tail == None && (q.op.Noop? || q.op.Remove?)
    requires move == XorBytes(Of(f, thread).move, Delta(Moves, q)) && relocate == XorBytes(Of(f, thread).relocate, Delta(Relocations, q))
    ensures g == land(f, p, q).forest && Reads(g, t, Commit(f, p, q), thread, Aggregate(move, relocate))
    ensures forall x :: x in thread ==> x in t
  {
    assert HonestAt(land, f, p, q);
    QuietCommit(f, thread, p, q);
    var l := land(f, p, q);
    LandingReads(f, thread, p, q, l);
    g, t := l.forest, Insert(thread, p, l.conts);
    forall x | x in thread
      ensures x in t
    {
      InsertHas(thread, p, l.conts, x);
    }
  }

  /** What the finishing commit does to the two sums. */
  lemma FinishDeltas(agg: Aggregate, m: PendingMove)
    requires |agg.move| == MOVE_SIZE && |agg.relocate| == RELOCATE_SIZE && MovePending(agg.move) == Some(m)
    ensures var q := FinishRequest(m);
            && Sized(q) && q.op == Remove(m.id) && q.tail == None
            && XorBytes(agg.move, Delta(Moves, q)) == Leftover(agg.move) && XorBytes(agg.relocate, Delta(Relocations, q)) == agg.relocate
  {
    XorZeros(agg.relocate);
  }

  lemma FinishIsLanding(land: Lander, f: Forest, m: PendingMove)
    requires Honest(land) && Sane(f) && m.pair in f && m.id < |f[m.pair].listing|
    ensures FinishMove(land, f, m) == Ok(land(f, m.pair, FinishRequest(m)).forest)
  {
  }

  lemma RemovalSettles(land: Lander, f: Forest, thread: seq<BlockPair>, p: BlockPair, id: nat, q: Request, agg: Aggregate, left: seq<byte>)
    returns (g: Forest, t: seq<BlockPair>)
    requires Honest(land) && Threaded(f, thread) && p in thread && id < |f[p].listing| && Of(f, thread) == agg
    requires Sized(q) && q.op == Remove(id) && q.tail == None
    requires left == XorBytes(agg.move, Delta(Moves, q)) && agg.relocate == XorBytes(agg.relocate, Delta(Relocations, q))
    ensures g == land(f, p, q).forest && Reads(g, t, Commit(f, p, q), thread, Aggregate(left, agg.relocate))
    ensures forall x :: x in thread ==> x in t
  {
    g, t := QuietLanding(land, f, thread, p, q, left, agg.relocate);
  }

  /** The move's half: the deletion lands, and of its state the leftover remains. */
  lemma MoveSettles(land: Lander, f: Forest, thread: seq<BlockPair>, m: PendingMove) returns (g: Forest, t: seq<BlockPair>)
    requires Honest(land) && Threaded(f, thread) && Owed(f, thread) && MovePending(Of(f, thread).move) == Some(m)
    ensures FinishMove(land, f, m) == Ok(g) && (forall p :: p in thread ==> p in t)
    ensures Reads(g, t, Finished(f, thread), thread, Aggregate(Leftover(Of(f, thread).move), Of(f, thread).relocate))
  {
    var agg, q := Of(f, thread), FinishRequest(m);
    FinishDeltas(agg, m);
    FinishIsLanding(land, f, m);
    var left := Leftover(agg.move);
    g, t := RemovalSettles(land, f, thread, m.pair, m.id, q, agg, left);
  }

  /** Giving a relocation up changes no directory. */
  lemma CancelKeepsDirs(g: Forest, t: seq<BlockPair>, l: PendingRelocation)
    requires Threaded(g, t) && l.from in t && Applies(g[l.from], CancelRequest(l)) && Threaded(Commit(g, l.from, CancelRequest(l)), t)
    ensures Dirs(Commit(g, l.from, CancelRequest(l)), t) == Dirs(g, t)
  {
    DirsSame(Commit(g, l.from, CancelRequest(l)), g, t);
  }

  /** The relocation's half: giving it up changes no directory, and nothing of it is left. */
  lemma RelocationSettles(land: Lander, g: Forest, t: seq<BlockPair>, l: PendingRelocation) returns (h: Forest, u: seq<BlockPair>)
    requires Honest(land) && Threaded(g, t) && RelocationPending(Of(g, t).relocate) == Some(l) && l.from in t
    ensures CancelRelocation(land, g, l) == Ok(h) && Reads(h, u, g, t, Aggregate(Of(g, t).move, Zeros(RELOCATE_SIZE)))
  {
    var s, q := Of(g, t).relocate, CancelRequest(l);
    RelocationDecodesOnly(s, l.from, l.to);
    XorZeros(Of(g, t).move);
    XorSelf(s);
    h, u := QuietLanding(land, g, t, l.from, q, Of(g, t).move, Zeros(RELOCATE_SIZE));
    CancelKeepsDirs(g, t, l);
  }

  /** What a mount does about the move, if there is one. */
  function AfterMove(land: Lander, f: Forest, agg: Aggregate): (r: Result<Forest>)
    requires Honest(land) && Sane(f) && |agg.move| == MOVE_SIZE
    ensures r.Ok? ==> Sane(r.value)
  {
    if MovePending(agg.move).Some? then FinishMove(land, f, MovePending(agg.move).value) else Ok(f)
  }

  lemma RecoveredInTwo(land: Lander, f: Forest, agg: Aggregate, g: Forest)
    requires Honest(land) && Sane(f) && |agg.move| == MOVE_SIZE && |agg.relocate| == RELOCATE_SIZE && AfterMove(land, f, agg) == Ok(g)
    ensures var l := RelocationPending(agg.relocate); Recovered(land, f, agg) == if l.Some? then CancelRelocation(land, g, l.value) else Ok(g)
  {
  }

  lemma FirstHalf(land: Lander, f: Forest, thread: seq<BlockPair>) returns (g: Forest, t: seq<BlockPair>)
    requires Honest(land) && Threaded(f, thread) && Owed(f, thread)
    ensures AfterMove(land, f, Of(f, thread)) == Ok(g) && (forall p :: p in thread ==> p in t)
    ensures Reads(g, t, Finished(f, thread), thread, Aggregate(Leftover(Of(f, thread).move), Of(f, thread).relocate))
  {
    var m := MovePending(Of(f, thread).move);
    if m.Some? {
      g, t := MoveSettles(land, f, thread, m.value);
    } else {
      g, t := f, thread;
    }
  }

  /** Both halves. */
  lemma BothSettle(land: Lander, f: Forest, thread: seq<BlockPair>) returns (h: Forest, u: seq<BlockPair>)
    requires Honest(land) && Threaded(f, thread) && Owed(f, thread)
    ensures Recovered(land, f, Of(f, thread)) == Ok(h)
    ensures Reads(h, u, Finished(f, thread), thread, Aggregate(Leftover(Of(f, thread).move), Zeros(RELOCATE_SIZE)))
  {
    var agg := Of(f, thread);
    var g, t := FirstHalf(land, f, thread);
    RecoveredInTwo(land, f, agg, g);
    var l := RelocationPending(agg.relocate);
    if l.Some? {
      h, u := RelocationSettles(land, g, t, l.value);
    } else {
      h, u := g, t;
    }
  }

  /**
   For every global state that points at the thread, a mount succeeds, makes the owed
   deletion and nothing else, and leaves a thread on which a second mount changes nothing.
   Nothing is in flight on it exactly if the state's word had no bits but those of a move:
   the orphan bit that C packs into the word stays, at every mount.
   */
  lemma MountSettles(land: Lander, f: Forest, thread: seq<BlockPair>) returns (h: Forest, u: seq<BlockPair>)
    requires Honest(land) && Threaded(f, thread) && Owed(f, thread)
    ensures Recovered(land, f, Of(f, thread)) == Ok(h) && Threaded(h, u)
    ensures Threaded(Finished(f, thread), thread) && Dirs(h, u) == Dirs(Finished(f, thread), thread)
    ensures Recovered(land, h, Of(h, u)) == Ok(h)
    ensures var s := Of(f, thread).move;
            Quiet(h, u) <==> s == Zeros(MOVE_SIZE) || (MovePending(s).Some? && MoveWord(s) < 0x8000_0000 && MoveWord(s) % 0x400 == 0)
  {
    h, u := BothSettle(land, f, thread);
    LeftoverIdle(Of(f, thread).move);
    MountFails(land, h, Of(h, u));
  }

  /** Any other state: a mount that would have to write to a pair or an entry that is not there fails. */
  lemma MountFails(land: Lander, f: Forest, agg: Aggregate)
    requires Honest(land) && Sane(f) && |agg.move| == MOVE_SIZE && |agg.relocate| == RELOCATE_SIZE
    ensures var m := MovePending(agg.move);
            m.Some? && (m.value.pair !in f || m.value.id >= |f[m.value.pair].listing|) ==> Recovered(land, f, agg) == Err(Corrupt)
    ensures MovePending(agg.move) == None && RelocationPending(agg.relocate).Some? && RelocationPending(agg.relocate).value.from !in f
            ==> Recovered(land, f, agg) == Err(Corrupt)
    ensures MovePending(agg.move) == None && RelocationPending(agg.relocate) == None ==> Recovered(land, f, agg) == Ok(f)
    ensures RelocationPending(agg.relocate) == None <==> agg.relocate == Zeros(RELOCATE_SIZE)
  {
  }
}
