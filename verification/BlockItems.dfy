/**
 Between bytes and meaning: the items a committed block spells, and building a
 block from items (`build_compact_commit` and the append path in `src/fs.rs`).
 */
module BlockItems {
  import opened Words
  import opened Tags
  import opened Grid
  import opened Scanner
  import opened Log
  import opened LogBackward
  import opened LogReader
  import opened LogWriter
  import D = Directory
  import O = Operations
  import R = Rebuild
  import S = Sizes

  /** The items of a run of entries. */
  function Decoded(tags: seq<Entry>): (r: seq<D.Item>)
    ensures |r| == |tags|
  {
    seq(|tags|, i requires 0 <= i < |tags| => D.ItemOf(tags[i].tag, tags[i].body))
  }

  lemma DecodedConcat(a: seq<Entry>, b: seq<Entry>)
    ensures Decoded(a + b) == Decoded(a) + Decoded(b)
  {
  }

  lemma ItemWithoutFlag(t: Tag, body: seq<byte>)
    ensures D.ItemOf(t.(flag := false), body) == D.ItemOf(t, body)
  {
  }

  /** The backward iterator spells the same items in the opposite order. */
  lemma BackwardItems(tags: seq<Entry>, i: nat)
    requires i < |tags|
    ensures |Backward(Masked, tags)| == |tags|
    ensures var seen := Backward(Masked, tags)[i]; D.ItemOf(seen.tag, seen.body) == Decoded(tags)[|tags| - 1 - i]
  {
    BackwardAt(Masked, tags, i);
    DecodedMasked(tags, |tags| - 1 - i);
  }

  lemma DecodedMasked(tags: seq<Entry>, k: nat)
    requires k < |tags|
    ensures var seen := Masked(tags[k]); D.ItemOf(seen.tag, seen.body) == Decoded(tags)[k]
  {
    ItemWithoutFlag(tags[k].tag, tags[k].body);
  }

  /** The reader and the item log see the same thread link in an entry. */
  lemma ThreadIsTail(e: Entry)
    ensures ThreadOf(e) == R.TailIn(D.ItemOf(e.tag, e.body))
  {
    KindsExact(e.tag);
  }

  lemma {:induction false} LatestThread(tags: seq<Entry>)
    ensures Latest(ThreadOf, tags) == Latest(R.TailIn, Decoded(tags))
  {
    if tags != [] {
      var init, e := tags[..|tags| - 1], tags[|tags| - 1];
      LatestThread(init);
      ThreadIsTail(e);
      assert Decoded(tags)[..|tags| - 1] == Decoded(init);
    }
  }

  /** The tail the reader reports is the one the block's items say. */
  lemma ReaderTail(w: Wire, block: seq<byte>, cap: nat)
    requires |block| >= 4 && R.Readable(cap, Decoded(Committed(w, block)))
    ensures var r, t := ReaderOf(w, block), R.ViewOf(cap, Decoded(Committed(w, block))).tail;
            t == if r.tail.Some? then Some(Thread(r.tail.value, r.hardTail)) else None
    ensures ReaderOf(w, block).tail == None ==> !ReaderOf(w, block).hardTail
  {
    ForwardExact(w, block);
    LatestThread(Committed(w, block));
  }

  // ---- Room behind an erased window ----------------------------------------------------------

  /** An item is never larger than its entry; a checksum tag is no item at all. */
  lemma ItemBytes(e: Entry)
    requires WellTagged(e)
    ensures S.Bytes(D.ItemOf(e.tag, e.body)) <= Extent(e)
    ensures IsCcrc(e.tag) || IsFcrc(e.tag) ==> D.ItemOf(e.tag, e.body) == D.Other
  {
    KindsExact(e.tag);
  }

  /** What the committed part of a state leaves beyond its items: both checksums of the last commit. */
  predicate Roomy(s: Scan) {
    && (s.pending.Some? ==> Size(s.tags) >= 4 + S.LogBytes(Decoded(s.tags)) + 12)
    && (s.last.Some? ==> Size(s.committed) >= 4 + S.LogBytes(Decoded(s.committed)) + 12 + 8)
    && Size(s.tags) >= 4 + S.LogBytes(Decoded(s.tags))
  }

  lemma SnocBytes(tags: seq<Entry>, e: Entry)
    requires WellTagged(e)
    ensures Size(tags + [e]) == Size(tags) + Extent(e)
    ensures S.LogBytes(Decoded(tags + [e])) == S.LogBytes(Decoded(tags)) + S.Bytes(D.ItemOf(e.tag, e.body))
  {
    SizeSnoc(tags, e);
    DecodedConcat(tags, [e]);
    S.LogBytesConcat(Decoded(tags), Decoded([e]));
    S.OneBytes(D.ItemOf(e.tag, e.body));
    assert Decoded([e]) == [D.ItemOf(e.tag, e.body)];
  }

  lemma AbsorbRoomy(w: Wire, s: Scan, e: Entry)
    requires Roomy(s) && WellTagged(e) && Absorb(w, s, e).Some?
    ensures Roomy(Absorb(w, s, e).value)
  {
    SnocBytes(s.tags, e);
    ItemBytes(e);
  }

  lemma {:induction false} ReplayRoomy(w: Wire, block: seq<byte>, start: Scan, tags: seq<Entry>)
    requires Roomy(start) && Spells(TagAt(w), block, tags) && Replay(Absorber(w), start, tags).Some?
    ensures Roomy(Replay(Absorber(w), start, tags).value)
  {
    if tags != [] {
      var init := tags[..|tags| - 1];
      ReplayRoomy(w, block, start, init);
      TagAtExtent(w, block, Size(init), Link(init));
      AbsorbRoomy(w, Replay(Absorber(w), start, init).value, tags[|tags| - 1]);
    }
  }

  /** A block whose window is erased ends in a forward checksum and a commit tag. */
  lemma ErasedRoom(w: Wire, block: seq<byte>)
    requires |block| >= 4 && ReaderOf(w, block).erased
    ensures ReaderOf(w, block).end >= 4 + S.LogBytes(Decoded(Committed(w, block))) + 12 + 8
  {
    var s := Open(w, block);
    ReaderFields(w, block);
    OpenTracks(w, block);
    ReplayRoomy(w, block, Start(w, block[..4]), s.tags);
    ForwardExact(w, block);
  }

  // ---- Writing items ---------------------------------------------------------------------------

  function NameType(k: D.NameKind): TagType {
    match k case Regular => RegularFile case Folder => Directory case Super => Superblock
  }

  function StructType(k: D.StructKind): TagType {
    match k case Inline => InlineStruct case Ctz => CtzStruct case Pair => DirStruct
  }

  function BodyOf(item: D.Item): seq<byte> {
    match item
    case Name(_, _, name) => name
    case Struct(_, _, body) => body
    case Attr(_, _, value) => if value.Some? then value.value else []
    case Tail(pair, _) => O.TwoWords(pair.a, pair.b)
    case Move(state) => state
    case Relocate(state) => state
    case _ => []
  }

  /** Fields wide enough for the item; a body of 0x3FF bytes would read as none. */
  predicate Encodable(item: D.Item) {
    match item
    case Create(id) => id < 0x400
    case Delete(id) => id < 0x400
    case Name(id, _, name) => id < 0x400 && |name| <= 0x3FE
    case Struct(id, _, body) => id < 0x400 && |body| <= 0x3FE
    case Attr(id, a, value) => id < 0x400 && a < 0x100 && (value.Some? ==> |value.value| <= 0x3FE)
    case Tail(pair, _) => pair.a < U32_RANGE && pair.b < U32_RANGE
    case Move(state) => |state| == 12
    case Relocate(state) => |state| == 16
    case Other => false
  }

  function TypeOfItem(item: D.Item): TagType
    requires Encodable(item)
  {
    match item
    case Create(_) => TagType.Create
    case Delete(_) => TagType.Delete
    case Name(_, k, _) => NameType(k)
    case Struct(_, k, _) => StructType(k)
    case Attr(_, a, _) => UserAttr(a)
    case Tail(_, hard) => if hard then HardTail else SoftTail
    case Move(_) => MoveState
    case Relocate(_) => RelocateState
  }

  /** The tag `Tag::new` makes for an item. */
  function TagOf(item: D.Item): Tag
    requires Encodable(item)
  {
    var id := if item.Tail? || item.Move? || item.Relocate? then NO_ID else item.id;
    var length := if item.Attr? && item.value.None? then LEN_SPECIAL else |BodyOf(item)|;
    NewTag(TypeOfItem(item), id, length)
  }

  lemma ItemOfFields(item: D.Item, t: Tag, body: seq<byte>)
    requires Encodable(item) && !item.Tail? && TypeFromBits(t.kind) == TypeOfItem(item) && body == BodyOf(item)
    requires !item.Move? && !item.Relocate? ==> t.id == item.id
    requires item.Attr? ==> (t.length == LEN_SPECIAL <==> item.value.None?)
    ensures D.ItemOf(t, body) == item
  {
  }

  lemma TailOfFields(item: D.Item, t: Tag, body: seq<byte>)
    requires Encodable(item) && item.Tail? && TypeFromBits(t.kind) == TypeOfItem(item) && body == BodyOf(item)
    ensures D.ItemOf(t, body) == item
  {
    O.TwoWordsRead(item.pair.a, item.pair.b);
  }

  lemma TypeNotCrc(item: D.Item)
    requires Encodable(item)
    ensures !TypeOfItem(item).CommitCrc? && TypeOfItem(item) != ForwardCrc
  {
  }

  lemma TagOfFields(item: D.Item)
    requires Encodable(item)
    ensures var t := TagOf(item);
            && IsValid(t) && TypeFromBits(t.kind) == TypeOfItem(item) && |BodyOf(item)| == BodyLen(t)
            && (!item.Tail? && !item.Move? && !item.Relocate? ==> t.id == item.id)
            && (item.Attr? ==> (t.length == LEN_SPECIAL <==> item.value.None?))
  {
  }

  /** Encoding an item and decoding its tag and body returns it. */
  lemma ItemRoundTrip(item: D.Item)
    requires Encodable(item)
    ensures IsValid(TagOf(item)) && |BodyOf(item)| == BodyLen(TagOf(item)) && !IsCcrc(TagOf(item))
    ensures D.ItemOf(TagOf(item), BodyOf(item)) == item
  {
    TagOfFields(item);
    KindsExact(TagOf(item));
    TypeNotCrc(item);
    if item.Tail? {
      TailOfFields(item, TagOf(item), BodyOf(item));
    } else {
      ItemOfFields(item, TagOf(item), BodyOf(item));
    }
  }

  lemma ItemDsize(item: D.Item)
    requires Encodable(item)
    ensures Dsize(TagOf(item)) == S.Bytes(item) && !IsFcrc(TagOf(item))
  {
    KindsExact(TagOf(item));
  }

  /** From state `s0` at `off0` over buffer `b0`, exactly `items` were written. */
  ghost predicate Progress(s0: Scan, b0: seq<byte>, off0: nat, s: Scan, b: seq<byte>, off: nat, items: seq<D.Item>) {
    && Decoded(s.tags) == Decoded(s0.tags) + items && s.pending == s0.pending
    && off == off0 + S.LogBytes(items) && OnlyIn(b0, b, off0, off)
  }

  lemma ProgressStart(s: Scan, b: seq<byte>, off: nat)
    requires off <= |b|
    ensures Progress(s, b, off, s, b, off, [])
  {
  }

  lemma ProgressStep(w: Wire, s0: Scan, b0: seq<byte>, off0: nat, s: Scan, b: seq<byte>, off: nat, items: seq<D.Item>,
                     item: D.Item, b': seq<byte>, link: Tag, sum: word)
    requires Progress(s0, b0, off0, s, b, off, items) && Encodable(item)
    requires Appended(w, b, b', off, link, Entry(TagOf(item), TagOf(item), BodyOf(item)))
    ensures Progress(s0, b0, off0, AfterTag(w, s, Entry(TagOf(item), TagOf(item), BodyOf(item)), sum), b', off + S.Bytes(item), items + [item])
  {
    ItemRoundTrip(item);
    ItemDsize(item);
    AppendedParts(w, b, b', off, link, Entry(TagOf(item), TagOf(item), BodyOf(item)));
    StepProgress(w, s0, b0, off0, s, b, off, items, Entry(TagOf(item), TagOf(item), BodyOf(item)), item, b', sum);
  }

  lemma StepProgress(w: Wire, s0: Scan, b0: seq<byte>, off0: nat, s: Scan, b: seq<byte>, off: nat, items: seq<D.Item>,
                     e: Entry, item: D.Item, b': seq<byte>, sum: word)
    requires Progress(s0, b0, off0, s, b, off, items)
    requires D.ItemOf(e.tag, e.body) == item && Extent(e) == S.Bytes(item) && WindowOf(e).None? && OnlyIn(b, b', off, off + Extent(e))
    ensures Progress(s0, b0, off0, AfterTag(w, s, e, sum), b', off + S.Bytes(item), items + [item])
  {
    OnlyInTwice(b0, b, b', off0, off, off + Extent(e));
    DecodedConcat(s.tags, [e]);
    assert Decoded([e]) == [item];
    assert Decoded(s0.tags) + (items + [item]) == (Decoded(s0.tags) + items) + [item];
    S.LogBytesConcat(items, [item]);
    S.OneBytes(item);
  }

  /** Writes items in order until one does not fit. */
  method EmitItems(c: Commit, items: seq<D.Item>) returns (r: Result<()>)
    requires c.Valid() && forall i :: 0 <= i < |items| ==> Encodable(items[i])
    modifies c, c.buf
    ensures c.Valid() && r == if old(c.offset) + S.LogBytes(items) > c.buf.Length then Err(OutOfRange) else Ok(())
    ensures r.Ok? ==> Progress(old(c.scan), old(c.buf[..]), old(c.offset), c.scan, c.buf[..], c.offset, items)
  {
    r := Ok(());
    ProgressStart(c.scan, c.buf[..], c.offset);
    assert items[..0] == [];
    for i := 0 to |items|
      invariant c.Valid() && r == Ok(())
      invariant Progress(old(c.scan), old(c.buf[..]), old(c.offset), c.scan, c.buf[..], c.offset, items[..i])
    {
      r := EmitNext(c, items, i, old(c.scan), old(c.buf[..]), old(c.offset));
      if r.Err? {
        return;
      }
    }
    assert items[..|items|] == items;
  }

  /** Writes the next item. */
  method EmitNext(c: Commit, items: seq<D.Item>, i: nat, ghost s0: Scan, ghost b0: seq<byte>, ghost off0: nat) returns (r: Result<()>)
    requires c.Valid() && i < |items| && Encodable(items[i])
    requires Progress(s0, b0, off0, c.scan, c.buf[..], c.offset, items[..i])
    modifies c, c.buf
    ensures c.Valid()
    ensures r == Ok(()) || (r == Err(OutOfRange) && off0 + S.LogBytes(items) > c.buf.Length)
    ensures r.Ok? ==> Progress(s0, b0, off0, c.scan, c.buf[..], c.offset, items[..i + 1])
  {
    ghost var s, b, off, link, crc := c.scan, c.buf[..], c.offset, c.ptag, c.crc;
    var item := items[i];
    var t, body := TagOf(item), BodyOf(item);
    ItemRoundTrip(item);
    ItemDsize(item);
    S.PrefixBytes(items, i);
    assert items[..i + 1] == items[..i] + [item];
    r := c.Append(t, body);
    if r.Ok? {
      ProgressStep(c.wire, s0, b0, off0, s, b, off, items[..i], item, c.buf[..], link, c.wire.check(crc, c.wire.spell(Xor(t, link))));
    }
  }

  // ---- A whole block ------------------------------------------------------------------------------

  /** Checksum tags do not change what a log says. */
  lemma ChecksumsIgnored(cap: nat, log: seq<D.Item>, more: seq<D.Item>)
    requires R.Readable(cap, log) && forall i :: 0 <= i < |more| ==> more[i] == D.Other
    ensures R.Readable(cap, log + more) && R.ViewOf(cap, log + more) == R.ViewOf(cap, log)
  {
    O.ReplayConcat(D.Fresh(cap), log, more);
    R.ReplayStateOnly(D.Replay(D.Fresh(cap), log).value, more);
    R.LatestConcat(R.MoveIn, log, more);
    R.LatestConcat(R.RelocateIn, log, more);
    R.LatestConcat(R.TailIn, log, more);
    R.LatestNothing(R.MoveIn, more);
    R.LatestNothing(R.RelocateIn, more);
    R.LatestNothing(R.TailIn, more);
  }

  /** A sealed commit decodes to what was there and checksum tags. */
  lemma SealedDecoded(w: Wire, s: Scan, t: Scan, chunk: Bits8, prog: Option<nat>) returns (more: seq<D.Item>)
    requires Sealed(w, s, t, chunk, prog)
    ensures Decoded(t.tags) == Decoded(s.tags) + more && forall i :: 0 <= i < |more| ==> more[i] == D.Other
  {
    var n := |t.tags| - 1;
    var fcrc := if prog.Some? then [FcrcEntry(w, prog.value)] else [];
    more := Decoded(fcrc) + Decoded([t.tags[n]]);
    assert t.tags == t.tags[..n] + [t.tags[n]];
    DecodedConcat(t.tags[..n], [t.tags[n]]);
    DecodedConcat(s.tags, fcrc);
    KindsExact(t.tags[n].tag);
    if prog.Some? {
      KindsExact(FcrcEntry(w, prog.value).tag);
    }
  }

  /** Fills a buffer with erased bytes. */
  method EraseBuffer(buf: array<byte>)
    modifies buf
    ensures ErasedFrom(buf[..], 0)
  {
    for i := 0 to buf.Length
      invariant forall j :: 0 <= j < i ==> buf[j] == ERASED
    {
      buf[i] := ERASED;
    }
  }

  lemma KeptErased(a: seq<byte>, b: seq<byte>, from: nat, off: nat)
    requires ErasedFrom(a, from) && from <= off && KeptFrom(a, b, off)
    ensures ErasedFrom(b, off)
  {
  }

  /** A program unit that divides the block always finds room for the commit tag. */
  lemma SealRoom(off: nat, prog: nat, size: nat)
    requires 0 < prog <= 1007 && OnGrid(size, prog) && off + 8 <= size
    ensures off + 8 <= SealEnd(off, prog, size) <= size
    ensures SealFits(off, SealEnd(off, prog, size), EmitsFcrc(off, prog, size), size)
  {
    CeilWithin(Min(off + 20, size), size, prog);
  }

  /** The committed tags of `block` say what `items` say. */
  ghost predicate ReadsAs(w: Wire, block: seq<byte>, cap: nat, items: seq<D.Item>)
    requires R.Readable(cap, items)
  {
    && |block| >= 4
    && R.Readable(cap, Decoded(Committed(w, block)))
    && R.ViewOf(cap, Decoded(Committed(w, block))) == R.ViewOf(cap, items)
  }

  /** The committed tags of `block` begin with tags that end at `end` and say what `items` say. */
  ghost predicate ReadsThrough(w: Wire, block: seq<byte>, cap: nat, items: seq<D.Item>, end: nat)
    requires R.Readable(cap, items)
  {
    exists tags :: Shows(w, block, cap, items, end, tags)
  }

  ghost predicate Shows(w: Wire, block: seq<byte>, cap: nat, items: seq<D.Item>, end: nat, tags: seq<Entry>)
    requires R.Readable(cap, items)
  {
    && |block| >= 4 && tags <= Committed(w, block) && Size(tags) == end
    && R.Readable(cap, Decoded(tags)) && R.ViewOf(cap, Decoded(tags)) == R.ViewOf(cap, items)
  }

  /**
   From buffer `a`, which says `log`, to `b`: items and one commit tag were written from
   `from` to `end`, and nothing else. Whatever lies behind, the committed tags up to the
   end say the log and the items; if erased bytes lie there, that is all, and they read
   as erased exactly when the commit promises it.
   */
  ghost predicate Landed(w: Wire, a: seq<byte>, b: seq<byte>, from: nat, log: seq<D.Item>, items: seq<D.Item>, prog: nat, cap: nat, end: nat) {
    && prog > 0 && |b| >= 4 && from < end == SealEnd(from + S.LogBytes(items), prog, |b|) && OnlyIn(a, b, from, end)
    && (R.Readable(cap, log + items) ==> ReadsThrough(w, b, cap, log + items, end))
    && (ErasedFrom(b, end) ==>
          && ReaderOf(w, b).end == end && (ReaderOf(w, b).erased <==> EmitsFcrc(from + S.LogBytes(items), prog, |b|))
          && (R.Readable(cap, log + items) ==> ReadsAs(w, b, cap, log + items)))
  }

  /** Sealing what has been written lands it. */
  lemma LandedAfter(w: Wire, s0: Scan, a: seq<byte>, from: nat, s: Scan, b: seq<byte>, mid: nat, c: seq<byte>, items: seq<D.Item>,
                    prog: nat, cap: nat, end: nat)
    requires Progress(s0, a, from, s, b, mid, items) && Landed(w, b, c, mid, Decoded(s.tags), [], prog, cap, end)
    ensures Landed(w, a, c, from, Decoded(s0.tags), items, prog, cap, end)
  {
    OnlyInTwice(a, b, c, from, mid, end);
    assert Decoded(s.tags) + [] == Decoded(s0.tags) + items;
  }

  /** The items and the commit tag have room, and the program unit divides the block. */
  ghost predicate HasRoom(length: nat, from: nat, items: seq<D.Item>, prog: nat) {
    OnGrid(length, prog) && prog <= 1007 && from + S.LogBytes(items) + 8 <= length
  }

  /** Seals the items written so far. */
  method SealItems(c: Commit, prog: nat, ghost cap: nat) returns (r: Result<()>)
    requires c.Valid() && 0 < prog < U32_RANGE && c.scan.pending == None
    modifies c, c.buf
    ensures HasRoom(c.buf.Length, old(c.offset), [], prog) ==> r.Ok?
    ensures r.Ok? ==> Landed(c.wire, old(c.buf[..]), c.buf[..], old(c.offset), old(Decoded(c.scan.tags)), [], prog, cap, c.offset)
  {
    if HasRoom(c.buf.Length, c.offset, [], prog) {
      SealRoom(c.offset, prog, c.buf.Length);
    }
    ghost var s, off, before := c.scan, c.offset, c.buf[..];
    ghost var emits := if EmitsFcrc(c.offset, prog, c.buf.Length) then Some(prog) else None;
    r := c.FinishPadded(0, prog, c.buf.Length);
    if r.Ok? {
      SealEndBeyond(off, prog, c.buf.Length);
      if ErasedFrom(c.buf[..], c.offset) {
        c.ReadsBack(s, 0, emits);
      }
      SealLanded(c.wire, before, c.buf[..], off, s, c.scan, prog, cap, c.offset);
    }
  }

  /** The sealed tags read as the items before them. */
  lemma SealReads(w: Wire, b: seq<byte>, s: Scan, t: Scan, promise: Option<nat>, cap: nat)
    requires |b| >= 4 && Tracks(w, b, t) && t.committed == t.tags && Sealed(w, s, t, 0, promise) && R.Readable(cap, Decoded(s.tags))
    ensures ReadsThrough(w, b, cap, Decoded(s.tags), Size(t.tags))
    ensures Committed(w, b) == t.tags ==> ReadsAs(w, b, cap, Decoded(s.tags))
  {
    var log := Decoded(s.tags);
    var more := SealedDecoded(w, s, t, 0, promise);
    ChecksumsIgnored(cap, log, more);
    SealedShows(w, b, t, cap, log);
  }

  lemma SealLanded(w: Wire, a: seq<byte>, b: seq<byte>, from: nat, s: Scan, t: Scan, prog: nat, cap: nat, end: nat)
    requires prog > 0 && |b| >= 4 && from < end == SealEnd(from, prog, |b|) && OnlyIn(a, b, from, end)
    requires Tracks(w, b, t) && t.committed == t.tags && Size(t.tags) == end
    requires Sealed(w, s, t, 0, if EmitsFcrc(from, prog, |b|) then Some(prog) else None)
    requires ErasedFrom(b, end) ==>
               ReaderOf(w, b).end == end && Committed(w, b) == t.tags && (ReaderOf(w, b).erased <==> EmitsFcrc(from, prog, |b|))
    ensures Landed(w, a, b, from, Decoded(s.tags), [], prog, cap, end)
  {
    var log := Decoded(s.tags);
    assert log + [] == log;
    if R.Readable(cap, log) {
      SealReads(w, b, s, t, if EmitsFcrc(from, prog, |b|) then Some(prog) else None, cap);
    }
  }

  lemma SealedShows(w: Wire, block: seq<byte>, s: Scan, cap: nat, items: seq<D.Item>)
    requires Tracks(w, block, s) && s.committed == s.tags && R.Readable(cap, items)
    requires R.Readable(cap, Decoded(s.tags)) && R.ViewOf(cap, Decoded(s.tags)) == R.ViewOf(cap, items)
    ensures ReadsThrough(w, block, cap, items, Size(s.tags))
  {
    TracksPrefix(w, block, s);
    ForwardExact(w, block);
    assert Shows(w, block, cap, items, Size(s.tags), s.tags);
  }

  lemma SealEndBeyond(off: nat, prog: nat, size: nat)
    requires prog > 0 && SealEnd(off, prog, size) <= size && off <= size
    ensures off <= SealEnd(off, prog, size)
  {
  }

  /** Items and the commit that seals them, behind what the buffer holds. */
  method EmitSealed(c: Commit, items: seq<D.Item>, prog: nat, ghost cap: nat) returns (r: Result<()>)
    requires c.Valid() && 0 < prog < U32_RANGE && c.scan.pending == None && forall i :: 0 <= i < |items| ==> Encodable(items[i])
    modifies c, c.buf
    ensures HasRoom(c.buf.Length, old(c.offset), items, prog) ==> r.Ok?
    ensures r.Ok? ==> Landed(c.wire, old(c.buf[..]), c.buf[..], old(c.offset), old(Decoded(c.scan.tags)), items, prog, cap, c.offset)
  {
    ghost var s0, a, from := c.scan, c.buf[..], c.offset;
    r := EmitItems(c, items);
    if r.Err? {
      return;
    }
    ghost var s, b, mid := c.scan, c.buf[..], c.offset;
    r := SealItems(c, prog, cap);
    if r.Ok? {
      LandedAfter(c.wire, s0, a, from, s, b, mid, c.buf[..], items, prog, cap, c.offset);
    }
  }

  /** The block has the revision and says the items up to `end`, and is erased behind. */
  ghost predicate Built(w: Wire, b: seq<byte>, revision: word, items: seq<D.Item>, prog: nat, cap: nat, end: nat) {
    && prog > 0 && |b| >= 4 && ErasedFrom(b, end)
    && var r := ReaderOf(w, b);
       && r.revision == revision && r.end == end == SealEnd(4 + S.LogBytes(items), prog, |b|)
       && (r.erased <==> EmitsFcrc(4 + S.LogBytes(items), prog, |b|))
       && (R.Readable(cap, items) ==> ReadsAs(w, b, cap, items))
  }

  lemma RevisionKept(a: seq<byte>, b: seq<byte>, revision: word)
    requires |a| >= 4 && |b| >= 4 && a[..4] == Le32(revision) && b[..4] == a[..4]
    ensures FromLe32(b[..4]) == revision
  {
    Le32RoundTrip(revision);
  }

  lemma LandedBuilt(w: Wire, a: seq<byte>, b: seq<byte>, revision: word, items: seq<D.Item>, prog: nat, cap: nat, end: nat)
    requires Landed(w, a, b, 4, [], items, prog, cap, end) && |a| >= 4 && ErasedFrom(a, 4) && a[..4] == Le32(revision)
    ensures Built(w, b, revision, items, prog, cap, end)
  {
    assert [] + items == items;
    KeptErased(a, b, 4, end);
    RevisionKept(a, b, revision);
  }

  /** `build_compact_commit`: an erased buffer, a revision, the items, one commit tag. */
  method BuildBlock(wire: Wire, buf: array<byte>, revision: word, items: seq<D.Item>, prog: nat, ghost cap: nat) returns (r: Result<nat>)
    requires Lawful(wire) && 0 < prog < U32_RANGE && forall i :: 0 <= i < |items| ==> Encodable(items[i])
    modifies buf
    ensures buf.Length >= 8 && HasRoom(buf.Length, 4, items, prog) ==> r.Ok?
    ensures r.Ok? ==> buf.Length >= 8 && Built(wire, buf[..], revision, items, prog, cap, r.value)
  {
    EraseBuffer(buf);
    var made := NewCommit(wire, buf, revision);
    if made.Err? {
      return Err(made.error);
    }
    var c := made.value;
    ghost var before := buf[..];
    assert c.scan.tags == [] && ErasedFrom(before, 4) && before[..4] == Le32(revision);
    var e := EmitSealed(c, items, prog, cap);
    if e.Err? {
      return Err(e.error);
    }
    LandedBuilt(wire, before, buf[..], revision, items, prog, cap, c.offset);
    return Ok(c.offset);
  }

  /**
   The append path: one more commit after the last verified one. Whatever lies
   beyond the new commit, the committed tags begin with the old ones and the
   appended items, up to the returned end; if erased bytes lie there, that is all.
   */
  method AppendBlock(wire: Wire, buf: array<byte>, items: seq<D.Item>, prog: nat, ghost cap: nat) returns (r: Result<nat>)
    requires Lawful(wire) && 0 < prog < U32_RANGE && forall i :: 0 <= i < |items| ==> Encodable(items[i])
    requires buf.Length >= 4 && ReaderOf(wire, buf[..]).end > 0
    modifies buf
    ensures HasRoom(buf.Length, old(ReaderOf(wire, buf[..]).end), items, prog) ==> r.Ok?
    ensures r.Ok? ==> Landed(wire, old(buf[..]), buf[..], old(ReaderOf(wire, buf[..]).end), old(Decoded(Committed(wire, buf[..]))), items, prog, cap, r.value)
  {
    var read := Parse(wire, buf[..]);
    var made := ResumeCommit(wire, buf, read.value.end, read.value.nextPtag);
    if made.Err? {
      return Err(made.error);
    }
    var c := made.value;
    ForwardExact(wire, buf[..]);
    var e := EmitSealed(c, items, prog, cap);
    if e.Err? {
      return Err(e.error);
    }
    return Ok(c.offset);
  }
}
