/**
 The commit writer (`src/meta.rs`): tags are chained, checksummed and sealed
 into a buffer, and the buffer reads back as exactly those tags.
 */
module LogWriter {
  import opened Bits
  import opened Words
  import opened Tags
  import opened Grid
  import opened Crc
  import opened Scanner
  import opened Log
  import opened LogReader

  /** `block` holds entry `e` at `off`, chained onto `link`. */
  ghost predicate Written(w: Wire, block: seq<byte>, off: nat, link: Tag, e: Entry) {
    && WellTagged(e) && off + Extent(e) <= |block|
    && block[off..off + 4] == w.spell(Xor(e.tag, link)) && block[off + 4..off + Extent(e)] == e.body
  }

  lemma WrittenReads(w: Wire, block: seq<byte>, off: nat, link: Tag, e: Entry)
    requires Lawful(w) && Written(w, block, off, link, e)
    ensures EntryFrom(w, block, off, link) == Some(e)
  {
    XorCancel(e.tag, link);
    assert SpellsTag(w, Xor(e.tag, link));
    WrittenEntry(block, off, e);
  }

  lemma WrittenEntry(block: seq<byte>, off: nat, e: Entry)
    requires WellTagged(e) && off + Extent(e) <= |block| && block[off + 4..off + Extent(e)] == e.body
    ensures EntryAt(block, off, e.tag) == Some(e)
  {
  }

  /** Writing an entry after a tracked state moves the state by that entry. */
  lemma WrittenTracks(w: Wire, a: seq<byte>, b: seq<byte>, s: Scan, e: Entry)
    requires Lawful(w) && Tracks(w, a, s) && Size(s.tags) <= |a| == |b| && a[..Size(s.tags)] == b[..Size(s.tags)]
    requires Written(w, b, Size(s.tags), Link(s.tags), e) && Absorb(w, s, e).Some?
    ensures Tracks(w, b, Absorb(w, s, e).value)
  {
    TracksFrame(w, a, b, s);
    WrittenReads(w, b, Size(s.tags), Link(s.tags), e);
    AbsorberProper(w);
    ReachedStep(TagAt(w), Absorber(w), Start(w, b[..4]), b, s, e);
  }

  /** All bytes from `off` on are erased. */
  predicate ErasedFrom(block: seq<byte>, off: nat) {
    forall i :: off <= i < |block| ==> block[i] == ERASED
  }

  lemma ErasedSlice(block: seq<byte>, off: nat, from: nat, n: nat)
    requires ErasedFrom(block, off) && off <= from && from + n <= |block|
    ensures block[from..from + n] == Blank(n)
  {
  }

  /**
   Erased bytes end the log exactly when the link before them is valid or the tag
   that the two decode to runs out of the block.
   */
  lemma ErasedEndsLog(w: Wire, block: seq<byte>, off: nat, link: Tag)
    requires Lawful(w) && ErasedFrom(block, off)
    ensures EntryFrom(w, block, off, link).None?
            <==> off + 4 > |block| || IsValid(link) || off + Dsize(Xor(FIRST_LINK, link)) > |block|
  {
    if off + 4 <= |block| {
      ErasedSlice(block, off, off, 4);
    }
  }

  /** XORing the first link with itself decodes as a tag without a body, which is valid. */
  lemma FirstLinkCancels()
    ensures Xor(FIRST_LINK, FIRST_LINK) == Tag(false, 0, 0, 0)
  {
    XorZero(0x7FF);
    XorZero(0x3FF);
  }

  lemma ErasedStart(w: Wire, block: seq<byte>, e: Entry)
    requires Lawful(w) && |block| >= 8 && ErasedFrom(block, 0) && e == Entry(Tag(false, 0, 0, 0), Tag(false, 0, 0, 0), [])
    ensures EntryFrom(w, block, 4, FIRST_LINK) == Some(e) && EntryFrom(w, block, 8, e.link).None?
  {
    FirstLinkCancels();
    ErasedSlice(block, 0, 4, 4);
    assert w.read(block[4..8]) == FIRST_LINK && block[8..8] == e.body;
    WrittenEntry(block, 4, e);
    ErasedEndsLog(w, block, 8, e.link);
  }

  lemma StrayAbsorbed(w: Wire, s: Scan, e: Entry) returns (t: Scan)
    requires s.tags == [] && s.committed == [] && e == Entry(Tag(false, 0, 0, 0), Tag(false, 0, 0, 0), [])
    ensures Absorb(w, s, e) == Some(t) && t.tags == [e] && t.committed == [] && Size(t.tags) == 8 && Link(t.tags) == e.link
  {
    t := Absorb(w, s, e).value;
    SizeSnoc([], e);
    assert [] + [e] == [e];
  }

  lemma StartTracks(w: Wire, block: seq<byte>)
    requires |block| >= 4
    ensures Tracks(w, block, Start(w, block[..4]))
  {
  }

  /** An erased block holds no commit: its first word decodes as one stray tag, its second ends the log. */
  lemma ErasedBlockEmpty(w: Wire, block: seq<byte>)
    requires Lawful(w) && |block| >= 8 && ErasedFrom(block, 0)
    ensures Open(w, block).committed == [] && |Open(w, block).tags| == 1
  {
    var e, s := Entry(Tag(false, 0, 0, 0), Tag(false, 0, 0, 0), []), Start(w, block[..4]);
    ErasedStart(w, block, e);
    StartTracks(w, block);
    AbsorberProper(w);
    var t := StrayAbsorbed(w, s, e);
    ReachedStep(TagAt(w), Absorber(w), s, block, s, e);
    TracksEnd(w, block, t);
  }

  /** The promise of a forward checksum the writer emits: the next `prog` bytes are erased. */
  function ErasedWindow(w: Wire, prog: nat): Window {
    Window(prog, w.check(SEED, Blank(prog)))
  }

  /** A state that ends in a verified commit ends in a commit tag. */
  lemma CommittedEndsInCcrc(w: Wire, block: seq<byte>, s: Scan)
    requires Tracks(w, block, s) && s.tags != [] && s.committed == s.tags
    ensures IsCcrc(Link(s.tags))
  {
    AbsorberProper(w);
    var init := s.tags[..|s.tags| - 1];
    ReplayCheckpoint(Absorber(w), Start(w, block[..4]), init);
    TagAtExtent(w, block, Size(init), Link(init));
  }

  /** A tag that is no commit tag adds itself and nothing else. */
  lemma PlainAbsorbed(w: Wire, s: Scan, e: Entry) returns (t: Scan)
    requires !IsCcrc(e.tag)
    ensures Absorb(w, s, e) == Some(t) && t.tags == s.tags + [e] && t.committed == s.committed && t.last == s.last
  {
    t := Absorb(w, s, e).value;
  }

  /** The erased word after a commit tag decodes as no commit tag. */
  lemma StrayAfterCommit(link: Tag)
    requires IsCcrc(link)
    ensures var t := Xor(FIRST_LINK, link); !IsCcrc(t) && t.flag == !link.flag
  {
    assert Pow2(11) == 0x800;
    XorOnes(link.kind, 11);
  }

  /** `e`, no commit tag, is the last entry of the log. */
  predicate EndsBehind(w: Wire, block: seq<byte>, off: nat, e: Entry) {
    !IsCcrc(e.tag) && EndsAt(w, block, off + Extent(e), e.link)
  }

  predicate EndsAt(w: Wire, block: seq<byte>, off: nat, link: Tag) {
    TagAt(w)(block, off, link).None?
  }

  lemma StrayTag(w: Wire, block: seq<byte>, off: nat, link: Tag, e: Entry)
    requires Lawful(w) && ErasedFrom(block, off) && EntryFrom(w, block, off, link) == Some(e)
    ensures e.tag == Xor(FIRST_LINK, link) && IsValid(e.tag) && e.link == NextPtag(e.tag)
  {
    TagAtExtent(w, block, off, link);
    ErasedSlice(block, off, off, 4);
  }

  /** A tag that erased bytes after a commit tag decode to is no commit tag, and the log ends behind it. */
  lemma StrayEntry(w: Wire, block: seq<byte>, off: nat, link: Tag, e: Entry)
    requires Lawful(w) && IsCcrc(link) && ErasedFrom(block, off) && EntryFrom(w, block, off, link) == Some(e)
    ensures EndsBehind(w, block, off, e)
  {
    StrayTag(w, block, off, link, e);
    StrayAfterCommit(link);
    ErasedEndsLog(w, block, off + Extent(e), e.link);
  }

  lemma TracksStep(w: Wire, block: seq<byte>, s: Scan, e: Entry, t: Scan)
    requires Tracks(w, block, s) && EntryFrom(w, block, Size(s.tags), Link(s.tags)) == Some(e) && Absorb(w, s, e) == Some(t)
    ensures Tracks(w, block, t)
  {
    AbsorberProper(w);
    ReachedStep(TagAt(w), Absorber(w), Start(w, block[..4]), block, s, e);
  }

  /** Where the log ends, a state that has its commits has those of the block. */
  lemma StrayEndsLog(w: Wire, block: seq<byte>, s: Scan, t: Scan, off: nat, link: Tag)
    requires Tracks(w, block, t) && t.committed == s.committed && t.last == s.last
    requires off == Size(t.tags) && link == Link(t.tags) && EndsAt(w, block, off, link)
    ensures Open(w, block).committed == s.committed && Open(w, block).last == s.last
  {
    TracksEnd(w, block, t);
  }

  lemma StrayFound(w: Wire, block: seq<byte>, s: Scan, e: Entry)
    requires Lawful(w) && Tracks(w, block, s) && s.tags != [] && s.committed == s.tags && ErasedFrom(block, Size(s.tags))
    requires EntryFrom(w, block, Size(s.tags), Link(s.tags)) == Some(e)
    ensures Open(w, block).committed == s.committed && Open(w, block).last == s.last
  {
    CommittedEndsInCcrc(w, block, s);
    StrayEntry(w, block, Size(s.tags), Link(s.tags), e);
    StrayAbsorbs(w, block, s, e);
  }

  lemma StrayAbsorbs(w: Wire, block: seq<byte>, s: Scan, e: Entry)
    requires Tracks(w, block, s) && EntryFrom(w, block, Size(s.tags), Link(s.tags)) == Some(e) && EndsBehind(w, block, Size(s.tags), e)
    ensures Open(w, block).committed == s.committed && Open(w, block).last == s.last
  {
    var t := PlainTracked(w, block, s, e);
    StrayLast(w, block, s, e, t);
  }

  lemma PlainTracked(w: Wire, block: seq<byte>, s: Scan, e: Entry) returns (t: Scan)
    requires Tracks(w, block, s) && EntryFrom(w, block, Size(s.tags), Link(s.tags)) == Some(e) && !IsCcrc(e.tag)
    ensures Tracks(w, block, t) && t.tags == s.tags + [e] && t.committed == s.committed && t.last == s.last
  {
    t := PlainAbsorbed(w, s, e);
    TracksStep(w, block, s, e, t);
  }

  lemma StrayLast(w: Wire, block: seq<byte>, s: Scan, e: Entry, t: Scan)
    requires Tracks(w, block, t) && t.tags == s.tags + [e] && t.committed == s.committed && t.last == s.last
    requires EndsBehind(w, block, Size(s.tags), e)
    ensures Open(w, block).committed == s.committed && Open(w, block).last == s.last
  {
    SizeSnoc(s.tags, e);
    StrayEndsLog(w, block, s, t, Size(s.tags) + Extent(e), e.link);
  }

  /**
   A sealed buffer with an erased tail scans to the commits written. After an odd
   chunk the erased word may decode as one stray tag, which is part of no commit.
   */
  lemma SealedStops(w: Wire, block: seq<byte>, s: Scan)
    requires Lawful(w) && Tracks(w, block, s) && s.tags != [] && s.committed == s.tags && ErasedFrom(block, Size(s.tags))
    ensures Open(w, block).committed == s.committed && Open(w, block).last == s.last
  {
    var e := EntryFrom(w, block, Size(s.tags), Link(s.tags));
    if e.Some? {
      StrayFound(w, block, s, e.value);
    } else {
      TracksEnd(w, block, s);
    }
  }

  /**
   The round trip: a sealed buffer with an erased tail parses to exactly the
   tags written, and reports the window erased exactly when the last commit
   promised it.
   */
  lemma SealedRoundTrip(w: Wire, block: seq<byte>, s: Scan)
    requires Lawful(w) && Tracks(w, block, s) && s.tags != [] && s.committed == s.tags && ErasedFrom(block, Size(s.tags))
    ensures Committed(w, block) == s.tags
    ensures var r := ReaderOf(w, block);
            && r.end == Size(s.tags) && r.nextPtag == Link(s.tags)
            && (s.last == None ==> !r.erased)
            && (forall n :: s.last == Some(ErasedWindow(w, n)) && r.end + n <= |block| ==> r.erased)
  {
    SealedStops(w, block, s);
    ForwardExact(w, block);
    ReaderFields(w, block);
    forall n | s.last == Some(ErasedWindow(w, n)) && Size(s.tags) + n <= |block|
      ensures StillErased(w, block, Size(s.tags), s.last)
    {
      WindowErased(w, block, Size(s.tags), n);
    }
  }

  lemma WindowErased(w: Wire, block: seq<byte>, end: nat, n: nat)
    requires ErasedFrom(block, end) && end + n <= |block|
    ensures StillErased(w, block, end, Some(ErasedWindow(w, n)))
  {
    ErasedSlice(block, end, end, n);
  }

  // ---- The entries the writer emits --------------------------------------------------

  const NO_ID: Bits10 := ID_NONE

  function FcrcEntry(w: Wire, prog: nat): Entry {
    var t := Tag(false, 0x5FF, NO_ID, 8);
    Entry(t, t, LeNat(prog) + Le32(ErasedWindow(w, prog).crc))
  }

  lemma FcrcEntryWindow(w: Wire, prog: nat)
    requires prog < U32_RANGE
    ensures WellTagged(FcrcEntry(w, prog)) && !IsCcrc(FcrcEntry(w, prog).tag)
    ensures WindowOf(FcrcEntry(w, prog)) == Some(ErasedWindow(w, prog))
  {
    var body := FcrcEntry(w, prog).body;
    assert body[..4] == LeNat(prog) && body[4..8] == Le32(ErasedWindow(w, prog).crc);
    LeNatRoundTrip(prog);
    Le32RoundTrip(ErasedWindow(w, prog).crc);
  }

  /** Of the chunks a byte can spell, a reader takes those below 0x80 for a commit tag. */
  function CcrcTag(chunk: Bits8, length: Bits10): Tag {
    Tag(false, 0x500 + chunk, NO_ID, length)
  }

  /** The commit tag that fills a block from `off` to `end`: the checksum, then what the buffer held. */
  function CcrcEntry(w: Wire, a: seq<byte>, off: nat, link: Tag, crc: word, chunk: Bits8, end: nat): Entry
    requires chunk < 0x80 && off + 8 <= end <= |a| && end - off - 4 <= 0x3FE
  {
    var t := CcrcTag(chunk, end - off - 4);
    Entry(t, NextPtag(t), w.store(w.check(crc, w.spell(Xor(t, link)))) + a[off + 8..end])
  }

  lemma CcrcBody(w: Wire, a: seq<byte>, off: nat, link: Tag, crc: word, chunk: Bits8, end: nat)
    requires Lawful(w) && chunk < 0x80 && off + 8 <= end <= |a| && end - off - 4 <= 0x3FE
    ensures var e := CcrcEntry(w, a, off, link, crc, chunk, end);
            && WellTagged(e) && IsCcrc(e.tag) && Extent(e) == end - off
            && e.body[..4] == w.store(w.check(crc, w.spell(Xor(e.tag, link))))
  {
    assert StoresWord(w, w.check(crc, w.spell(Xor(CcrcTag(chunk, end - off - 4), link))));
  }

  /** The commit tag verifies against the state it was computed in. */
  lemma CcrcVerifies(w: Wire, s: Scan, e: Entry)
    requires Lawful(w) && IsCcrc(e.tag) && |e.body| >= 4 && e.body[..4] == w.store(w.check(s.crc, w.spell(Xor(e.tag, Link(s.tags)))))
    ensures Absorb(w, s, e) == Some(AfterCommit(s, e))
  {
    assert StoresWord(w, w.check(s.crc, w.spell(Xor(e.tag, Link(s.tags)))));
  }

  // ---- The builder ---------------------------------------------------------------------

  /** Copies `data` into `a` at `off`. */
  method Store(a: array<byte>, off: nat, data: seq<byte>)
    requires off + |data| <= a.Length
    modifies a
    ensures a[..] == Splice(old(a[..]), off, data)
  {
    for i := 0 to |data|
      invariant forall j :: 0 <= j < a.Length ==> a[j] == if off <= j < off + i then data[j - off] else old(a[j])
    {
      a[off + i] := data[i];
    }
  }

  lemma SpliceSlices(a: seq<byte>, b: seq<byte>, off: nat, data: seq<byte>, keep: nat)
    requires off + |data| <= |a| && b == Splice(a, off, data) && keep <= off
    ensures |b| == |a| && b[..keep] == a[..keep] && b[off..off + |data|] == data
    ensures forall i :: off + |data| <= i < |b| ==> b[i] == a[i]
    ensures forall i :: keep <= i < off ==> b[i] == a[i]
  {
    assert forall i :: 0 <= i < off ==> b[i] == a[i];
  }

  /** `b` is `a` with entry `e` written at `off`. */
  ghost predicate Appended(w: Wire, a: seq<byte>, b: seq<byte>, off: nat, link: Tag, e: Entry) {
    && |b| == |a| && Written(w, b, off, link, e) && b[..off] == a[..off]
    && (forall i :: off + Extent(e) <= i < |b| ==> b[i] == a[i])
  }

  lemma AppendedParts(w: Wire, a: seq<byte>, b: seq<byte>, off: nat, link: Tag, e: Entry)
    requires Appended(w, a, b, off, link, e)
    ensures OnlyIn(a, b, off, off + Extent(e)) && off + Extent(e) <= |b| && b[off..off + 4] == w.spell(Xor(e.tag, link))
  {
  }

  lemma TwoSplices(w: Wire, a: seq<byte>, b: seq<byte>, c: seq<byte>, off: nat, link: Tag, e: Entry, head: seq<byte>)
    requires WellTagged(e) && off + Extent(e) <= |a| && |w.spell(Xor(e.tag, link))| == 4
    requires b == Splice(a, off, w.spell(Xor(e.tag, link))) && |head| <= |e.body| && c == Splice(b, off + 4, head)
    requires e.body == head + a[off + 4 + |head|..off + Extent(e)]
    ensures Appended(w, a, c, off, link, e)
  {
    SpliceSlices(a, b, off, w.spell(Xor(e.tag, link)), off);
    SpliceSlices(b, c, off + 4, head, off);
    assert c[off..off + 4] == b[off..off + 4];
    var body := c[off + 4..off + Extent(e)];
    assert body[..|head|] == head;
    assert forall i :: |head| <= i < |body| ==> body[i] == e.body[i];
    assert body == e.body;
  }

  /** Writes the tag word of `e` and the first bytes of its body; the rest of the body is there already. */
  method StoreEntry(w: Wire, buf: array<byte>, off: nat, link: Tag, raw: seq<byte>, head: seq<byte>, ghost e: Entry)
    requires WellTagged(e) && off + Extent(e) <= buf.Length && raw == w.spell(Xor(e.tag, link)) && |raw| == 4
    requires |head| <= |e.body| && e.body == head + buf[off + 4 + |head|..off + Extent(e)]
    modifies buf
    ensures Appended(w, old(buf[..]), buf[..], off, link, e)
  {
    ghost var a := buf[..];
    Store(buf, off, raw);
    ghost var b := buf[..];
    Store(buf, off + 4, head);
    assert buf.Length == |a| && a[off + 4 + |head|..off + Extent(e)] == old(buf[off + 4 + |head|..off + Extent(e)]);
    TwoSplices(w, a, b, buf[..], off, link, e, head);
  }

  /** Writes the commit tag that fills the buffer up to `end`. */
  method StoreCcrc(w: Wire, buf: array<byte>, off: nat, link: Tag, crc: word, chunk: Bits8, end: nat) returns (ghost e: Entry)
    requires Lawful(w) && chunk < 0x80 && off + 8 <= end <= buf.Length && end - off - 4 <= 0x3FE
    modifies buf
    ensures Appended(w, old(buf[..]), buf[..], off, link, e) && e.tag == CcrcTag(chunk, end - off - 4)
    ensures IsCcrc(e.tag) && Extent(e) == end - off
    ensures |e.body| >= 4 && e.body[..4] == w.store(w.check(crc, w.spell(Xor(e.tag, link))))
  {
    var t := CcrcTag(chunk, end - off - 4);
    var raw := w.spell(Xor(t, link));
    assert SpellsTag(w, Xor(t, link));
    var sum := w.check(crc, raw);
    assert StoresWord(w, sum);
    CcrcBody(w, buf[..], off, link, crc, chunk, end);
    e := CcrcEntry(w, buf[..], off, link, crc, chunk, end);
    StoreEntry(w, buf, off, link, raw, w.store(sum), e);
  }

  /** The state after a plain tag, given the checksum over its word. */
  function AfterTag(w: Wire, s: Scan, e: Entry, sum: word): Scan {
    Scan(s.tags + [e], s.committed, w.check(sum, e.body), if WindowOf(e).Some? then WindowOf(e) else s.pending, s.last)
  }

  /** The state after a verified commit tag. */
  function AfterCommit(s: Scan, e: Entry): Scan {
    Scan(s.tags + [e], s.tags + [e], SEED, None, s.pending)
  }

  /** The buffer `a` holds the tags of `s`, up to `off` and leaving `link`. */
  ghost predicate Holds(w: Wire, a: seq<byte>, s: Scan, off: nat, link: Tag) {
    Lawful(w) && Tracks(w, a, s) && off == Size(s.tags) <= |a| && link == Link(s.tags)
  }

  lemma HoldsTag(w: Wire, a: seq<byte>, b: seq<byte>, s: Scan, off: nat, link: Tag, e: Entry, sum: word)
    requires Holds(w, a, s, off, link) && Appended(w, a, b, off, link, e) && !IsCcrc(e.tag)
    requires sum == w.check(s.crc, w.spell(Xor(e.tag, link)))
    ensures Holds(w, b, AfterTag(w, s, e, sum), off + Extent(e), e.link)
  {
    assert Absorb(w, s, e) == Some(AfterTag(w, s, e, sum));
    WrittenTracks(w, a, b, s, e);
    SizeSnoc(s.tags, e);
  }

  lemma HoldsCommit(w: Wire, a: seq<byte>, b: seq<byte>, s: Scan, off: nat, link: Tag, e: Entry)
    requires Holds(w, a, s, off, link) && Appended(w, a, b, off, link, e) && IsCcrc(e.tag)
    requires |e.body| >= 4 && e.body[..4] == w.store(w.check(s.crc, w.spell(Xor(e.tag, link))))
    ensures Holds(w, b, AfterCommit(s, e), off + Extent(e), e.link)
  {
    CcrcVerifies(w, s, e);
    WrittenTracks(w, a, b, s, e);
    SizeSnoc(s.tags, e);
  }

  /** Where `finish_padded` ends a commit whose tags stop at `off`. */
  function SealEnd(off: nat, prog: nat, size: nat): nat
    requires prog > 0
  {
    Ceil(Min(off + 20, size), prog)
  }

  /** Whether `finish_padded` has room for a forward checksum and a window to describe. */
  predicate EmitsFcrc(off: nat, prog: nat, size: nat)
    requires prog > 0
  {
    SealEnd(off, prog, size) >= off + 20 && SealEnd(off, prog, size) + prog <= size
  }

  /** The commit tag fits the buffer and the length field. */
  predicate SealFits(off: nat, end: nat, emit: bool, length: nat) {
    end <= length && end <= off + (if emit then 16 else 4) + 0x3FE
  }

  /** `t` has the tags of `s`, perhaps a forward checksum for `prog` bytes, and a commit tag of this chunk. */
  ghost predicate Sealed(w: Wire, s: Scan, t: Scan, chunk: Bits8, prog: Option<nat>) {
    && |t.tags| > 0 && chunk < 0x80 && t.committed == t.tags
    && t.tags[..|t.tags| - 1] == s.tags + (if prog.Some? then [FcrcEntry(w, prog.value)] else [])
    && t.tags[|t.tags| - 1].tag == CcrcTag(chunk, t.tags[|t.tags| - 1].tag.length)
    && t.last == (if prog.Some? then Some(ErasedWindow(w, prog.value)) else s.pending)
  }

  lemma SealedPlain(w: Wire, s: Scan, e: Entry, chunk: Bits8)
    requires chunk < 0x80 && e.tag == CcrcTag(chunk, e.tag.length)
    ensures Sealed(w, s, AfterCommit(s, e), chunk, None)
  {
    assert (s.tags + [e])[..|s.tags|] == s.tags == s.tags + [];
  }

  lemma SealedFcrc(w: Wire, s: Scan, m: Scan, e: Entry, chunk: Bits8, prog: nat)
    requires chunk < 0x80 && e.tag == CcrcTag(chunk, e.tag.length)
    requires m.tags == s.tags + [FcrcEntry(w, prog)] && m.pending == Some(ErasedWindow(w, prog))
    ensures Sealed(w, s, AfterCommit(m, e), chunk, Some(prog))
  {
    assert (m.tags + [e])[..|m.tags|] == m.tags;
  }

  /** Bytes from `off` on are as they were. */
  ghost predicate KeptFrom(a: seq<byte>, b: seq<byte>, off: nat) {
    |a| == |b| && forall i :: off <= i < |b| ==> b[i] == a[i]
  }

  /** Only bytes from `from` to `off` may have changed. */
  ghost predicate OnlyIn(a: seq<byte>, b: seq<byte>, from: nat, off: nat) {
    KeptFrom(a, b, off) && from <= |a| && b[..from] == a[..from]
  }

  lemma OnlyInTwice(a: seq<byte>, b: seq<byte>, c: seq<byte>, from: nat, mid: nat, off: nat)
    requires OnlyIn(a, b, from, mid) && OnlyIn(b, c, mid, off) && from <= mid <= off
    ensures OnlyIn(a, c, from, off)
  {
    assert c[..from] == c[..mid][..from] == b[..from];
  }

  /** The checksum of `n` erased bytes, fed one at a time. */
  method BlankSum(w: Wire, n: nat) returns (v: word)
    requires Lawful(w)
    ensures v == ErasedWindow(w, n).crc
  {
    v := SEED;
    assert StreamsAt(w.check, v, [], []);
    for i := 0 to n
      invariant v == w.check(SEED, Blank(i))
    {
      assert StreamsAt(w.check, SEED, Blank(i), [ERASED]);
      assert Blank(i) + [ERASED] == Blank(i + 1);
      v := w.check(v, [ERASED]);
    }
  }

  /** Offset and link are those a reader reports for the buffer. */
  ghost predicate AtEnd(wire: Wire, a: seq<byte>, offset: nat, ptag: Tag) {
    |a| >= 4 && offset > 0 && offset == ReaderOf(wire, a).end && ptag == ReaderOf(wire, a).nextPtag
  }

  /** `Commit::new`. */
  method NewCommit(wire: Wire, buf: array<byte>, revision: word) returns (r: Result<Commit>)
    requires Lawful(wire)
    modifies buf
    ensures r == Err(OutOfRange) <==> buf.Length < 8
    ensures r.Err? ==> r.error == OutOfRange && buf[..] == old(buf[..])
    ensures r.Ok? ==> fresh(r.value) && r.value.Valid() && r.value.wire == wire && r.value.buf == buf
    ensures r.Ok? ==> buf[..] == Splice(old(buf[..]), 0, Le32(revision)) && r.value.scan == Start(wire, Le32(revision))
  {
    if buf.Length < 8 {
      return Err(OutOfRange);
    }
    var c := new Commit(wire, buf, revision);
    return Ok(c);
  }

  /** `Commit::new_appending`. */
  method ResumeCommit(wire: Wire, buf: array<byte>, offset: nat, ptag: Tag) returns (r: Result<Commit>)
    requires Lawful(wire)
    ensures r == Err(OutOfRange) <==> buf.Length < offset + 8
    ensures r.Err? ==> r.error == OutOfRange
    ensures r.Ok? ==> fresh(r.value) && r.value.wire == wire && r.value.buf == buf && r.value.offset == offset && r.value.ptag == ptag
    ensures r.Ok? && AtEnd(wire, buf[..], offset, ptag) ==> r.value.Valid() && r.value.scan == Checkpoint(Open(wire, buf[..]))
  {
    if buf.Length < offset + 8 {
      return Err(OutOfRange);
    }
    var c := new Commit.Appending(wire, buf, offset, ptag);
    return Ok(c);
  }

  /** A commit under construction in a block buffer. */
  class Commit {
    const wire: Wire
    const buf: array<byte>
    var offset: nat
    var ptag: Tag
    var crc: word
    /** The reader's state after the tags written so far. */
    ghost var scan: Scan

    ghost predicate Valid()
      reads this, buf
    {
      Holds(wire, buf[..], scan, offset, ptag) && crc == scan.crc
    }

    /** `Commit::new` past its length check, which is `NewCommit`'s. */
    constructor (wire: Wire, buf: array<byte>, revision: word)
      requires Lawful(wire) && buf.Length >= 8
      modifies buf
      ensures Valid() && this.wire == wire && this.buf == buf
      ensures buf[..] == Splice(old(buf[..]), 0, Le32(revision)) && scan == Start(wire, Le32(revision))
    {
      this.wire, this.buf := wire, buf;
      offset, ptag, crc := 4, FIRST_LINK, wire.check(SEED, Le32(revision));
      scan := Start(wire, Le32(revision));
      new;
      Store(buf, 0, Le32(revision));
      assert buf[..][..4] == Le32(revision);
    }

    /** `Commit::new_appending` past its length check, which is `ResumeCommit`'s. */
    constructor Appending(wire: Wire, buf: array<byte>, offset: nat, ptag: Tag)
      requires Lawful(wire) && offset + 8 <= buf.Length
      ensures this.wire == wire && this.buf == buf && this.offset == offset && this.ptag == ptag && crc == SEED
      ensures AtEnd(wire, buf[..], offset, ptag) ==> Valid() && scan == Checkpoint(Open(wire, buf[..]))
    {
      this.wire, this.buf, this.offset, this.ptag, this.crc := wire, buf, offset, ptag, SEED;
      scan := if |buf[..]| >= 4 then Checkpoint(Open(wire, buf[..])) else Scan([], [], SEED, None, None);
      new;
      if AtEnd(wire, buf[..], offset, ptag) {
        ReaderFields(wire, buf[..]);
        OpenTracks(wire, buf[..]);
        TracksCheckpoint(wire, buf[..], Open(wire, buf[..]));
      }
    }

    /** Writes a tag word and what follows it. */
    method WriteRaw(raw: seq<byte>, body: seq<byte>)
      requires offset + 4 + |body| <= buf.Length && |raw| == 4
      modifies buf
      ensures OnlyIn(old(buf[..]), buf[..], offset, offset + 4 + |body|) && buf[offset..offset + 4] == raw
    {
      Store(buf, offset, raw);
      Store(buf, offset + 4, body);
    }

    /**
     `Commit::tag`. A tag with the invalid flag is written like any other, and ends what
     a reader accepts.
     */
    method Append(t: Tag, body: seq<byte>) returns (r: Result<()>)
      requires Valid()
      modifies this, buf
      ensures IsValid(t) || r.Err? ==> Valid()
      ensures r == if IsCcrc(t) || |body| != BodyLen(t) then Err(InvalidTag)
                   else if old(offset) + Dsize(t) > buf.Length then Err(OutOfRange) else Ok(())
      ensures r.Err? ==> unchanged(this) && unchanged(buf)
      ensures r.Ok? ==> offset == old(offset) + Dsize(t) && ptag == t && buf[old(offset)..old(offset) + 4] == wire.spell(Xor(t, old(ptag)))
      ensures r.Ok? ==> OnlyIn(old(buf[..]), buf[..], old(offset), offset)
      ensures r.Ok? && IsValid(t) ==> scan == AfterTag(wire, old(scan), Entry(t, t, body), wire.check(old(crc), wire.spell(Xor(t, old(ptag)))))
      ensures r.Ok? && IsValid(t) ==> Appended(wire, old(buf[..]), buf[..], old(offset), old(ptag), Entry(t, t, body))
    {
      if IsCcrc(t) || |body| != BodyLen(t) {
        return Err(InvalidTag);
      }
      if offset + Dsize(t) > buf.Length {
        return Err(OutOfRange);
      }
      if IsValid(t) {
        ghost var a, off, link := buf[..], offset, ptag;
        AppendValid(t, body);
        AppendedParts(wire, a, buf[..], off, link, Entry(t, t, body));
      } else {
        var raw := wire.spell(Xor(t, ptag));
        assert SpellsTag(wire, Xor(t, ptag));
        WriteRaw(raw, body);
        ptag, crc, offset := t, wire.check(wire.check(crc, raw), body), offset + Dsize(t);
      }
      r := Ok(());
    }

    method AppendValid(t: Tag, body: seq<byte>)
      requires Valid() && IsValid(t) && !IsCcrc(t) && |body| == BodyLen(t) && offset + Dsize(t) <= buf.Length
      modifies this, buf
      ensures Valid() && offset == old(offset) + Dsize(t) && ptag == t
      ensures scan == AfterTag(wire, old(scan), Entry(t, t, body), wire.check(old(crc), wire.spell(Xor(t, old(ptag)))))
      ensures Appended(wire, old(buf[..]), buf[..], old(offset), old(ptag), Entry(t, t, body))
    {
      ghost var e, a := Entry(t, t, body), buf[..];
      var raw := wire.spell(Xor(t, ptag));
      assert SpellsTag(wire, Xor(t, ptag));
      StoreEntry(wire, buf, offset, ptag, raw, body, e);
      var sum := wire.check(crc, raw);
      HoldsTag(wire, a, buf[..], scan, offset, ptag, e, sum);
      assert Extent(e) == Dsize(t) && e.link == t && e.tag == t;
      scan := AfterTag(wire, scan, e, sum);
      ptag, crc, offset := t, wire.check(sum, body), offset + Dsize(t);
    }

    /** The shared end of `finish` and `finish_padded`: a commit tag whose body runs to `end`. */
    method Seal(chunk: Bits8, end: nat) returns (ghost e: Entry)
      requires Valid() && chunk < 0x80 && offset + 8 <= end <= buf.Length && end - offset - 4 <= 0x3FE
      modifies this, buf
      ensures Valid() && offset == end && OnlyIn(old(buf[..]), buf[..], old(offset), end)
      ensures scan == AfterCommit(old(scan), e) && e.tag == CcrcTag(chunk, end - old(offset) - 4)
    {
      ghost var a := buf[..];
      e := StoreCcrc(wire, buf, offset, ptag, crc, chunk, end);
      AppendedParts(wire, a, buf[..], offset, ptag, e);
      HoldsCommit(wire, a, buf[..], scan, offset, ptag, e);
      scan := AfterCommit(scan, e);
      ptag, crc, offset := NextPtag(CcrcTag(chunk, end - offset - 4)), SEED, end;
    }

    /** The same for a chunk that makes the tag none that a reader takes for a commit. */
    method SealForeign(chunk: Bits8, end: nat)
      requires Valid() && offset + 8 <= end <= buf.Length && end - offset - 4 <= 0x3FE
      modifies this, buf
      ensures offset == end && OnlyIn(old(buf[..]), buf[..], old(offset), end) && ptag == NextPtag(CcrcTag(chunk, end - old(offset) - 4))
      ensures buf[old(offset)..old(offset) + 4] == wire.spell(Xor(CcrcTag(chunk, end - old(offset) - 4), old(ptag)))
    {
      var t := CcrcTag(chunk, end - offset - 4);
      var raw := wire.spell(Xor(t, ptag));
      assert SpellsTag(wire, Xor(t, ptag));
      var sum := wire.check(crc, raw);
      assert StoresWord(wire, sum);
      WriteRaw(raw, wire.store(sum));
      ptag, crc, offset := NextPtag(t), SEED, end;
    }

    /** `Commit::finish`: a bare commit tag, no padding and no forward checksum. */
    method Finish(chunk: Bits8) returns (r: Result<()>)
      requires Valid()
      modifies this, buf
      ensures chunk < 0x80 || r.Err? ==> Valid()
      ensures r == if old(offset) + 8 > buf.Length then Err(OutOfRange) else Ok(())
      ensures r.Ok? && chunk < 0x80 ==> Sealed(wire, old(scan), scan, chunk, None)
      ensures r.Ok? ==> offset == old(offset) + 8 && OnlyIn(old(buf[..]), buf[..], old(offset), offset)
      ensures r.Err? ==> unchanged(this) && unchanged(buf)
    {
      if offset + 8 > buf.Length {
        return Err(OutOfRange);
      }
      SealPlain(chunk, offset + 8);
      r := Ok(());
    }

    method SealPlain(chunk: Bits8, end: nat)
      requires Valid() && offset + 8 <= end <= buf.Length && end - offset - 4 <= 0x3FE
      modifies this, buf
      ensures chunk < 0x80 ==> Valid() && Sealed(wire, old(scan), scan, chunk, None)
      ensures offset == end && OnlyIn(old(buf[..]), buf[..], old(offset), end)
    {
      if chunk >= 0x80 {
        SealForeign(chunk, end);
        return;
      }
      ghost var s := scan;
      ghost var e := Seal(chunk, end);
      SealedPlain(wire, s, e, chunk);
    }

    /** Emits the forward checksum over `prog` erased bytes. */
    method EmitFcrc(prog: nat) returns (r: Result<()>)
      requires Valid() && prog < U32_RANGE
      modifies this, buf
      ensures Valid() && r == if old(offset) + 12 > buf.Length then Err(OutOfRange) else Ok(())
      ensures r.Err? ==> unchanged(this) && unchanged(buf)
      ensures r.Ok? ==> scan.tags == old(scan.tags) + [FcrcEntry(wire, prog)] && scan.pending == Some(ErasedWindow(wire, prog))
      ensures r.Ok? ==> offset == old(offset) + 12 && OnlyIn(old(buf[..]), buf[..], old(offset), offset)
    {
      var value := BlankSum(wire, prog);
      FcrcEntryWindow(wire, prog);
      ghost var before, link := buf[..], ptag;
      var e := FcrcEntry(wire, prog);
      r := Append(e.tag, LeNat(prog) + Le32(value));
    }

    /** `Commit::finish_padded`. */
    method FinishPadded(chunk: Bits8, prog: nat, size: nat) returns (r: Result<()>)
      requires Valid() && prog < U32_RANGE
      modifies this, buf
      ensures chunk < 0x80 || r.Err? ==> Valid()
      ensures prog > 0 ==>
                var end, emit := SealEnd(old(offset), prog, size), EmitsFcrc(old(offset), prog, size);
                r == if old(offset) + 8 <= end <= size && SealFits(old(offset), end, emit, buf.Length) then Ok(()) else Err(OutOfRange)
      ensures r.Ok? && prog > 0 ==> offset == SealEnd(old(offset), prog, size) <= size
      ensures r.Ok? ==> OnlyIn(old(buf[..]), buf[..], old(offset), offset)
      ensures r.Ok? && chunk < 0x80 ==> Sealed(wire, old(scan), scan, chunk, if prog > 0 && EmitsFcrc(old(offset), prog, size) then Some(prog) else None)
    {
      if prog == 0 {
        r := Finish(chunk);
        return;
      }
      var end := SealEnd(offset, prog, size);
      if end > size || end < offset + 8 {
        return Err(OutOfRange);
      }
      r := FinishAt(chunk, prog, end, end >= offset + 20 && end + prog <= size);
    }

    /** Emits the forward checksum, if there is to be one, and seals the commit at `end`. */
    method FinishAt(chunk: Bits8, prog: nat, end: nat, emit: bool) returns (r: Result<()>)
      requires Valid() && prog < U32_RANGE && end >= offset + (if emit then 20 else 8)
      modifies this, buf
      ensures chunk < 0x80 || r.Err? ==> Valid()
      ensures r == if SealFits(old(offset), end, emit, buf.Length) then Ok(()) else Err(OutOfRange)
      ensures r.Ok? ==> offset == end && OnlyIn(old(buf[..]), buf[..], old(offset), end)
      ensures r.Ok? && chunk < 0x80 ==> Sealed(wire, old(scan), scan, chunk, if emit then Some(prog) else None)
    {
      if !SealFits(offset, end, emit, buf.Length) {
        // The forward checksum is already written when the commit tag is found not to fit.
        if emit {
          r := EmitFcrc(prog);
        }
        return Err(OutOfRange);
      }
      if emit {
        SealWithFcrc(chunk, prog, end);
      } else {
        SealPlain(chunk, end);
      }
      r := Ok(());
    }

    /** The forward checksum and the commit tag behind it. */
    method SealWithFcrc(chunk: Bits8, prog: nat, end: nat)
      requires Valid() && prog < U32_RANGE && end >= offset + 20 && SealFits(offset, end, true, buf.Length)
      modifies this, buf
      ensures offset == end && OnlyIn(old(buf[..]), buf[..], old(offset), end)
      ensures chunk < 0x80 ==> Valid() && Sealed(wire, old(scan), scan, chunk, Some(prog))
    {
      ghost var s, a, from := scan, buf[..], offset;
      var r := EmitFcrc(prog);
      ghost var m, b, mid := scan, buf[..], offset;
      if chunk >= 0x80 {
        SealForeign(chunk, end);
        OnlyInTwice(a, b, buf[..], from, mid, end);
        return;
      }
      ghost var e := Seal(chunk, end);
      OnlyInTwice(a, b, buf[..], from, mid, end);
      SealedFcrc(wire, s, m, e, chunk, prog);
    }

    /**
     A sealed block over an erased tail parses to the tags written so far, at the
     writer's own offset and link, and reports its window erased exactly when the
     commit carries a forward checksum.
     */
    lemma ReadsBack(s: Scan, chunk: Bits8, prog: Option<nat>)
      requires Valid() && Sealed(wire, s, scan, chunk, prog) && ErasedFrom(buf[..], offset)
      ensures Committed(wire, buf[..]) == scan.tags
      ensures ReaderOf(wire, buf[..]).end == offset && ReaderOf(wire, buf[..]).nextPtag == ptag
      ensures prog.Some? && offset + prog.value <= buf.Length ==> ReaderOf(wire, buf[..]).erased
      ensures prog.None? && s.pending.None? ==> !ReaderOf(wire, buf[..]).erased
    {
      SealedRoundTrip(wire, buf[..], scan);
    }
  }
}
