/**
 The metadata log format (`src/meta.rs`): XOR chained tags behind a revision
 word, cut into commits by checksum tags.
 */
module Log {
  import opened Words
  import opened Tags
  import opened Crc
  import opened Scanner

  /**
   How words lie on disk: the running checksum, the spelling of a tag word in
   four bytes and that of a checksum.
   */
  datatype Wire = Wire(check: Checksum, spell: Tag -> seq<byte>, read: seq<byte> -> Tag, store: word -> seq<byte>, load: seq<byte> -> word)

  ghost predicate SpellsTag(w: Wire, t: Tag) {
    |w.spell(t)| == 4 && w.read(w.spell(t)) == t
  }

  ghost predicate StoresWord(w: Wire, x: word) {
    |w.store(x)| == 4 && w.load(w.store(x)) == x
  }

  ghost predicate SpelledBack(w: Wire, b: seq<byte>) {
    |b| == 4 ==> w.spell(w.read(b)) == b
  }

  /** What the log needs of its wire format: a streaming checksum, and words and their spellings one to one. */
  ghost predicate Lawful(w: Wire) {
    && Streams(w.check)
    && (forall t :: SpellsTag(w, t))
    && (forall b :: SpelledBack(w, b))
    && (forall x :: StoresWord(w, x))
    && w.read(Blank(4)) == FIRST_LINK
  }

  /** The format of `src/tag.rs` and `src/crc.rs`: big endian tags, little endian checksums and the table CRC. */
  function SpellTag(t: Tag): seq<byte> {
    Be32(ToWord(Join(t)))
  }

  function ReadTag(s: seq<byte>): Tag {
    if |s| != 4 then FIRST_LINK else ValueBelow(FromBe32(s)); Split(FromBe32(s) as nat)
  }

  function LoadWord(s: seq<byte>): word {
    if |s| != 4 then 0 else FromLe32(s)
  }

  lemma ValueBelow(w: word)
    ensures w as nat < U32_RANGE
  {
  }

  const LITTLEFS: Wire := Wire(Update, SpellTag, ReadTag, Le32, LoadWord)

  lemma LittlefsLawful()
    ensures Lawful(LITTLEFS)
  {
    UpdateStreams();
    forall t
      ensures SpellsTag(LITTLEFS, t)
    {
      SpellRoundTrip(t);
    }
    forall b
      ensures SpelledBack(LITTLEFS, b)
    {
      if |b| == 4 {
        ReadRoundTrip(b);
      }
    }
    forall x
      ensures StoresWord(LITTLEFS, x)
    {
      Le32RoundTrip(x);
    }
    BlankReads();
  }

  lemma SpellRoundTrip(t: Tag)
    ensures ReadTag(SpellTag(t)) == t
  {
    Be32RoundTrip(ToWord(Join(t)));
    ToWordValue(Join(t));
    SplitJoin(t);
  }

  lemma ReadRoundTrip(b: seq<byte>)
    requires |b| == 4
    ensures SpellTag(ReadTag(b)) == b
  {
    ValueBelow(FromBe32(b));
    JoinSplit(FromBe32(b) as nat);
    WordOfValue(FromBe32(b));
    FromBe32RoundTrip(b);
  }

  /** The chaining of tags field by field is that of their words on disk. */
  lemma SpelledXor(s: Tag, t: Tag)
    ensures FromBe32(SpellTag(Xor(s, t))) == FromBe32(SpellTag(s)) ^ FromBe32(SpellTag(t))
  {
    TagWordsXor(s, t);
    Be32RoundTrip(ToWord(Join(s)));
    Be32RoundTrip(ToWord(Join(t)));
    Be32RoundTrip(ToWord(Join(Xor(s, t))));
  }

  lemma BlankReads()
    ensures ReadTag(Blank(4)) == FIRST_LINK
  {
    var s := Blank(4);
    assert s[0] == 0xFF && s[1] == 0xFF && s[2] == 0xFF && s[3] == 0xFF;
    OnesValue(FromBe32(s));
  }

  lemma OnesValue(w: word)
    requires w == 0xFFFF_FFFF
    ensures w as nat == 0xFFFF_FFFF
  {
  }

  // ---- Decoding ---------------------------------------------------------------------

  /** The entry of decoded tag `t` at `off`, or nothing when the tag or its extent is no entry. */
  function EntryAt(block: seq<byte>, off: nat, t: Tag): (r: Option<Entry>)
    requires off + 4 <= |block|
  {
    if !IsValid(t) || off + Dsize(t) > |block| then None
    else Some(Entry(t, NextPtag(t), block[off + 4..off + Dsize(t)]))
  }

  /** The entry at `off`, or nothing where the log ends. */
  function EntryFrom(w: Wire, block: seq<byte>, off: nat, link: Tag): (r: Option<Entry>)
  {
    if off + 4 > |block| then None else EntryAt(block, off, Xor(w.read(block[off..off + 4]), link))
  }

  function TagAt(w: Wire): Decoder {
    (block: seq<byte>, off: nat, link: Tag) => EntryFrom(w, block, off, link)
  }

  /** An entry as the decoder would return it. */
  predicate WellTagged(e: Entry) {
    IsValid(e.tag) && e.link == NextPtag(e.tag) && |e.body| == BodyLen(e.tag)
  }

  lemma EntryAtExtent(block: seq<byte>, off: nat, t: Tag)
    requires off + 4 <= |block| && EntryAt(block, off, t).Some?
    ensures var e := EntryAt(block, off, t).value;
            WellTagged(e) && e.tag == t && off + Extent(e) <= |block| && e.body == block[off + 4..off + Extent(e)]
  {
    var e := EntryAt(block, off, t).value;
    assert e == Entry(t, NextPtag(t), block[off + 4..off + Dsize(t)]) && |e.body| == Dsize(t) - 4;
  }

  lemma AgreeSlice(a: seq<byte>, b: seq<byte>, n: nat, lo: nat, hi: nat)
    requires lo <= hi <= n <= |a| && n <= |b| && a[..n] == b[..n]
    ensures a[lo..hi] == b[lo..hi]
  {
    assert a[..n][lo..hi] == b[..n][lo..hi];
    assert a[..n][lo..hi] == a[lo..hi] && b[..n][lo..hi] == b[lo..hi];
  }

  lemma EntryAtFrame(a: seq<byte>, b: seq<byte>, off: nat, t: Tag, e: Entry)
    requires off + 4 <= |a| && EntryAt(a, off, t) == Some(e)
    requires off + Extent(e) <= |a| && off + Extent(e) <= |b| && a[..off + Extent(e)] == b[..off + Extent(e)]
    ensures EntryAt(b, off, t) == Some(e)
  {
    EntryAtExtent(a, off, t);
    AgreeSlice(a, b, off + Extent(e), off + 4, off + Extent(e));
  }

  lemma TagAtExtent(w: Wire, block: seq<byte>, off: nat, link: Tag)
    requires EntryFrom(w, block, off, link).Some?
    ensures var e := EntryFrom(w, block, off, link).value;
            && WellTagged(e) && off + Extent(e) <= |block|
            && e.tag == Xor(w.read(block[off..off + 4]), link) && e.body == block[off + 4..off + Extent(e)]
  {
    EntryAtExtent(block, off, Xor(w.read(block[off..off + 4]), link));
  }

  /** The word a decoded tag was read from, as its bytes. */
  lemma RawBytes(w: Wire, block: seq<byte>, off: nat, link: Tag)
    requires Lawful(w) && EntryFrom(w, block, off, link).Some?
    ensures w.spell(Xor(EntryFrom(w, block, off, link).value.tag, link)) == block[off..off + 4]
  {
    XorCancel(w.read(block[off..off + 4]), link);
    assert SpelledBack(w, block[off..off + 4]);
  }

  lemma TagAtFrame(w: Wire, a: seq<byte>, b: seq<byte>, off: nat, link: Tag, end: nat)
    ensures LocalTo(TagAt(w), a, b, off, link, end)
  {
    var r := EntryFrom(w, a, off, link);
    if r.Some? && end == off + Extent(r.value) <= |a| && end <= |b| && a[..end] == b[..end] {
      AgreeSlice(a, b, end, off, off + 4);
      EntryAtFrame(a, b, off, Xor(w.read(a[off..off + 4]), link), r.value);
    }
  }

  lemma TagAtLocal(w: Wire)
    ensures Local(TagAt(w))
  {
    var d := TagAt(w);
    forall a, off: nat, link | d(a, off, link).Some?
      ensures off + Extent(d(a, off, link).value) <= |a|
    {
      TagAtExtent(w, a, off, link);
    }
    forall a, b, off: nat, link, end: nat
      ensures LocalTo(d, a, b, off, link, end)
    {
      TagAtFrame(w, a, b, off, link, end);
    }
  }

  // ---- The reader's step ----------------------------------------------------------

  function WindowOf(e: Entry): Option<Window> {
    if IsFcrc(e.tag) && |e.body| >= 8 then Some(Window(FromLeNat(e.body[..4]), FromLe32(e.body[4..8])))
    else None
  }

  function Start(w: Wire, rev: seq<byte>): Scan {
    Scan([], [], w.check(SEED, rev), None, None)
  }

  /** One more tag; nothing when it is a commit checksum that does not verify. */
  function Absorb(w: Wire, s: Scan, e: Entry): Option<Scan> {
    var crc := w.check(s.crc, w.spell(Xor(e.tag, Link(s.tags))));
    var tags := s.tags + [e];
    if IsCcrc(e.tag) then
      if |e.body| < 4 || w.load(e.body[..4]) != crc then None
      else Some(Scan(tags, tags, SEED, None, s.pending))
    else
      Some(Scan(tags, s.committed, w.check(crc, e.body), if WindowOf(e).Some? then WindowOf(e) else s.pending, s.last))
  }

  function Absorber(w: Wire): Step {
    (s, e) => Absorb(w, s, e)
  }

  lemma AbsorbGrows(w: Wire, s: Scan, e: Entry)
    ensures Absorb(w, s, e).Some? ==> Grows(s, e, Absorb(w, s, e).value)
  {
  }

  lemma AbsorberProper(w: Wire)
    ensures Proper(Absorber(w))
  {
    forall s, e
      ensures Absorb(w, s, e).Some? ==> Grows(s, e, Absorb(w, s, e).value)
    {
      AbsorbGrows(w, s, e);
    }
  }

  /** `s` is the reader's state after some of the tags in `block`. */
  ghost predicate Tracks(w: Wire, block: seq<byte>, s: Scan) {
    |block| >= 4 && Reached(TagAt(w), Absorber(w), Start(w, block[..4]), block, s)
  }

  /** The reader's state at the end of its scan. */
  function Open(w: Wire, block: seq<byte>): Scan
    requires |block| >= 4
  {
    TagAtLocal(w);
    AbsorberProper(w);
    Run(TagAt(w), Absorber(w), block, Start(w, block[..4]))
  }

  lemma OpenTracks(w: Wire, block: seq<byte>)
    requires |block| >= 4
    ensures Tracks(w, block, Open(w, block))
  {
    TagAtLocal(w);
    AbsorberProper(w);
    var start := Start(w, block[..4]);
    RunReached(TagAt(w), Absorber(w), start, block, start);
  }

  lemma TracksFits(w: Wire, block: seq<byte>, s: Scan)
    requires Tracks(w, block, s)
    ensures s.committed <= s.tags && Size(s.committed) <= Size(s.tags) <= |block|
  {
    TagAtLocal(w);
    AbsorberProper(w);
    ReplayCheckpoint(Absorber(w), Start(w, block[..4]), s.tags);
    SpellsFits(TagAt(w), block, s.tags);
    SizeMonotone(s.tags, s.committed);
  }

  lemma TracksFrame(w: Wire, a: seq<byte>, b: seq<byte>, s: Scan)
    requires Tracks(w, a, s) && Size(s.tags) <= |a| && Size(s.tags) <= |b| && a[..Size(s.tags)] == b[..Size(s.tags)]
    ensures Tracks(w, b, s)
  {
    TagAtLocal(w);
    AgreePrefix(a, b, Size(s.tags), 4);
    ReachedFrame(TagAt(w), Absorber(w), Start(w, a[..4]), a, b, s);
  }

  lemma TracksCheckpoint(w: Wire, block: seq<byte>, s: Scan)
    requires Tracks(w, block, s) && s.committed != []
    ensures Tracks(w, block, Checkpoint(s))
  {
    AbsorberProper(w);
    CheckpointReached(TagAt(w), Absorber(w), Start(w, block[..4]), block, s);
  }

  /** Where the next bytes are no tag, the tracked state is the end of the scan. */
  lemma TracksEnd(w: Wire, block: seq<byte>, s: Scan)
    requires Tracks(w, block, s) && TagAt(w)(block, Size(s.tags), Link(s.tags)).None?
    ensures Open(w, block) == s
  {
    TagAtLocal(w);
    AbsorberProper(w);
    RunThrough(TagAt(w), Absorber(w), Start(w, block[..4]), block, s);
  }

  /** Whatever follows a tracked state, the scan passes through it and keeps its commits. */
  lemma TracksPrefix(w: Wire, block: seq<byte>, s: Scan)
    requires Tracks(w, block, s)
    ensures s.committed <= Open(w, block).committed
  {
    TagAtLocal(w);
    AbsorberProper(w);
    TracksFits(w, block, s);
    RunThrough(TagAt(w), Absorber(w), Start(w, block[..4]), block, s);
    RunExtends(TagAt(w), Absorber(w), block, s);
  }

  /**
   A verified commit is never lost: any block that agrees below the committed
   end, whatever follows, still yields every committed tag in its place.
   */
  lemma DurableCommits(w: Wire, a: seq<byte>, b: seq<byte>)
    requires |a| == |b| >= 4
    requires CommittedEnd(Open(w, a)) <= |a| && a[..CommittedEnd(Open(w, a))] == b[..CommittedEnd(Open(w, a))]
    ensures Open(w, a).committed <= Open(w, b).committed
    ensures CommittedEnd(Open(w, a)) <= CommittedEnd(Open(w, b))
  {
    TagAtLocal(w);
    AbsorberProper(w);
    if Open(w, a).committed != [] {
      AgreePrefix(a, b, CommittedEnd(Open(w, a)), 4);
      RunKeepsCommits(TagAt(w), Absorber(w), Start(w, a[..4]), a, b);
    }
  }

  // ---- Forward iteration -------------------------------------------------------------

  /** `iter_tags` on a parsed block: the iterator sees the block up to its committed end. */
  function Committed(w: Wire, block: seq<byte>): seq<Entry>
    requires |block| >= 4
  {
    TagAtLocal(w);
    OpenTracks(w, block);
    TracksFits(w, block, Open(w, block));
    TagsFrom(TagAt(w), block[..CommittedEnd(Open(w, block))], 4, FIRST_LINK)
  }

  /** The forward iterator yields exactly the verified tags, and they fill the committed region. */
  lemma ForwardExact(w: Wire, block: seq<byte>)
    requires |block| >= 4
    ensures Committed(w, block) == Open(w, block).committed
    ensures Committed(w, block) != [] ==> CommittedEnd(Open(w, block)) == Size(Committed(w, block))
  {
    var s := Open(w, block);
    TagAtLocal(w);
    OpenTracks(w, block);
    TracksFits(w, block, s);
    if s.committed != [] {
      TracksCheckpoint(w, block, s);
      TagsFromSpelled(TagAt(w), block, s.committed);
    }
  }
}
