/**
 The metadata reader (`src/meta.rs`): the verifying parse of a block, the tail
 scan, and the choice between the two blocks of a pair.
 */
module LogReader {
  import opened Words
  import opened Tags
  import opened Scanner
  import opened Log

  datatype Reader = Reader(revision: word, end: nat, nextPtag: Tag, tail: Option<BlockPair>, hardTail: bool, erased: bool)

  // ---- The tail ---------------------------------------------------------------------

  function ThreadOf(e: Entry): Option<Thread> {
    if (IsSoftTail(e.tag) || IsHardTail(e.tag)) && |e.body| == 8 then
      Some(Thread(BlockPair(FromLeNat(e.body[..4]), FromLeNat(e.body[4..8])), IsHardTail(e.tag)))
    else None
  }

  /** A null pair ends the thread exactly as no tail tag does. */
  function TailOf(tags: seq<Entry>): (Option<BlockPair>, bool) {
    match Latest(ThreadOf, tags)
    case None => (None, false)
    case Some(t) => if t.pair.IsNull() then (None, false) else (Some(t.pair), t.hard)
  }

  lemma LatestSnoc<T>(f: Entry -> Option<T>, tags: seq<Entry>, e: Entry)
    ensures Latest(f, tags + [e]) == if f(e).Some? then f(e) else Latest(f, tags)
  {
    assert (tags + [e])[..|tags|] == tags;
  }

  /** The forward iterator over `block` has `rest` left at `off` after yielding `passed`. */
  ghost predicate Yielded(d: Decoder, block: seq<byte>, passed: seq<Entry>, off: nat, link: Tag) {
    Local(d) && passed + TagsFrom(d, block, off, link) == TagsFrom(d, block, 4, FIRST_LINK)
  }

  lemma YieldedStep(d: Decoder, block: seq<byte>, passed: seq<Entry>, off: nat, link: Tag, e: Entry)
    requires Yielded(d, block, passed, off, link) && d(block, off, link) == Some(e)
    ensures Yielded(d, block, passed + [e], off + Extent(e), e.link) && off + Extent(e) <= |block|
  {
    TagsFromUnfold(d, block, off, link, e);
    assert passed + ([e] + TagsFrom(d, block, off + Extent(e), e.link)) == (passed + [e]) + TagsFrom(d, block, off + Extent(e), e.link);
  }

  lemma YieldedAll(d: Decoder, block: seq<byte>, passed: seq<Entry>, off: nat, link: Tag)
    requires Yielded(d, block, passed, off, link) && d(block, off, link).None?
    ensures passed == TagsFrom(d, block, 4, FIRST_LINK)
  {
  }

  /** The loop of `scan_for_tail`: what the latest tag the iterator passes says. */
  method FindLatest<T>(d: Decoder, cut: seq<byte>, f: Entry -> Option<T>) returns (latest: Option<T>)
    requires Local(d)
    ensures latest == Latest(f, TagsFrom(d, cut, 4, FIRST_LINK))
  {
    var off: nat, ptag := 4, FIRST_LINK;
    latest := None;
    ghost var passed: seq<Entry> := [];
    while true
      invariant latest == Latest(f, passed)
      invariant Yielded(d, cut, passed, off, ptag)
      decreases |cut| + 4 - off
    {
      var found := d(cut, off, ptag);
      if found.None? {
        YieldedAll(d, cut, passed, off, ptag);
        return;
      }
      var e := found.value;
      YieldedStep(d, cut, passed, off, ptag, e);
      LatestSnoc(f, passed, e);
      if f(e).Some? {
        latest := f(e);
      }
      passed := passed + [e];
      off, ptag := off + Extent(e), e.link;
    }
  }

  /** `scan_for_tail`. */
  method ScanForTail(w: Wire, block: seq<byte>, end: nat) returns (tail: Option<BlockPair>, hard: bool)
    requires end <= |block| && Local(TagAt(w))
    ensures (tail, hard) == TailOf(TagsFrom(TagAt(w), block[..end], 4, FIRST_LINK))
  {
    var latest := FindLatest(TagAt(w), block[..end], ThreadOf);
    if latest.None? || latest.value.pair.IsNull() {
      return None, false;
    }
    return Some(latest.value.pair), latest.value.hard;
  }

  // ---- Parsing ----------------------------------------------------------------------

  /** The window after the committed region still reads as its forward checksum promised. */
  predicate StillErased(w: Wire, block: seq<byte>, end: nat, last: Option<Window>) {
    last.Some? && end + last.value.size <= |block| && w.check(SEED, block[end..end + last.value.size]) == last.value.crc
  }

  /** What the reader reports of a block, from the verified tags. */
  function ReaderOf(w: Wire, block: seq<byte>): Reader
    requires |block| >= 4
  {
    var s := Open(w, block);
    var (tail, hard) := TailOf(s.committed);
    Reader(FromLe32(block[..4]), CommittedEnd(s), Link(s.committed), tail, hard, StillErased(w, block, CommittedEnd(s), s.last))
  }

  lemma ReaderFields(w: Wire, block: seq<byte>)
    requires |block| >= 4
    ensures var s, r := Open(w, block), ReaderOf(w, block);
            r.end == CommittedEnd(s) && r.nextPtag == Link(s.committed) && (r.erased <==> StillErased(w, block, CommittedEnd(s), s.last))
  {
  }

  /** The reader's variables say what the scan state says. */
  ghost predicate Keeps(s: Scan, off: nat, ptag: Tag, crc: word, end: nat, next: Tag, pending: Option<Window>, last: Option<Window>) {
    && off == Size(s.tags) && ptag == Link(s.tags) && crc == s.crc
    && end == CommittedEnd(s) && next == Link(s.committed)
    && pending == s.pending && last == s.last
  }

  /** The scan that is at `s` ends where the whole scan ends. */
  ghost predicate Leads(w: Wire, block: seq<byte>, s: Scan) {
    Local(TagAt(w)) && Proper(Absorber(w)) && |block| >= 4 && Run(TagAt(w), Absorber(w), block, s) == Open(w, block)
  }

  lemma LeadsStep(w: Wire, block: seq<byte>, s: Scan, e: Entry)
    requires Leads(w, block, s) && EntryFrom(w, block, Size(s.tags), Link(s.tags)) == Some(e)
    ensures Absorb(w, s, e).Some? ==> Leads(w, block, Absorb(w, s, e).value)
    ensures Absorb(w, s, e).None? ==> s == Open(w, block)
  {
    SizeSnoc(s.tags, e);
  }

  lemma LeadsEnd(w: Wire, block: seq<byte>, s: Scan)
    requires Leads(w, block, s) && EntryFrom(w, block, Size(s.tags), Link(s.tags)).None?
    ensures s == Open(w, block)
  {
  }

  /** The first pass: the end of the last verified commit, its link and its forward checksum. */
  method ScanLog(w: Wire, block: seq<byte>) returns (end: nat, next: Tag, last: Option<Window>)
    requires Lawful(w) && |block| >= 4
    ensures var s := Open(w, block); end == CommittedEnd(s) && next == Link(s.committed) && last == s.last
  {
    TagAtLocal(w);
    AbsorberProper(w);
    var off: nat, ptag, crc := 4, FIRST_LINK, w.check(SEED, block[..4]);
    end, next, last := 0, FIRST_LINK, None;
    var pending: Option<Window> := None;
    ghost var s := Start(w, block[..4]);
    while true
      invariant Keeps(s, off, ptag, crc, end, next, pending, last)
      invariant Leads(w, block, s)
      decreases |block| + 4 - off
    {
      var found := EntryFrom(w, block, off, ptag);
      if found.None? {
        LeadsEnd(w, block, s);
        return;
      }
      var e := found.value;
      TagAtExtent(w, block, off, ptag);
      LeadsStep(w, block, s, e);
      SizeSnoc(s.tags, e);
      RawBytes(w, block, off, ptag);
      var sum := w.check(crc, block[off..off + 4]);
      off, ptag := off + Extent(e), e.link;
      if IsCcrc(e.tag) {
        if |e.body| < 4 || w.load(e.body[..4]) != sum {
          return;
        }
        end, next, crc := off, e.link, SEED;
        last, pending := pending, None;
      } else {
        crc := w.check(sum, e.body);
        var window := WindowOf(e);
        if window.Some? {
          pending := window;
        }
      }
      s := Absorb(w, s, e).value;
    }
  }

  method CommittedTail(w: Wire, block: seq<byte>, end: nat) returns (tail: Option<BlockPair>, hard: bool)
    requires |block| >= 4 && end == CommittedEnd(Open(w, block))
    ensures (tail, hard) == TailOf(Open(w, block).committed)
  {
    OpenTracks(w, block);
    TracksFits(w, block, Open(w, block));
    TagAtLocal(w);
    ForwardExact(w, block);
    tail, hard := ScanForTail(w, block, end);
  }

  /** `MetadataReader::new`: one pass to the last verified commit, one for the tail. */
  method Parse(w: Wire, block: seq<byte>) returns (r: Result<Reader>)
    requires Lawful(w)
    ensures |block| < 4 <==> r == Err(Corrupt)
    ensures |block| >= 4 ==> r == Ok(ReaderOf(w, block))
  {
    if |block| < 4 {
      return Err(Corrupt);
    }
    var end, next, last := ScanLog(w, block);
    var erased := StillErased(w, block, end, last);
    var tail, hard := CommittedTail(w, block, end);
    r := Ok(Reader(FromLe32(block[..4]), end, next, tail, hard, erased));
  }

  // ---- Pairs ------------------------------------------------------------------------

  /** `rev_scmp(a, b) >= 0`: the signed difference of two revisions is not negative. */
  predicate NotOlder(a: word, b: word) {
    (a - b) & 0x8000_0000 == 0
  }

  /** Which block of a pair is read, and whether the other one holds a commit too. */
  datatype PairReader = PairReader(first: bool, reader: Reader, alternateValid: bool)

  /** `MetadataPair::parse`. */
  function ParsePair(w: Wire, a: seq<byte>, b: seq<byte>): Result<PairReader> {
    if |a| < 4 || |b| < 4 then Err(Corrupt)
    else
      var ra, rb := ReaderOf(w, a), ReaderOf(w, b);
      var first := NotOlder(ra.revision, rb.revision);
      var primary, secondary := if first then ra else rb, if first then rb else ra;
      if primary.end > 0 then Ok(PairReader(first, primary, secondary.end > 0))
      else if secondary.end > 0 then Ok(PairReader(!first, secondary, false))
      else Err(Corrupt)
  }

  /** The successor revision is newer, also across the wrap. */
  lemma SuccessorNewer(r: word)
    ensures NotOlder(r + 1, r) && !NotOlder(r, r + 1) && NotOlder(r, r)
  {
  }

  /** `s` is ahead of `r` by some `k`, modulo the wrap. */
  predicate Ahead(s: word, r: word, k: word) {
    0 < k < 0x8000_0000 && s == r + k
  }

  /** Ahead by less than half the range is newer, whatever the revisions. */
  lemma AheadNewer(s: word, r: word, k: word)
    requires Ahead(s, r, k)
    ensures NotOlder(s, r) && !NotOlder(r, s)
  {
  }

  lemma ReadInOrder(w: Wire, a: seq<byte>, b: seq<byte>, first: bool)
    requires |a| >= 4 && |b| >= 4 && CommittedEnd(Open(w, a)) > 0 && CommittedEnd(Open(w, b)) > 0
    requires first == NotOlder(FromLe32(a[..4]), FromLe32(b[..4]))
    ensures ParsePair(w, a, b) == Ok(PairReader(first, if first then ReaderOf(w, a) else ReaderOf(w, b), true))
  {
  }

  /** With commits in only one block, that block is read at any revision. */
  lemma LoneBlockRead(w: Wire, a: seq<byte>, b: seq<byte>)
    requires |a| >= 4 && |b| >= 4 && CommittedEnd(Open(w, a)) > 0 && CommittedEnd(Open(w, b)) == 0
    ensures ParsePair(w, a, b) == Ok(PairReader(true, ReaderOf(w, a), false))
    ensures ParsePair(w, b, a) == Ok(PairReader(false, ReaderOf(w, a), false))
  {
  }

  /**
   With commits in both, the block whose revision is ahead is read in either
   position, across the wrap, and the other one is known to be valid.
   */
  lemma NewerBlockRead(w: Wire, a: seq<byte>, b: seq<byte>, k: word)
    requires |a| >= 4 && |b| >= 4 && CommittedEnd(Open(w, a)) > 0 && CommittedEnd(Open(w, b)) > 0
    requires Ahead(FromLe32(b[..4]), FromLe32(a[..4]), k)
    ensures ParsePair(w, a, b) == Ok(PairReader(false, ReaderOf(w, b), true))
    ensures ParsePair(w, b, a) == Ok(PairReader(true, ReaderOf(w, b), true))
  {
    AheadNewer(FromLe32(b[..4]), FromLe32(a[..4]), k);
    ReadInOrder(w, a, b, false);
    ReadInOrder(w, b, a, true);
  }

  /** Equal revisions, which no writer leaves: the first block is read. */
  lemma TiedBlockRead(w: Wire, a: seq<byte>, b: seq<byte>)
    requires |a| >= 4 && |b| >= 4 && CommittedEnd(Open(w, a)) > 0 && CommittedEnd(Open(w, b)) > 0
    requires FromLe32(b[..4]) == FromLe32(a[..4])
    ensures ParsePair(w, a, b) == Ok(PairReader(true, ReaderOf(w, a), true))
  {
    SuccessorNewer(FromLe32(a[..4]));
  }

  /** A pair is corrupt if and only if a block is too short for a revision or neither holds a commit. */
  lemma PairCorrupt(w: Wire, a: seq<byte>, b: seq<byte>)
    ensures ParsePair(w, a, b).Err? ==> ParsePair(w, a, b) == Err(Corrupt)
    ensures ParsePair(w, a, b).Err? <==>
              |a| < 4 || |b| < 4 || (CommittedEnd(Open(w, a)) == 0 && CommittedEnd(Open(w, b)) == 0)
  {
  }
}
