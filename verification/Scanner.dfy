/**
 Scanning a chained log.

 A block holds a four byte header and a run of entries; where one entry ends
 the next begins, decoded against a link word its predecessor left. A scan
 absorbs entries until the log ends or a commit fails to verify. Everything
 here holds for any decoder that looks only at the bytes of the entry it
 returns and any step that grows the state one entry at a time; `Log`
 instantiates both with the metadata format of `src/meta.rs`.
 */
module Scanner {
  import opened Words
  import opened Tags

  /** A decoded tag, the XOR base it leaves for its successor, and its body. */
  datatype Entry = Entry(tag: Tag, link: Tag, body: seq<byte>)

  /** Bytes an entry occupies: its tag word and its body. */
  function Extent(e: Entry): nat {
    4 + |e.body|
  }

  /** What a forward checksum promises: the checksum of the next `size` bytes. */
  datatype Window = Window(size: nat, crc: word)

  /**
   The reader's knowledge after the entries `tags`: the entries up to the last
   verified commit, the running checksum, and the forward checksums of the
   commit in progress and of the last verified one.
   */
  datatype Scan = Scan(tags: seq<Entry>, committed: seq<Entry>, crc: word,
                       pending: Option<Window>, last: Option<Window>)

  /** The link of the first entry. */
  const FIRST_LINK: Tag := Tag(true, 0x7FF, 0x3FF, 0x3FF)

  /** The seed of a fresh checksum. */
  const SEED: word := 0xFFFF_FFFF

  /** The offset just past `tags`. */
  function Size(tags: seq<Entry>): (n: nat)
    ensures n >= 4
  {
    if tags == [] then 4 else Size(tags[..|tags| - 1]) + Extent(tags[|tags| - 1])
  }

  /** The link `tags` leave. */
  function Link(tags: seq<Entry>): Tag {
    if tags == [] then FIRST_LINK else tags[|tags| - 1].link
  }

  lemma SizeSnoc(tags: seq<Entry>, e: Entry)
    ensures Size(tags + [e]) == Size(tags) + Extent(e) && Link(tags + [e]) == e.link
  {
    assert (tags + [e])[..|tags|] == tags;
  }

  lemma {:induction false} SizeMonotone(tags: seq<Entry>, prefix: seq<Entry>)
    requires prefix <= tags
    ensures Size(prefix) <= Size(tags)
    decreases |tags|
  {
    if prefix != tags {
      SizeMonotone(tags[..|tags| - 1], prefix);
    } else {
      assert prefix == tags;
    }
  }

  // ---- Entries in a block -------------------------------------------------------------

  /** Decodes the entry of a block at an offset against a link, or finds the log's end there. */
  type Decoder = (seq<byte>, nat, Tag) -> Option<Entry>

  /** An entry decoded from `a` is found in every `b` that holds the same bytes. */
  ghost predicate LocalTo(d: Decoder, a: seq<byte>, b: seq<byte>, off: nat, link: Tag, end: nat) {
    d(a, off, link).Some? && end == off + Extent(d(a, off, link).value) <= |a| && end <= |b| && a[..end] == b[..end]
    ==> d(b, off, link) == d(a, off, link)
  }

  ghost predicate Local(d: Decoder) {
    && (forall a, off: nat, link :: d(a, off, link).Some? ==> off + Extent(d(a, off, link).value) <= |a|)
    && (forall a, b, off: nat, link, end: nat :: LocalTo(d, a, b, off, link, end))
  }

  /** The bytes of `block` after its header spell `tags`. */
  ghost predicate Spells(d: Decoder, block: seq<byte>, tags: seq<Entry>) {
    tags == [] ||
    (var init := tags[..|tags| - 1];
     Spells(d, block, init) && d(block, Size(init), Link(init)) == Some(tags[|tags| - 1]))
  }

  lemma {:induction false} SpellsPrefix(d: Decoder, block: seq<byte>, tags: seq<Entry>, prefix: seq<Entry>)
    requires Spells(d, block, tags) && prefix <= tags
    ensures Spells(d, block, prefix)
    decreases |tags|
  {
    if prefix != tags {
      SpellsPrefix(d, block, tags[..|tags| - 1], prefix);
    }
  }

  lemma SpellsFits(d: Decoder, block: seq<byte>, tags: seq<Entry>)
    requires Local(d) && Spells(d, block, tags) && |block| >= 4
    ensures Size(tags) <= |block|
  {
  }

  lemma AgreePrefix(a: seq<byte>, b: seq<byte>, n: nat, m: nat)
    requires m <= n <= |a| && n <= |b| && a[..n] == b[..n]
    ensures a[..m] == b[..m]
  {
    assert a[..n][..m] == b[..n][..m];
  }

  /** Bytes past the entries do not matter. */
  lemma {:induction false} SpellsFrame(d: Decoder, a: seq<byte>, b: seq<byte>, tags: seq<Entry>)
    requires Local(d) && Spells(d, a, tags)
    requires Size(tags) <= |a| && Size(tags) <= |b| && a[..Size(tags)] == b[..Size(tags)]
    ensures Spells(d, b, tags)
  {
    if tags != [] {
      var init := tags[..|tags| - 1];
      AgreePrefix(a, b, Size(tags), Size(init));
      SpellsFrame(d, a, b, init);
      assert LocalTo(d, a, b, Size(init), Link(init), Size(tags));
    }
  }

  /** The forward iterator from `off` on. */
  function TagsFrom(d: Decoder, block: seq<byte>, off: nat, link: Tag): seq<Entry>
    requires Local(d)
    decreases |block| - off
  {
    match d(block, off, link)
    case None => []
    case Some(e) => [e] + TagsFrom(d, block, off + Extent(e), e.link)
  }

  lemma TagsFromUnfold(d: Decoder, block: seq<byte>, off: nat, link: Tag, e: Entry)
    requires Local(d) && d(block, off, link) == Some(e)
    ensures TagsFrom(d, block, off, link) == [e] + TagsFrom(d, block, off + Extent(e), e.link)
  {
  }

  lemma NoEntryAtEnd(d: Decoder, block: seq<byte>, link: Tag)
    requires Local(d)
    ensures TagsFrom(d, block, |block|, link) == []
  {
  }

  lemma SnocJoin(s: seq<Entry>, rest: seq<Entry>)
    requires s != []
    ensures s[..|s| - 1] + ([s[|s| - 1]] + rest) == s + rest
  {
  }

  /** The iterator passes through the entries a block spells. */
  lemma {:induction false} TagsFromThrough(d: Decoder, block: seq<byte>, tags: seq<Entry>)
    requires Local(d) && Spells(d, block, tags)
    ensures TagsFrom(d, block, 4, FIRST_LINK) == tags + TagsFrom(d, block, Size(tags), Link(tags))
  {
    if tags != [] {
      var init, e := tags[..|tags| - 1], tags[|tags| - 1];
      TagsFromThrough(d, block, init);
      TagsFromUnfold(d, block, Size(init), Link(init), e);
      SnocJoin(tags, TagsFrom(d, block, Size(tags), Link(tags)));
    }
  }

  /** Cut off right after the entries, the block yields exactly them. */
  lemma TagsFromSpelled(d: Decoder, block: seq<byte>, tags: seq<Entry>)
    requires Local(d) && Spells(d, block, tags) && Size(tags) <= |block|
    ensures TagsFrom(d, block[..Size(tags)], 4, FIRST_LINK) == tags
  {
    var cut := block[..Size(tags)];
    SpellsFrame(d, block, cut, tags);
    TagsFromThrough(d, cut, tags);
    NoEntryAtEnd(d, cut, Link(tags));
  }

  // ---- Scanning -----------------------------------------------------------------------

  /** How one entry changes a state; nothing when the log must end before it. */
  type Step = (Scan, Entry) -> Option<Scan>

  /** The state right after the last verified commit. */
  function Checkpoint(s: Scan): Scan {
    Scan(s.committed, s.committed, SEED, None, s.last)
  }

  /** A step adds its entry, and either completes a commit or leaves the last one alone. */
  predicate Grows(s: Scan, e: Entry, t: Scan) {
    && t.tags == s.tags + [e]
    && ((t.committed == t.tags && Checkpoint(t) == t) || (t.committed == s.committed && Checkpoint(t) == Checkpoint(s)))
  }

  ghost predicate Proper(step: Step) {
    forall s, e :: step(s, e).Some? ==> Grows(s, e, step(s, e).value)
  }

  /** The state after exactly `tags`, when every commit in them verifies. */
  function Replay(step: Step, start: Scan, tags: seq<Entry>): Option<Scan> {
    if tags == [] then Some(start)
    else
      match Replay(step, start, tags[..|tags| - 1])
      case None => None
      case Some(s) => step(s, tags[|tags| - 1])
  }

  /** The reader's main loop: absorb entries until the log ends or a commit fails. */
  function Run(d: Decoder, step: Step, block: seq<byte>, s: Scan): Scan
    requires Local(d) && Proper(step)
    decreases |block| - Size(s.tags)
  {
    match d(block, Size(s.tags), Link(s.tags))
    case None => s
    case Some(e) =>
      SizeSnoc(s.tags, e);
      match step(s, e)
      case None => s
      case Some(t) => Run(d, step, block, t)
  }

  /** `s` is the state after some entries that `block` spells. */
  ghost predicate Reached(d: Decoder, step: Step, start: Scan, block: seq<byte>, s: Scan) {
    |block| >= 4 && Replay(step, start, s.tags) == Some(s) && Spells(d, block, s.tags)
  }

  predicate Empty(s: Scan) {
    s.tags == [] && s.committed == []
  }

  lemma ReachedStep(d: Decoder, step: Step, start: Scan, block: seq<byte>, s: Scan, e: Entry)
    requires Proper(step) && Reached(d, step, start, block, s)
    requires d(block, Size(s.tags), Link(s.tags)) == Some(e) && step(s, e).Some?
    ensures Reached(d, step, start, block, step(s, e).value)
  {
    var tags := s.tags + [e];
    assert tags[..|tags| - 1] == s.tags;
  }

  lemma ReachedFrame(d: Decoder, step: Step, start: Scan, a: seq<byte>, b: seq<byte>, s: Scan)
    requires Local(d) && Reached(d, step, start, a, s)
    requires Size(s.tags) <= |a| && Size(s.tags) <= |b| && a[..Size(s.tags)] == b[..Size(s.tags)]
    ensures Reached(d, step, start, b, s)
  {
    SpellsFrame(d, a, b, s.tags);
  }

  lemma {:induction false} ReplayTags(step: Step, start: Scan, tags: seq<Entry>)
    requires Proper(step) && Empty(start)
    ensures Replay(step, start, tags).Some? ==> Replay(step, start, tags).value.tags == tags
  {
    if tags != [] {
      ReplayTags(step, start, tags[..|tags| - 1]);
    }
  }

  /** Replay passes through the last checkpoint. */
  lemma {:induction false} ReplayCheckpoint(step: Step, start: Scan, tags: seq<Entry>)
    requires Proper(step) && Empty(start) && Replay(step, start, tags).Some?
    ensures var s := Replay(step, start, tags).value;
            s.committed <= s.tags == tags && (s.committed != [] ==> Replay(step, start, s.committed) == Some(Checkpoint(s)))
  {
    if tags != [] {
      var init, e := tags[..|tags| - 1], tags[|tags| - 1];
      ReplayCheckpoint(step, start, init);
      assert tags == init + [e];
    }
  }

  lemma {:induction false} RunReached(d: Decoder, step: Step, start: Scan, block: seq<byte>, s: Scan)
    requires Local(d) && Proper(step) && Reached(d, step, start, block, s)
    ensures Reached(d, step, start, block, Run(d, step, block, s))
    decreases |block| - Size(s.tags)
  {
    var e := d(block, Size(s.tags), Link(s.tags));
    if e.Some? && step(s, e.value).Some? {
      SizeSnoc(s.tags, e.value);
      ReachedStep(d, step, start, block, s, e.value);
      RunReached(d, step, start, block, step(s, e.value).value);
    }
  }

  lemma CheckpointReached(d: Decoder, step: Step, start: Scan, block: seq<byte>, s: Scan)
    requires Proper(step) && Empty(start) && Reached(d, step, start, block, s) && s.committed != []
    ensures Reached(d, step, start, block, Checkpoint(s))
  {
    ReplayCheckpoint(step, start, s.tags);
    SpellsPrefix(d, block, s.tags, s.committed);
  }

  /** A run from the start passes through every state the block reaches. */
  lemma {:induction false} RunThrough(d: Decoder, step: Step, start: Scan, block: seq<byte>, s: Scan)
    requires Local(d) && Proper(step) && Empty(start) && Reached(d, step, start, block, s)
    ensures Run(d, step, block, start) == Run(d, step, block, s)
    decreases |s.tags|
  {
    if s.tags != [] {
      var init := s.tags[..|s.tags| - 1];
      ReplayTags(step, start, init);
      RunThrough(d, step, start, block, Replay(step, start, init).value);
      SizeSnoc(init, s.tags[|s.tags| - 1]);
    }
  }

  lemma {:induction false} RunExtends(d: Decoder, step: Step, block: seq<byte>, s: Scan)
    requires Local(d) && Proper(step) && s.committed <= s.tags
    ensures var t := Run(d, step, block, s); s.committed <= t.committed <= t.tags
    decreases |block| - Size(s.tags)
  {
    var e := d(block, Size(s.tags), Link(s.tags));
    if e.Some? && step(s, e.value).Some? {
      SizeSnoc(s.tags, e.value);
      RunExtends(d, step, block, step(s, e.value).value);
    }
  }

  /** The offset just past the last verified commit, zero without one. */
  function CommittedEnd(s: Scan): nat {
    if s.committed == [] then 0 else Size(s.committed)
  }

  /** Whatever follows the committed region, a scan still passes through its last commit. */
  lemma RunKeepsCommits(d: Decoder, step: Step, start: Scan, a: seq<byte>, b: seq<byte>)
    requires Local(d) && Proper(step) && Empty(start) && |a| >= 4 && Reached(d, step, start, a, start)
    requires var s := Run(d, step, a, start);
             s.committed != [] ==>
               Size(s.committed) <= |a| && Size(s.committed) <= |b| && a[..Size(s.committed)] == b[..Size(s.committed)]
    ensures Run(d, step, a, start).committed <= Run(d, step, b, start).committed
    ensures CommittedEnd(Run(d, step, a, start)) <= CommittedEnd(Run(d, step, b, start))
  {
    var s := Run(d, step, a, start);
    if s.committed != [] {
      RunReached(d, step, start, a, start);
      CheckpointReached(d, step, start, a, s);
      var k := Checkpoint(s);
      ReachedFrame(d, step, start, a, b, k);
      RunThrough(d, step, start, b, k);
      RunExtends(d, step, b, k);
      SizeMonotone(Run(d, step, b, start).committed, k.tags);
    }
  }

  // ---- Walking backward -----------------------------------------------------------------

  /** One step back: what is yielded, where it starts, and the tag that ends there. */
  datatype Back<V> = Back(seen: V, off: nat, ntag: Tag)

  type Rewind<!V> = (seq<byte>, nat, Tag) -> Option<Back<V>>

  /** Rewinding the end of an entry yields it and recovers the tag before it, up to `same`. */
  ghost predicate UndoesAt<V>(d: Decoder, r: Rewind<V>, view: Entry -> V, same: (Tag, Tag) -> bool,
                              block: seq<byte>, o: nat, link: Tag, e: Entry, ntag: Tag) {
    d(block, o, link) == Some(e) && o >= 4 && o + Extent(e) <= |block| && same(ntag, e.link)
    ==> (var b := r(block, o + Extent(e), ntag);
         b.Some? && b.value.seen == view(e) && b.value.off == o && same(b.value.ntag, link))
  }

  ghost predicate Undoes<V(!new)>(d: Decoder, r: Rewind<V>, view: Entry -> V, same: (Tag, Tag) -> bool) {
    && (forall block, off: nat, ntag :: r(block, off, ntag).Some? ==> 4 <= r(block, off, ntag).value.off < off)
    && (forall block, o: nat, link, e, ntag :: UndoesAt(d, r, view, same, block, o, link, e, ntag))
  }

  /** The backward iterator from `off` down. */
  function TagsBefore<V>(r: Rewind<V>, block: seq<byte>, off: nat, ntag: Tag): seq<V>
    decreases off
  {
    match r(block, off, ntag)
    case None => []
    case Some(b) => if b.off < off then [b.seen] + TagsBefore(r, block, b.off, b.ntag) else []
  }

  /** `tags` newest first. */
  function Backward<V>(view: Entry -> V, tags: seq<Entry>): seq<V> {
    if tags == [] then [] else [view(tags[|tags| - 1])] + Backward(view, tags[..|tags| - 1])
  }

  lemma {:induction false} BackwardFrom<V(!new)>(d: Decoder, r: Rewind<V>, view: Entry -> V, same: (Tag, Tag) -> bool,
                                                 block: seq<byte>, tags: seq<Entry>, ntag: Tag)
    requires Undoes(d, r, view, same) && Spells(d, block, tags) && Size(tags) <= |block| && same(ntag, Link(tags))
    ensures TagsBefore(r, block, Size(tags), ntag) == Backward(view, tags)
  {
    if tags != [] {
      var init, e := tags[..|tags| - 1], tags[|tags| - 1];
      assert UndoesAt(d, r, view, same, block, Size(init), Link(init), e, ntag);
      BackwardFrom(d, r, view, same, block, init, r(block, Size(tags), ntag).value.ntag);
    }
  }

  lemma {:induction false} BackwardAt<V>(view: Entry -> V, tags: seq<Entry>, i: nat)
    requires i < |tags|
    ensures |Backward(view, tags)| == |tags| && Backward(view, tags)[i] == view(tags[|tags| - 1 - i])
  {
    var init := tags[..|tags| - 1];
    if |init| > 0 {
      BackwardAt(view, init, if i > 0 then i - 1 else 0);
    }
  }
}
