/**
 What the reader accepts (`MetadataReader::new` in `src/meta.rs`), said of the raw
 bytes: the entries it scans are exactly the longest run in which every commit tag
 stores the checksum of all bytes since the commit before it.
 */
module LogChecks {
  import opened Words
  import opened Tags
  import opened Crc
  import opened Scanner
  import opened Log

  /** Where the last commit among `tags` ends, zero without one. */
  function LastSeal(tags: seq<Entry>): nat {
    if tags == [] then 0
    else if IsCcrc(tags[|tags| - 1].tag) then Size(tags)
    else LastSeal(tags[..|tags| - 1])
  }

  lemma {:induction false} LastSealWithin(tags: seq<Entry>)
    ensures LastSeal(tags) <= Size(tags)
  {
    if tags != [] && !IsCcrc(tags[|tags| - 1].tag) {
      LastSealWithin(tags[..|tags| - 1]);
    }
  }

  /** A commit tag behind `tags` stores the checksum of the bytes from the commit before it through its own word. */
  predicate Matches(w: Wire, block: seq<byte>, tags: seq<Entry>, e: Entry) {
    var p, end := LastSeal(tags), Size(tags) + 4;
    |e.body| >= 4 && p <= end <= |block| && w.load(e.body[..4]) == w.check(SEED, block[p..end])
  }

  predicate MatchesAt(w: Wire, block: seq<byte>, tags: seq<Entry>, i: nat)
    requires i < |tags|
  {
    IsCcrc(tags[i].tag) ==> Matches(w, block, tags[..i], tags[i])
  }

  /** Every commit among `tags` has its checksum. */
  predicate AllMatch(w: Wire, block: seq<byte>, tags: seq<Entry>) {
    forall i :: 0 <= i < |tags| ==> MatchesAt(w, block, tags, i)
  }

  lemma AllMatchSnoc(w: Wire, block: seq<byte>, tags: seq<Entry>)
    requires tags != []
    ensures AllMatch(w, block, tags) <==> AllMatch(w, block, tags[..|tags| - 1]) && MatchesAt(w, block, tags, |tags| - 1)
  {
    var init := tags[..|tags| - 1];
    forall i | 0 <= i < |init|
      ensures MatchesAt(w, block, init, i) <==> MatchesAt(w, block, tags, i)
    {
      assert init[..i] == tags[..i];
    }
  }

  /** The running checksum covers the bytes since the last commit. */
  predicate Covers(w: Wire, block: seq<byte>, s: Scan) {
    var p, o := LastSeal(s.tags), Size(s.tags);
    p <= o <= |block| && CommittedEnd(s) == p && s.crc == w.check(SEED, block[p..o])
  }

  /** More bytes fed to a running checksum. */
  lemma CheckOnward(w: Wire, block: seq<byte>, p: nat, o: nat, end: nat, more: seq<byte>)
    requires Lawful(w) && p <= o <= end <= |block| && more == block[o..end]
    ensures w.check(w.check(SEED, block[p..o]), more) == w.check(SEED, block[p..end])
  {
    assert StreamsAt(w.check, SEED, block[p..o], more);
    SliceJoin(block, p, o, end);
  }

  /** The reader's word for an entry is the checksum of the bytes up to and with its tag. */
  lemma WordChecked(w: Wire, block: seq<byte>, s: Scan, e: Entry)
    requires Lawful(w) && Covers(w, block, s) && EntryFrom(w, block, Size(s.tags), Link(s.tags)) == Some(e)
    ensures Size(s.tags) + Extent(e) <= |block| && e.body == block[Size(s.tags) + 4..Size(s.tags) + Extent(e)]
    ensures w.check(s.crc, w.spell(Xor(e.tag, Link(s.tags)))) == w.check(SEED, block[LastSeal(s.tags)..Size(s.tags) + 4])
  {
    var o := Size(s.tags);
    TagAtExtent(w, block, o, Link(s.tags));
    RawBytes(w, block, o, Link(s.tags));
    CheckOnward(w, block, LastSeal(s.tags), o, o + 4, block[o..o + 4]);
  }

  /** One entry is absorbed exactly when it is no commit tag or has its checksum. */
  lemma AbsorbChecks(w: Wire, block: seq<byte>, s: Scan, e: Entry)
    requires Lawful(w) && Covers(w, block, s) && EntryFrom(w, block, Size(s.tags), Link(s.tags)) == Some(e)
    ensures Absorb(w, s, e).Some? <==> (IsCcrc(e.tag) ==> Matches(w, block, s.tags, e))
    ensures Absorb(w, s, e).Some? ==> Absorb(w, s, e).value.tags == s.tags + [e] && Covers(w, block, Absorb(w, s, e).value)
  {
    WordChecked(w, block, s, e);
    AbsorbsBy(w, s, e, w.check(SEED, block[LastSeal(s.tags)..Size(s.tags) + 4]));
    if Absorb(w, s, e).Some? {
      AbsorbCovers(w, block, s, e);
    }
  }

  lemma AbsorbsBy(w: Wire, s: Scan, e: Entry, sum: word)
    requires sum == w.check(s.crc, w.spell(Xor(e.tag, Link(s.tags))))
    ensures Absorb(w, s, e).Some? <==> (IsCcrc(e.tag) ==> |e.body| >= 4 && w.load(e.body[..4]) == sum)
    ensures Absorb(w, s, e).Some? ==>
              var t := Absorb(w, s, e).value;
              && t.tags == s.tags + [e]
              && if IsCcrc(e.tag) then t.committed == t.tags && t.crc == SEED else t.committed == s.committed && t.crc == w.check(sum, e.body)
  {
  }

  lemma AbsorbCovers(w: Wire, block: seq<byte>, s: Scan, e: Entry)
    requires Lawful(w) && Covers(w, block, s) && EntryFrom(w, block, Size(s.tags), Link(s.tags)) == Some(e) && Absorb(w, s, e).Some?
    ensures Covers(w, block, Absorb(w, s, e).value)
  {
    var sum := w.check(SEED, block[LastSeal(s.tags)..Size(s.tags) + 4]);
    WordChecked(w, block, s, e);
    AbsorbsBy(w, s, e, sum);
    CoversAfter(w, block, s, e, Absorb(w, s, e).value, sum);
  }

  lemma CoversAfter(w: Wire, block: seq<byte>, s: Scan, e: Entry, t: Scan, sum: word)
    requires Lawful(w) && Covers(w, block, s) && t.tags == s.tags + [e] && Size(s.tags) + Extent(e) <= |block|
    requires e.body == block[Size(s.tags) + 4..Size(s.tags) + Extent(e)]
    requires sum == w.check(SEED, block[LastSeal(s.tags)..Size(s.tags) + 4])
    requires if IsCcrc(e.tag) then t.committed == t.tags && t.crc == SEED else t.committed == s.committed && t.crc == w.check(sum, e.body)
    ensures Covers(w, block, t)
  {
    SizeSnoc(s.tags, e);
    LastSealSnoc(s.tags, e);
    if IsCcrc(e.tag) {
      EmptyChecked(w, block, Size(t.tags));
    } else {
      CheckOnward(w, block, LastSeal(s.tags), Size(s.tags) + 4, Size(t.tags), e.body);
    }
  }

  lemma LastSealSnoc(tags: seq<Entry>, e: Entry)
    ensures LastSeal(tags + [e]) == if IsCcrc(e.tag) then Size(tags + [e]) else LastSeal(tags)
  {
    assert (tags + [e])[..|tags|] == tags;
  }

  lemma EmptyChecked(w: Wire, block: seq<byte>, end: nat)
    requires Lawful(w) && end <= |block|
    ensures w.check(SEED, block[end..end]) == SEED
  {
    assert StreamsAt(w.check, SEED, [], []) && block[end..end] == [];
  }

  lemma StartCovers(w: Wire, block: seq<byte>)
    requires |block| >= 4
    ensures Covers(w, block, Start(w, block[..4]))
  {
    assert block[0..4] == block[..4];
  }

  /** The replay of `tags` got to `r`, exactly if their commits have their checksums. */
  predicate Checked(w: Wire, block: seq<byte>, tags: seq<Entry>, r: Option<Scan>) {
    (r.Some? <==> AllMatch(w, block, tags)) && (r.Some? ==> r.value.tags == tags && Covers(w, block, r.value))
  }

  lemma CheckedSnoc(w: Wire, block: seq<byte>, tags: seq<Entry>, r: Option<Scan>)
    requires Lawful(w) && tags != [] && Checked(w, block, tags[..|tags| - 1], r)
    requires var init := tags[..|tags| - 1]; EntryFrom(w, block, Size(init), Link(init)) == Some(tags[|tags| - 1])
    ensures Checked(w, block, tags, if r.Some? then Absorb(w, r.value, tags[|tags| - 1]) else None)
  {
    AllMatchSnoc(w, block, tags);
    if r.Some? {
      AbsorbChecks(w, block, r.value, tags[|tags| - 1]);
    }
  }

  /** Replaying entries that the block spells succeeds exactly when their commits have their checksums. */
  lemma {:induction false} ReplayChecks(w: Wire, block: seq<byte>, tags: seq<Entry>)
    requires Lawful(w) && |block| >= 4 && Spells(TagAt(w), block, tags)
    ensures Checked(w, block, tags, Replay(Absorber(w), Start(w, block[..4]), tags))
  {
    if tags != [] {
      ReplayChecks(w, block, tags[..|tags| - 1]);
      CheckedSnoc(w, block, tags, Replay(Absorber(w), Start(w, block[..4]), tags[..|tags| - 1]));
    } else {
      StartCovers(w, block);
    }
  }

  lemma {:induction false} RunGrows(d: Decoder, step: Step, block: seq<byte>, s: Scan)
    requires Local(d) && Proper(step)
    ensures s.tags <= Run(d, step, block, s).tags
    decreases |block| - Size(s.tags)
  {
    var e := d(block, Size(s.tags), Link(s.tags));
    if e.Some? && step(s, e.value).Some? {
      SizeSnoc(s.tags, e.value);
      RunGrows(d, step, block, step(s, e.value).value);
    }
  }

  lemma {:induction false} RunStops(d: Decoder, step: Step, block: seq<byte>, s: Scan)
    requires Local(d) && Proper(step)
    ensures var t := Run(d, step, block, s);
            var e := d(block, Size(t.tags), Link(t.tags));
            e.None? || step(t, e.value).None?
    decreases |block| - Size(s.tags)
  {
    var e := d(block, Size(s.tags), Link(s.tags));
    if e.Some? && step(s, e.value).Some? {
      SizeSnoc(s.tags, e.value);
      RunStops(d, step, block, step(s, e.value).value);
    }
  }

  /** Entries that the block spells and whose commits have their checksums are among those scanned. */
  lemma MatchingRead(w: Wire, block: seq<byte>, tags: seq<Entry>)
    requires Lawful(w) && |block| >= 4 && Spells(TagAt(w), block, tags) && AllMatch(w, block, tags)
    ensures tags <= Open(w, block).tags
  {
    ReplayChecks(w, block, tags);
    var s := Replay(Absorber(w), Start(w, block[..4]), tags).value;
    TagAtLocal(w);
    AbsorberProper(w);
    RunThrough(TagAt(w), Absorber(w), Start(w, block[..4]), block, s);
    RunGrows(TagAt(w), Absorber(w), block, s);
  }

  lemma OpenMatches(w: Wire, block: seq<byte>)
    requires Lawful(w) && |block| >= 4
    ensures Spells(TagAt(w), block, Open(w, block).tags) && AllMatch(w, block, Open(w, block).tags) && Covers(w, block, Open(w, block))
  {
    OpenTracks(w, block);
    ReplayChecks(w, block, Open(w, block).tags);
  }

  lemma AllMatchPrefix(w: Wire, block: seq<byte>, tags: seq<Entry>, prefix: seq<Entry>)
    requires AllMatch(w, block, tags) && prefix <= tags
    ensures AllMatch(w, block, prefix)
  {
    forall i | 0 <= i < |prefix|
      ensures MatchesAt(w, block, prefix, i)
    {
      assert MatchesAt(w, block, tags, i) && prefix[..i] == tags[..i];
    }
  }

  /**
   The reader scans exactly the runs of entries that the block spells and in which
   every commit tag stores the checksum of the bytes since the commit before it.
   */
  lemma ReadsExactly(w: Wire, block: seq<byte>, tags: seq<Entry>)
    requires Lawful(w) && |block| >= 4
    ensures tags <= Open(w, block).tags <==> Spells(TagAt(w), block, tags) && AllMatch(w, block, tags)
  {
    OpenMatches(w, block);
    if tags <= Open(w, block).tags {
      SpellsPrefix(TagAt(w), block, Open(w, block).tags, tags);
      AllMatchPrefix(w, block, Open(w, block).tags, tags);
    }
    if Spells(TagAt(w), block, tags) && AllMatch(w, block, tags) {
      MatchingRead(w, block, tags);
    }
  }

  /** `k` is where the last commit among `tags` ends, in entries. */
  predicate Sealed(tags: seq<Entry>, k: nat) {
    k <= |tags| && (k > 0 ==> IsCcrc(tags[k - 1].tag)) && forall i :: k <= i < |tags| ==> !IsCcrc(tags[i].tag)
  }

  /** What the state of a run says about its last commit: where it ends, and the forward checksum in it. */
  predicate LastCommit(s: Scan) {
    && s.committed <= s.tags && Sealed(s.tags, |s.committed|)
    && s.pending == Latest(WindowOf, s.tags[|s.committed|..])
  }

  lemma AbsorbCommits(w: Wire, s: Scan, e: Entry)
    requires LastCommit(s) && Absorb(w, s, e).Some?
    ensures LastCommit(Absorb(w, s, e).value)
    ensures Absorb(w, s, e).value.last == if IsCcrc(e.tag) then Latest(WindowOf, s.tags[|s.committed|..]) else s.last
  {
    if IsCcrc(e.tag) {
      assert Absorb(w, s, e).value.tags[|s.tags| + 1..] == [];
    } else {
      PendingSnoc(s.tags, |s.committed|, e);
    }
  }

  lemma PendingSnoc(tags: seq<Entry>, k: nat, e: Entry)
    requires k <= |tags|
    ensures Latest(WindowOf, (tags + [e])[k..]) == if WindowOf(e).Some? then WindowOf(e) else Latest(WindowOf, tags[k..])
  {
    var rest := tags[k..] + [e];
    assert (tags + [e])[k..] == rest && rest[..|rest| - 1] == tags[k..];
  }

  /** The promise kept is the last commit's own. */
  predicate Promised(s: Scan) {
    s.last == if s.committed == [] then None else PromiseOf(s.committed)
  }

  lemma PromiseStep(w: Wire, s: Scan, e: Entry)
    requires LastCommit(s) && Promised(s) && Absorb(w, s, e).Some?
    ensures LastCommit(Absorb(w, s, e).value) && Promised(Absorb(w, s, e).value)
  {
    AbsorbCommits(w, s, e);
    if IsCcrc(e.tag) {
      PromiseOfSealed(s.tags, e, |s.committed|);
    }
  }

  lemma {:induction false} ReplayCommits(w: Wire, rev: seq<byte>, tags: seq<Entry>)
    requires Replay(Absorber(w), Start(w, rev), tags).Some?
    ensures LastCommit(Replay(Absorber(w), Start(w, rev), tags).value)
    ensures Promised(Replay(Absorber(w), Start(w, rev), tags).value)
  {
    if tags != [] {
      ReplayCommits(w, rev, tags[..|tags| - 1]);
      PromiseStep(w, Replay(Absorber(w), Start(w, rev), tags[..|tags| - 1]).value, tags[|tags| - 1]);
    } else {
      assert Start(w, rev).tags[0..] == [];
    }
  }

  /** The forward checksum of the commit that ends `tags`: the latest since the commit before. */
  function PromiseOf(tags: seq<Entry>): Option<Window>
    requires tags != []
  {
    Latest(WindowOf, SinceSeal(tags[..|tags| - 1]))
  }

  /** The entries behind the last commit. */
  function SinceSeal(tags: seq<Entry>): seq<Entry> {
    if tags == [] || IsCcrc(tags[|tags| - 1].tag) then [] else SinceSeal(tags[..|tags| - 1]) + [tags[|tags| - 1]]
  }

  lemma PromiseOfSealed(init: seq<Entry>, e: Entry, k: nat)
    requires Sealed(init, k)
    ensures PromiseOf(init + [e]) == Latest(WindowOf, init[k..])
  {
    assert (init + [e])[..|init|] == init;
    SinceSealed(init, k);
  }

  lemma {:induction false} SinceSealed(tags: seq<Entry>, k: nat)
    requires Sealed(tags, k)
    ensures SinceSeal(tags) == tags[k..]
  {
    if k < |tags| {
      var init := tags[..|tags| - 1];
      assert Sealed(init, k);
      SinceSealed(init, k);
      assert tags[k..] == init[k..] + [tags[|tags| - 1]];
    }
  }

  /**
   Of what is scanned, the entries up to the last commit tag are committed; the scan
   ends where the block spells no further entry or the next is a commit tag whose
   checksum differs; and the promise kept is the last commit's own.
   */
  lemma CommitsExactly(w: Wire, block: seq<byte>)
    requires Lawful(w) && |block| >= 4
    ensures var s := Open(w, block);
            && s.committed <= s.tags && Sealed(s.tags, |s.committed|) && CommittedEnd(s) == LastSeal(s.tags)
            && Promised(s)
    ensures var s := Open(w, block);
            var e := EntryFrom(w, block, Size(s.tags), Link(s.tags));
            e.None? || (IsCcrc(e.value.tag) && !Matches(w, block, s.tags, e.value))
  {
    var s := Open(w, block);
    OpenTracks(w, block);
    OpenMatches(w, block);
    ReplayCommits(w, block[..4], s.tags);
    TagAtLocal(w);
    AbsorberProper(w);
    RunStops(TagAt(w), Absorber(w), block, Start(w, block[..4]));
    var e := EntryFrom(w, block, Size(s.tags), Link(s.tags));
    if e.Some? {
      AbsorbChecks(w, block, s, e.value);
    }
  }

  /** A commit tag whose stored word differs is not committed, and nothing behind it is read. */
  lemma TornCommitEnds(w: Wire, block: seq<byte>, tags: seq<Entry>, e: Entry)
    requires Lawful(w) && |block| >= 4 && Spells(TagAt(w), block, tags) && AllMatch(w, block, tags)
    requires EntryFrom(w, block, Size(tags), Link(tags)) == Some(e) && IsCcrc(e.tag) && !Matches(w, block, tags, e)
    ensures Open(w, block).tags == tags && CommittedEnd(Open(w, block)) == LastSeal(tags)
  {
    ReplayChecks(w, block, tags);
    var s := Replay(Absorber(w), Start(w, block[..4]), tags).value;
    AbsorbChecks(w, block, s, e);
    TagAtLocal(w);
    AbsorberProper(w);
    RunThrough(TagAt(w), Absorber(w), Start(w, block[..4]), block, s);
  }
}
