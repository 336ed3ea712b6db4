/**
 The backward tag iterator (`src/meta.rs`), which recovers each tag from the
 one after it without any stored state.
 */
module LogBackward {
  import opened Words
  import opened Tags
  import opened Scanner
  import opened Log

  /** An entry as the backward iterator yields it: the valid flag is masked off. */
  datatype Seen = Seen(tag: Tag, body: seq<byte>)

  function Masked(e: Entry): Seen {
    Seen(e.tag.(flag := false), e.body)
  }

  /** One call of the backward iterator; `ntag` is the tag that ends at `off`. */
  function Previous(w: Wire, block: seq<byte>, off: nat, ntag: Tag): Option<Back<Seen>> {
    if off < 4 + Dsize(ntag) || off > |block| then None
    else
      var o := off - Dsize(ntag);
      Some(Back(Seen(ntag.(flag := false), block[o + 4..off]), o, Xor(w.read(block[o..o + 4]), ntag).(flag := false)))
  }

  function Rewinder(w: Wire): Rewind<Seen> {
    (block: seq<byte>, off: nat, ntag: Tag) => Previous(w, block, off, ntag)
  }

  lemma PreviousUndoes(w: Wire, block: seq<byte>, o: nat, link: Tag, e: Entry, ntag: Tag)
    ensures UndoesAt(TagAt(w), Rewinder(w), Masked, SameFields, block, o, link, e, ntag)
  {
    if EntryFrom(w, block, o, link) == Some(e) && o >= 4 && o + Extent(e) <= |block| && SameFields(ntag, e.link) {
      TagAtExtent(w, block, o, link);
      XorUndo(w.read(block[o..o + 4]), link, ntag);
    }
  }

  /** What `iter_tags_rev` yields on a parsed block. */
  function CommittedRev(w: Wire, block: seq<byte>): seq<Seen>
    requires |block| >= 4
  {
    var s := Open(w, block);
    TagsBefore(Rewinder(w), block, CommittedEnd(s), Link(s.committed))
  }

  /** The backward iterator yields the exact reverse of the forward one, valid flags masked. */
  lemma BackwardExact(w: Wire, block: seq<byte>)
    requires |block| >= 4
    ensures CommittedRev(w, block) == Backward(Masked, Committed(w, block))
  {
    var s := Open(w, block);
    OpenTracks(w, block);
    TracksFits(w, block, s);
    ForwardExact(w, block);
    if s.committed != [] {
      TracksCheckpoint(w, block, s);
      forall block, o: nat, link, e, ntag
        ensures UndoesAt(TagAt(w), Rewinder(w), Masked, SameFields, block, o, link, e, ntag)
      {
        PreviousUndoes(w, block, o, link, e, ntag);
      }
      BackwardFrom(TagAt(w), Rewinder(w), Masked, SameFields, block, s.committed, Link(s.committed));
    }
  }
}
