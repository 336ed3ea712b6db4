/**
 What follows a commit (`src/meta.rs`): when the reader takes the next window for
 erased, and what erased bytes behind a commit decode to.
 */
module LogWindows {
  import opened Words
  import opened Tags
  import opened Crc
  import opened CrcChanges
  import opened Grid
  import opened Scanner
  import opened Log
  import opened LogReader
  import opened LogWriter

  /** Without a promise nothing reads as erased. */
  lemma NoPromise(w: Wire, block: seq<byte>)
    requires |block| >= 4 && Open(w, block).last == None
    ensures !ReaderOf(w, block).erased
  {
    ReaderFields(w, block);
  }

  /** With one, the window reads as erased if and only if it is there and its checksum is that of erased bytes. */
  lemma PromiseKept(w: Wire, block: seq<byte>, n: nat)
    requires |block| >= 4 && Open(w, block).last == Some(ErasedWindow(w, n))
    ensures var end := ReaderOf(w, block).end;
            ReaderOf(w, block).erased <==> end + n <= |block| && w.check(SEED, block[end..end + n]) == w.check(SEED, Blank(n))
  {
    ReaderFields(w, block);
  }

  /** One byte is not erased. */
  predicate Touched(window: seq<byte>, i: nat) {
    i < |window| && window[i] != ERASED && forall j :: 0 <= j < |window| && j != i ==> window[j] == ERASED
  }

  lemma TouchedSum(window: seq<byte>, i: nat)
    requires Touched(window, i)
    ensures Update(SEED, window) != Update(SEED, Blank(|window|))
  {
    ChangeDetected(SEED, window, Blank(|window|), i);
  }

  /** In particular, one programmed byte is noticed. */
  lemma TouchedWindow(w: Wire, block: seq<byte>, n: nat, window: seq<byte>, i: nat)
    requires w.check == Update && |block| >= 4 && Open(w, block).last == Some(ErasedWindow(w, n))
    requires ReaderOf(w, block).end + n <= |block| && window == block[ReaderOf(w, block).end..ReaderOf(w, block).end + n] && Touched(window, i)
    ensures !ReaderOf(w, block).erased
  {
    PromiseKept(w, block, n);
    TouchedSum(window, i);
  }

  // ---- Erased bytes behind a commit ------------------------------------------------------

  /** A commit leaves its tag as the link, the valid flag set when its chunk is odd. */
  lemma SealLink(chunk: Bits8, length: Bits10)
    requires chunk < 0x80
    ensures var t := CcrcTag(chunk, length); NextPtag(t) == t.(flag := chunk % 2 == 1)
  {
  }

  /** Behind a commit of an even chunk, erased bytes end the log. */
  lemma EvenSealEnds(w: Wire, block: seq<byte>, off: nat, chunk: Bits8, length: Bits10)
    requires Lawful(w) && ErasedFrom(block, off) && chunk < 0x80 && chunk % 2 == 0
    ensures EntryFrom(w, block, off, NextPtag(CcrcTag(chunk, length))).None?
  {
    SealLink(chunk, length);
    ErasedEndsLog(w, block, off, NextPtag(CcrcTag(chunk, length)));
  }

  /** Behind one of an odd chunk they decode as a tag, if its body has room. */
  lemma OddSealStrays(w: Wire, block: seq<byte>, off: nat, chunk: Bits8, length: Bits10)
    requires Lawful(w) && ErasedFrom(block, off) && chunk < 0x80 && chunk % 2 == 1 && off + 4 + 0x3FF <= |block|
    ensures EntryFrom(w, block, off, NextPtag(CcrcTag(chunk, length))).Some?
  {
    SealLink(chunk, length);
    ErasedEndsLog(w, block, off, NextPtag(CcrcTag(chunk, length)));
  }

  // ---- Where a padded commit ends ----------------------------------------------------------

  /** `end` is the first program boundary at or behind the twenty bytes for both checksums, or the block's end. */
  ghost predicate PadsTo(off: nat, prog: nat, size: nat, end: nat) {
    OnGrid(end, prog) && Min(off + 20, size) <= end < Min(off + 20, size) + prog
  }

  lemma PadsOnce(off: nat, prog: nat, size: nat, end: nat)
    requires prog > 0
    ensures PadsTo(off, prog, size, end) <==> end == SealEnd(off, prog, size)
  {
    var e := SealEnd(off, prog, size);
    if PadsTo(off, prog, size, end) && end != e {
      if end < e {
        GridGap(end, e, prog);
      } else {
        GridGap(e, end, prog);
      }
      assert false;
    }
  }

  /** A forward checksum is written exactly when its twelve bytes and a whole window behind the commit have room. */
  lemma PromisesExactly(off: nat, prog: nat, size: nat, end: nat)
    requires prog > 0 && PadsTo(off, prog, size, end)
    ensures EmitsFcrc(off, prog, size) <==> off + 20 <= end && end + prog <= size
  {
    PadsOnce(off, prog, size, end);
  }

  /** A commit at `off` of a block finds its padding representable. */
  predicate SealsAt(off: nat, prog: nat, size: nat)
    requires prog > 0
  {
    off + 8 <= size ==> SealFits(off, SealEnd(off, prog, size), EmitsFcrc(off, prog, size), size)
  }

  /** With units of at most 1007 bytes the padding always fits its tag's length. */
  lemma ShortUnitsSeal(off: nat, prog: nat, size: nat)
    requires 0 < prog && OnGrid(size, prog) && off >= 4 && (prog <= 1007 || size <= 1030)
    ensures SealsAt(off, prog, size)
  {
    CeilWithin(Min(off + 20, size), size, prog);
  }

  /** With longer ones a commit that ends the block, without a promise, can need 1023 bytes. */
  lemma LongUnitsFail(prog: nat, size: nat)
    requires prog > 1007 && size > 1030 && OnGrid(size, prog)
    ensures size - 1027 >= 4 && !SealsAt(size - 1027, prog, size)
  {
    CeilUnique(size - 1007, size, prog);
  }

  /**
   The padding of a commit is said to be representable with any program unit up to 1018
   bytes. It is for every commit of a block if and only if the unit has at most 1007
   bytes, or the block at most 1030.
   */
  lemma SealsExactly(prog: nat, size: nat)
    requires 0 < prog && OnGrid(size, prog)
    ensures (forall off :: off >= 4 ==> SealsAt(off, prog, size)) <==> prog <= 1007 || size <= 1030
  {
    if prog <= 1007 || size <= 1030 {
      forall off | off >= 4
        ensures SealsAt(off, prog, size)
      {
        ShortUnitsSeal(off, prog, size);
      }
    } else {
      LongUnitsFail(prog, size);
    }
  }
}
