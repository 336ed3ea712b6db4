/**
 Known answers, from outside the definitions: the byte order of words, the hand-encoded
 tag words of `tests/property_tag.rs`, and the published check value of the checksum.
 */
module Vectors {
  import opened Words
  import opened Tags
  import opened Crc
  import opened Scanner
  import opened Log
  import opened LogWriter
  import opened BlockItems
  import D = Directory

  lemma BytesInOrder()
    ensures Be32(0x0102_0304) == [1, 2, 3, 4] && FromBe32([1, 2, 3, 4]) == 0x0102_0304
    ensures Le32(0x0102_0304) == [4, 3, 2, 1] && FromLe32([4, 3, 2, 1]) == 0x0102_0304
  {
  }

  // ---- Tag words ---------------------------------------------------------------------

  /** The fields and the word are each other's. */
  predicate Spells(flag: bool, t: TagType, id: Bits10, length: Bits10, raw: nat)
    requires Natural(t) && raw < U32_RANGE
  {
    TypeRoundTrip(t);
    var tag := Tag(flag, TypeIntoBits(t), id, length);
    Join(tag) == raw && Split(raw) == tag && TypeFromBits(Split(raw).kind) == t && IsValid(tag) == !flag
  }

  /** Names. */
  lemma NameWords()
    ensures Spells(false, Superblock, 0, 8, 0x0ff0_0008)
    ensures Spells(false, RegularFile, 3, 12, 0x0010_0c0c)
    ensures Spells(false, Directory, 1, 0, 0x0020_0400)
  {
    SplitJoin(Tag(false, TypeIntoBits(Superblock), 0, 8));
    SplitJoin(Tag(false, TypeIntoBits(RegularFile), 3, 12));
    SplitJoin(Tag(false, TypeIntoBits(Directory), 1, 0));
  }

  /** Layouts. */
  lemma StructWords()
    ensures Spells(false, InlineStruct, 0x3ff, 0x10, 0x201f_fc10)
    ensures Spells(false, CtzStruct, 5, 8, 0x2020_1408)
  {
    SplitJoin(Tag(false, TypeIntoBits(InlineStruct), 0x3ff, 0x10));
    SplitJoin(Tag(false, TypeIntoBits(CtzStruct), 5, 8));
  }

  /** Attributes, and a type nobody knows. */
  lemma AttrWords()
    ensures Spells(false, UserAttr(0x42), 4, 2, 0x3420_1002)
    ensures Spells(false, Unknown(4, 0x73), 0, 0, 0x4730_0000)
  {
    SplitJoin(Tag(false, TypeIntoBits(UserAttr(0x42)), 4, 2));
    SplitJoin(Tag(false, TypeIntoBits(Unknown(4, 0x73)), 0, 0));
  }

  /** Splices. */
  lemma SpliceWords()
    ensures Spells(false, Create, 2, 0, 0x4010_0800)
    ensures Spells(false, Delete, 7, 0x3ff, 0x4ff0_1fff)
  {
    SplitJoin(Tag(false, TypeIntoBits(Create), 2, 0));
    SplitJoin(Tag(false, TypeIntoBits(Delete), 7, 0x3ff));
  }

  /** Commits. */
  lemma CommitWords()
    ensures Spells(false, CommitCrc(1), 0x3ff, 4, 0x501f_fc04)
    ensures Spells(false, CommitCrc(4), 0x3ff, 4, 0x504f_fc04)
    ensures Spells(false, ForwardCrc, 0x3ff, 4, 0x5fff_fc04)
  {
    SplitJoin(Tag(false, TypeIntoBits(CommitCrc(1)), 0x3ff, 4));
    SplitJoin(Tag(false, TypeIntoBits(CommitCrc(4)), 0x3ff, 4));
    SplitJoin(Tag(false, TypeIntoBits(ForwardCrc), 0x3ff, 4));
  }

  /** Tails. */
  lemma TailWords()
    ensures Spells(false, SoftTail, 0x3ff, 8, 0x600f_fc08)
    ensures Spells(false, HardTail, 0x3ff, 8, 0x601f_fc08)
  {
    SplitJoin(Tag(false, TypeIntoBits(SoftTail), 0x3ff, 8));
    SplitJoin(Tag(false, TypeIntoBits(HardTail), 0x3ff, 8));
  }

  /** Global state. */
  lemma StateWords()
    ensures Spells(false, MoveState, 0x3ff, 0x10, 0x7fff_fc10)
    ensures Spells(false, RelocateState, 0x3ff, 0x10, 0x7fef_fc10)
  {
    SplitJoin(Tag(false, TypeIntoBits(MoveState), 0x3ff, 0x10));
    SplitJoin(Tag(false, TypeIntoBits(RelocateState), 0x3ff, 0x10));
  }

  /** The flag of an invalid tag. */
  lemma InvalidWord()
    ensures Spells(true, RegularFile, 0, 0, 0x8010_0000)
  {
    SplitJoin(Tag(true, TypeIntoBits(RegularFile), 0, 0));
  }

  // ---- What the words say to a directory -----------------------------------------------------

  /** The item a tag word and its body decode to. */
  function ItemAt(raw: nat, body: seq<byte>): D.Item
    requires raw < U32_RANGE
  {
    D.ItemOf(Split(raw), body)
  }

  /** Its type and fields decide the item. */
  lemma ItemOfWord(t: TagType, id: Bits10, length: Bits10, raw: nat)
    requires Natural(t) && raw < U32_RANGE && raw == Join(Tag(false, TypeIntoBits(t) % 0x800, id, length))
    ensures TypeFromBits(Split(raw).kind) == t && Split(raw).id == id && Split(raw).length == length
  {
    TypeRoundTrip(t);
    SplitJoin(Tag(false, TypeIntoBits(t) % 0x800, id, length));
  }

  lemma NameItems(b: seq<byte>)
    ensures ItemAt(0x0ff0_0008, b) == D.Name(0, D.Super, b)
    ensures ItemAt(0x0010_0c0c, b) == D.Name(3, D.Regular, b)
    ensures ItemAt(0x0020_0400, b) == D.Name(1, D.Folder, b)
  {
    ItemOfWord(Superblock, 0, 8, 0x0ff0_0008);
    ItemOfWord(RegularFile, 3, 12, 0x0010_0c0c);
    ItemOfWord(Directory, 1, 0, 0x0020_0400);
  }

  lemma StructItems(b: seq<byte>)
    ensures ItemAt(0x2000_0808, b) == D.Struct(2, D.Pair, b)
    ensures ItemAt(0x2010_0810, b) == D.Struct(2, D.Inline, b)
    ensures ItemAt(0x2020_1408, b) == D.Struct(5, D.Ctz, b)
  {
    ItemOfWord(DirStruct, 2, 8, 0x2000_0808);
    ItemOfWord(InlineStruct, 2, 0x10, 0x2010_0810);
    ItemOfWord(CtzStruct, 5, 8, 0x2020_1408);
  }

  /** The longest length removes an attribute. */
  lemma AttrItems(b: seq<byte>)
    ensures ItemAt(0x3420_1002, b) == D.Attr(4, 0x42, Some(b))
    ensures ItemAt(0x3420_13ff, b) == D.Attr(4, 0x42, None)
  {
    ItemOfWord(UserAttr(0x42), 4, 2, 0x3420_1002);
    ItemOfWord(UserAttr(0x42), 4, 0x3ff, 0x3420_13ff);
  }

  lemma SpliceItems(b: seq<byte>)
    ensures ItemAt(0x4010_0800, b) == D.Create(2)
    ensures ItemAt(0x4ff0_1fff, b) == D.Delete(7)
  {
    ItemOfWord(Create, 2, 0, 0x4010_0800);
    ItemOfWord(Delete, 7, 0x3ff, 0x4ff0_1fff);
  }

  /** Tails count only at their full length. */
  lemma TailItems(b: seq<byte>)
    ensures |b| == 8 ==> ItemAt(0x600f_fc08, b) == D.Tail(BlockPair(FromLeNat(b[..4]), FromLeNat(b[4..8])), false)
    ensures |b| == 8 ==> ItemAt(0x601f_fc08, b) == D.Tail(BlockPair(FromLeNat(b[..4]), FromLeNat(b[4..8])), true)
    ensures |b| != 8 ==> ItemAt(0x600f_fc08, b) == D.Other && ItemAt(0x601f_fc08, b) == D.Other
  {
    ItemOfWord(SoftTail, 0x3ff, 8, 0x600f_fc08);
    ItemOfWord(HardTail, 0x3ff, 8, 0x601f_fc08);
  }

  /** So does global state. */
  lemma StateItems(b: seq<byte>)
    ensures ItemAt(0x7fff_fc0c, b) == (if |b| == 12 then D.Move(b) else D.Other)
    ensures ItemAt(0x7fef_fc10, b) == (if |b| == 16 then D.Relocate(b) else D.Other)
  {
    ItemOfWord(MoveState, 0x3ff, 12, 0x7fff_fc0c);
    ItemOfWord(RelocateState, 0x3ff, 16, 0x7fef_fc10);
  }

  /** Commit tags say nothing. */
  lemma CommitItems(b: seq<byte>)
    ensures ItemAt(0x500f_fc04, b) == D.Other && ItemAt(0x5fff_fc08, b) == D.Other
  {
    ItemOfWord(CommitCrc(0), 0x3ff, 4, 0x500f_fc04);
    ItemOfWord(ForwardCrc, 0x3ff, 8, 0x5fff_fc08);
  }

  /** On disk a tag word stands big endian, a checksum little endian. */
  lemma WireOrder()
    ensures LITTLEFS.spell(Split(0x2020_1408)) == [0x20, 0x20, 0x14, 0x08]
    ensures LITTLEFS.read([0x20, 0x20, 0x14, 0x08]) == Split(0x2020_1408)
    ensures LITTLEFS.store(0x0102_0304) == [4, 3, 2, 1] && LITTLEFS.load([4, 3, 2, 1]) == 0x0102_0304
    ensures SEED == 0xFFFF_FFFF
  {
    JoinSplit(0x2020_1408);
    ToWordExample(0x2020_1408, 0x2020_1408);
    Be32Example();
    Be32RoundTrip(0x2020_1408);
    BytesInOrder();
  }

  lemma Be32Example()
    ensures Be32(0x2020_1408) == [0x20, 0x20, 0x14, 0x08]
  {
  }

  lemma ToWordExample(n: nat, w: word)
    requires w as nat == n
    ensures ToWord(n) == w
  {
    WordOfValue(w);
  }

  /** A forward checksum's body: the window's size, then its checksum, both little endian. */
  lemma WindowBytes(e: Entry)
    ensures WindowOf(e).Some? <==> e.tag.kind == 0x5FF && |e.body| >= 8
    ensures WindowOf(e).Some? ==> LeNat(WindowOf(e).value.size) == e.body[..4] && Le32(WindowOf(e).value.crc) == e.body[4..8]
  {
    if WindowOf(e).Some? {
      FromLeNatRoundTrip(e.body[..4]);
      FromLe32RoundTrip(e.body[4..8]);
    }
  }

  /** Commit tags are written for no entry, with the length of all that follows them. */
  lemma WrittenCommits()
    ensures Join(CcrcTag(0, 4)) == 0x500f_fc04 && Join(CcrcTag(1, 0x10)) == 0x501f_fc10
    ensures Join(FcrcEntry(LITTLEFS, 16).tag) == 0x5fff_fc08
  {
  }

  /** The word written for an item: its type, its entry and its length. */
  lemma WordOfItem(item: D.Item, kind: nat, id: nat, length: nat)
    requires Encodable(item) && kind == TypeIntoBits(TypeOfItem(item))
    requires id == (if item.Tail? || item.Move? || item.Relocate? then 0x3ff else item.id)
    requires length == (if item.Attr? && item.value.None? then 0x3ff else |BodyOf(item)|)
    ensures Join(TagOf(item)) == 0x10_0000 * kind + 0x400 * id + length
  {
  }

  lemma WrittenEntries(b: seq<byte>)
    requires |b| == 8
    ensures Join(TagOf(D.Create(2))) == 0x4010_0800 && Join(TagOf(D.Delete(7))) == 0x4ff0_1c00
    ensures Join(TagOf(D.Name(3, D.Regular, b))) == 0x0010_0c08 && Join(TagOf(D.Name(1, D.Folder, b))) == 0x0020_0408
  {
    WordOfItem(D.Create(2), 0x401, 2, 0);
    WordOfItem(D.Delete(7), 0x4ff, 7, 0);
    WordOfItem(D.Name(3, D.Regular, b), 0x001, 3, 8);
    WordOfItem(D.Name(1, D.Folder, b), 0x002, 1, 8);
  }

  lemma WrittenStructs(b: seq<byte>)
    requires |b| == 8
    ensures Join(TagOf(D.Struct(2, D.Pair, b))) == 0x2000_0808 && Join(TagOf(D.Struct(2, D.Ctz, b))) == 0x2020_0808
    ensures Join(TagOf(D.Struct(2, D.Inline, b))) == 0x2010_0808
  {
    WordOfItem(D.Struct(2, D.Pair, b), 0x200, 2, 8);
    WordOfItem(D.Struct(2, D.Inline, b), 0x201, 2, 8);
    WordOfItem(D.Struct(2, D.Ctz, b), 0x202, 2, 8);
  }

  lemma WrittenAttrs(b: seq<byte>)
    requires |b| == 8
    ensures Join(TagOf(D.Attr(4, 0x42, Some(b)))) == 0x3420_1008 && Join(TagOf(D.Attr(4, 0x42, None))) == 0x3420_13ff
  {
    WordOfItem(D.Attr(4, 0x42, Some(b)), 0x342, 4, 8);
    WordOfItem(D.Attr(4, 0x42, None), 0x342, 4, 0x3ff);
  }

  /** Tails and global state belong to no entry. */
  lemma WrittenStates(p: BlockPair, m: seq<byte>, l: seq<byte>)
    requires p.a < U32_RANGE && p.b < U32_RANGE && |m| == 12 && |l| == 16
    ensures Join(TagOf(D.Tail(p, false))) == 0x600f_fc08 && Join(TagOf(D.Tail(p, true))) == 0x601f_fc08
    ensures Join(TagOf(D.Move(m))) == 0x7fff_fc0c && Join(TagOf(D.Relocate(l))) == 0x7fef_fc10
  {
    WordOfItem(D.Tail(p, false), 0x600, 0x3ff, 8);
    WordOfItem(D.Tail(p, true), 0x601, 0x3ff, 8);
    WordOfItem(D.Move(m), 0x7ff, 0x3ff, 12);
    WordOfItem(D.Relocate(l), 0x7fe, 0x3ff, 16);
  }

  // ---- The published check value -----------------------------------------------------------

  /** The registers `r` are those of the bytes `s`, one by one. */
  ghost predicate StepsAt(step: (word, byte) -> word, r: seq<word>, s: seq<byte>, i: nat) {
    i < |s| && i + 1 < |r| && step(r[i], s[i]) == r[i + 1]
  }

  lemma {:induction false} FoldsAlong(step: (word, byte) -> word, r: seq<word>, s: seq<byte>)
    requires |r| == |s| + 1 && forall i :: 0 <= i < |s| ==> StepsAt(step, r, s, i)
    ensures Fold(step, r[0], s) == r[|s|]
  {
    if s != [] {
      var init := s[..|s| - 1];
      forall i | 0 <= i < |init|
        ensures StepsAt(step, r[..|s|], init, i)
      {
        assert StepsAt(step, r, s, i);
      }
      FoldsAlong(step, r[..|s|], init);
      assert StepsAt(step, r, s, |s| - 1);
    }
  }

  const DIGITS: seq<byte> := [0x31, 0x32, 0x33, 0x34, 0x35, 0x36, 0x37, 0x38, 0x39]
  const REGISTERS: seq<word> := [0xFFFF_FFFF, 0x7C23_1048, 0xB0AC_BB32, 0x77B7_9C2D, 0x641C_1F5C,
                                 0x340A_C5E3, 0xF68D_2C9E, 0xAFFC_9660, 0x651F_2550, 0x340B_C6D9]

  lemma DigitFed(i: nat)
    requires i < 9
    ensures StepsAt(FoldByte(Nibble), REGISTERS, DIGITS, i)
  {
    if i == 0 {
      assert FoldByteBy(Nibble, 0xFFFF_FFFF, 0x31) == 0x7C23_1048;
    } else if i == 1 {
      assert FoldByteBy(Nibble, 0x7C23_1048, 0x32) == 0xB0AC_BB32;
    } else if i == 2 {
      assert FoldByteBy(Nibble, 0xB0AC_BB32, 0x33) == 0x77B7_9C2D;
    } else if i == 3 {
      assert FoldByteBy(Nibble, 0x77B7_9C2D, 0x34) == 0x641C_1F5C;
    } else if i == 4 {
      assert FoldByteBy(Nibble, 0x641C_1F5C, 0x35) == 0x340A_C5E3;
    } else if i == 5 {
      assert FoldByteBy(Nibble, 0x340A_C5E3, 0x36) == 0xF68D_2C9E;
    } else if i == 6 {
      assert FoldByteBy(Nibble, 0xF68D_2C9E, 0x37) == 0xAFFC_9660;
    } else if i == 7 {
      assert FoldByteBy(Nibble, 0xAFFC_9660, 0x38) == 0x651F_2550;
    } else if i == 8 {
      assert FoldByteBy(Nibble, 0x651F_2550, 0x39) == 0x340B_C6D9;
    }
  }

  /** The register after the nine digits, which the catalogue gives complemented as 0xCBF4_3926. */
  lemma CheckValue()
    ensures Update(SEED, DIGITS) == 0x340B_C6D9
  {
    forall i | 0 <= i < 9
      ensures StepsAt(FoldByte(Nibble), REGISTERS, DIGITS, i)
    {
      DigitFed(i);
    }
    FoldsAlong(FoldByte(Nibble), REGISTERS, DIGITS);
  }

  // ---- Pairs -------------------------------------------------------------------------

  /** A pair is null exactly if one of its addresses is spelled by four erased bytes. */
  lemma NullPairs(s: seq<byte>)
    requires |s| == 8
    ensures BlockPair(FromLeNat(s[..4]), FromLeNat(s[4..8])).IsNull() <==> s[..4] == Blank(4) || s[4..8] == Blank(4)
  {
    NoBlockBytes(s[..4]);
    NoBlockBytes(s[4..8]);
  }
}
