/**
 The 32 bit metadata tag (`src/tag.rs`).

 From the top bit down: the valid flag (1 bit, clear means valid), the type
 (11 bits, of which the low 8 are the chunk), the id (10 bits), the length (10
 bits). The model carries a tag as its four fields; `Join` and `Split` relate
 them to the word.
 */
module Tags {
  import opened Words
  import opened Bits

  type Bits8 = n: nat | n < 0x100
  type Bits10 = n: nat | n < 0x400
  type Bits11 = n: nat | n < 0x800

  datatype TagType =
    | RegularFile | Directory | Superblock
    | FromMove | FromUserAttrs
    | DirStruct | InlineStruct | CtzStruct
    | UserAttr(attr: Bits8)
    | Create | Delete
    | CommitCrc(chunk: Bits8) | ForwardCrc
    | SoftTail | HardTail
    | MoveState | RelocateState
    | Unknown(abstractType: Bits8, code: Bits8)

  /** `TagType::from_bits` on the 11 bit type field. */
  function TypeFromBits(field: Bits11): TagType {
    TypeOf(field / 0x100, field % 0x100)
  }

  function TypeOf(a: Bits8, c: Bits8): TagType {
    if a == 0 && c == 0x01 then RegularFile
    else if a == 0 && c == 0x02 then Directory
    else if a == 0 && c == 0xFF then Superblock
    else if a == 1 && c == 0x01 then FromMove
    else if a == 1 && c == 0x02 then FromUserAttrs
    else if a == 2 && c == 0x00 then DirStruct
    else if a == 2 && c == 0x01 then InlineStruct
    else if a == 2 && c == 0x02 then CtzStruct
    else if a == 3 then UserAttr(c)
    else if a == 4 && c == 0x01 then Create
    else if a == 4 && c == 0xFF then Delete
    else if a == 5 && c < 0x80 then CommitCrc(c)
    else if a == 5 && c == 0xFF then ForwardCrc
    else if a == 6 && c == 0x00 then SoftTail
    else if a == 6 && c == 0x01 then HardTail
    else if a == 7 && c == 0xFF then MoveState
    else if a == 7 && c == 0xFE then RelocateState
    else Unknown(a, c)
  }

  /** The abstract type and chunk of a concrete type. */
  function Code(t: TagType): (Bits8, Bits8) {
    match t
    case RegularFile => (0, 0x01)
    case Directory => (0, 0x02)
    case Superblock => (0, 0xFF)
    case FromMove => (1, 0x01)
    case FromUserAttrs => (1, 0x02)
    case DirStruct => (2, 0x00)
    case InlineStruct => (2, 0x01)
    case CtzStruct => (2, 0x02)
    case UserAttr(c) => (3, c)
    case Create => (4, 0x01)
    case Delete => (4, 0xFF)
    case CommitCrc(c) => (5, c)
    case ForwardCrc => (5, 0xFF)
    case SoftTail => (6, 0x00)
    case HardTail => (6, 0x01)
    case MoveState => (7, 0xFF)
    case RelocateState => (7, 0xFE)
    case Unknown(a, c) => (a, c)
  }

  /** `TagType::into_bits`. */
  function TypeIntoBits(t: TagType): nat {
    0x100 * Code(t).0 + Code(t).1
  }

  /**
   The natural domain of a type: a commit CRC chunk with bit 7 clear, and an
   unknown code that names no known type in three abstract bits.
   */
  predicate Natural(t: TagType) {
    match t
    case CommitCrc(c) => c < 0x80
    case Unknown(a, c) => a < 8 && TypeOf(a, c).Unknown?
    case _ => true
  }

  /** An encoded type fits the type field and decodes to itself exactly on the natural domain. */
  lemma TypeRoundTrip(t: TagType)
    ensures Natural(t) ==> TypeIntoBits(t) < 0x800
    ensures TypeFromBits(TypeIntoBits(t) % 0x800) == t <==> Natural(t)
  {
    var (a, c) := Code(t);
    FieldSplit(a, c);
    CodeRoundTrip(t, a, c, a % 8);
  }

  lemma FieldSplit(a: Bits8, c: Bits8)
    ensures var f := (0x100 * a + c) % 0x800; f / 0x100 == a % 8 && f % 0x100 == c
  {
    var q, r := a / 8, a % 8;
    DivMod800(q, 0x100 * r + c, 0x100 * a + c);
    DivMod100(r, c, 0x100 * r + c);
  }

  lemma DivMod100(q: nat, r: nat, n: nat)
    requires n == 0x100 * q + r && r < 0x100
    ensures n / 0x100 == q && n % 0x100 == r
  {
  }

  lemma DivMod400(q: nat, r: nat, n: nat)
    requires n == 0x400 * q + r && r < 0x400
    ensures n / 0x400 == q && n % 0x400 == r
  {
  }

  lemma DivMod800(q: nat, r: nat, n: nat)
    requires n == 0x800 * q + r && r < 0x800
    ensures n / 0x800 == q && n % 0x800 == r
  {
  }

  lemma Div100000(q: nat, r: nat, n: nat)
    requires n == 0x10_0000 * q + r && r < 0x10_0000
    ensures n / 0x10_0000 == q
  {
  }

  lemma Div80000000(q: nat, r: nat, n: nat)
    requires n == 0x8000_0000 * q + r && r < 0x8000_0000
    ensures n / 0x8000_0000 == q
  {
  }

  lemma CodeRoundTrip(t: TagType, a: Bits8, c: Bits8, low: Bits8)
    requires (a, c) == Code(t) && low < 8 && (a < 8 <==> low == a)
    ensures Natural(t) ==> a < 8
    ensures TypeOf(low, c) == t <==> Natural(t)
  {
    if t.Unknown? && a >= 8 {
      UnknownKeepsCode(low, c);
    } else if t.Unknown? {
      UnknownKeepsCode(a, c);
    } else if !t.CommitCrc? {
      KnownRoundTrip(t);
    }
  }

  lemma UnknownKeepsCode(a: Bits8, c: Bits8)
    ensures TypeOf(a, c).Unknown? ==> TypeOf(a, c) == Unknown(a, c)
  {
  }

  lemma KnownRoundTrip(t: TagType)
    requires !t.Unknown? && !t.CommitCrc?
    ensures Code(t).0 < 8 && TypeOf(Code(t).0, Code(t).1) == t
  {
  }

  // ---- Tags ------------------------------------------------------------------------

  /** A tag by its fields; `flag` is the top bit. */
  datatype Tag = Tag(flag: bool, kind: Bits11, id: Bits10, length: Bits10)

  /** The length field that marks a tag without a body. */
  const LEN_SPECIAL: nat := 0x3FF

  /** The id field of tags that belong to no entry. */
  const ID_NONE: nat := 0x3FF

  predicate IsValid(t: Tag) {
    !t.flag
  }

  /** `body_len`: zero for the special length. */
  function BodyLen(t: Tag): nat {
    if t.length == LEN_SPECIAL then 0 else t.length
  }

  /** `dsize`: the tag word and its body. */
  function Dsize(t: Tag): nat {
    4 + BodyLen(t)
  }

  /** `is_ccrc`: any chunk with bit 7 clear ends a commit. */
  predicate IsCcrc(t: Tag) {
    0x500 <= t.kind < 0x580
  }

  predicate IsFcrc(t: Tag) {
    t.kind == 0x5FF
  }

  predicate IsSoftTail(t: Tag) {
    t.kind == 0x600
  }

  predicate IsHardTail(t: Tag) {
    t.kind == 0x601
  }

  /** The ranges above are exactly the decoded types. */
  lemma KindsExact(t: Tag)
    ensures IsCcrc(t) <==> TypeFromBits(t.kind).CommitCrc?
    ensures IsCcrc(t) ==> t.kind % 2 == TypeFromBits(t.kind).chunk % 2
    ensures IsFcrc(t) <==> TypeFromBits(t.kind) == ForwardCrc
    ensures IsSoftTail(t) <==> TypeFromBits(t.kind) == SoftTail
    ensures IsHardTail(t) <==> TypeFromBits(t.kind) == HardTail
  {
  }

  /** The XOR base after tag `t`: a commit CRC flips the top bit by its chunk's parity. */
  function NextPtag(t: Tag): Tag {
    if IsCcrc(t) && t.kind % 2 == 1 then t.(flag := !t.flag) else t
  }

  /** `Tag::new` with the valid flag, for an encodable type. */
  function NewTag(t: TagType, id: Bits10, length: Bits10): (r: Tag)
    requires Natural(t)
    ensures IsValid(r) && TypeFromBits(r.kind) == t && r.id == id && r.length == length
  {
    TypeRoundTrip(t);
    Tag(false, TypeIntoBits(t), id, length)
  }

  // ---- Tags as words ---------------------------------------------------------------

  /** Exclusive or of the binary digits. */
  function XorNat(a: nat, b: nat): nat {
    if a == 0 && b == 0 then 0 else 2 * XorNat(a / 2, b / 2) + (if a % 2 != b % 2 then 1 else 0)
  }

  lemma {:induction false} XorBound(a: nat, b: nat, k: nat)
    requires a < Pow2(k) && b < Pow2(k)
    ensures XorNat(a, b) < Pow2(k)
  {
    if k > 0 {
      XorBound(a / 2, b / 2, k - 1);
    }
  }

  lemma {:induction false} XorZero(a: nat)
    ensures XorNat(a, 0) == a && XorNat(a, a) == 0
  {
    if a > 0 {
      XorZero(a / 2);
    }
  }

  /** Against all ones, exclusive or is the complement. */
  lemma {:induction false} XorOnes(a: nat, k: nat)
    requires a < Pow2(k)
    ensures XorNat(Pow2(k) - 1, a) == Pow2(k) - 1 - a
  {
    if k > 0 {
      XorOnes(a / 2, k - 1);
    }
  }

  lemma {:induction false} XorCancelNat(a: nat, b: nat)
    ensures XorNat(XorNat(a, b), b) == a
  {
    if a > 0 || b > 0 {
      var h, p := XorNat(a / 2, b / 2), if a % 2 != b % 2 then 1 else 0;
      XorCancelNat(a / 2, b / 2);
      XorDigit(h, p, b, a / 2);
    }
  }

  lemma XorDigit(h: nat, p: nat, b: nat, q: nat)
    requires p < 2 && XorNat(h, b / 2) == q
    ensures XorNat(2 * h + p, b) == 2 * q + (if p != b % 2 then 1 else 0)
  {
    assert (2 * h + p) / 2 == h && (2 * h + p) % 2 == p;
  }

  lemma {:induction false} XorSymmetric(a: nat, b: nat)
    ensures XorNat(a, b) == XorNat(b, a)
  {
    if a > 0 || b > 0 {
      XorSymmetric(a / 2, b / 2);
    }
  }

  /** `a` moved up by `k` binary digits. */
  function Shifted(a: nat, k: nat): nat {
    if k == 0 then a else 2 * Shifted(a, k - 1)
  }

  /** Exclusive or acts on adjacent fields separately. */
  lemma {:induction false} XorFields(a: nat, b: nat, low: nat, low': nat, k: nat)
    requires low < Pow2(k) && low' < Pow2(k)
    ensures XorNat(Shifted(a, k) + low, Shifted(b, k) + low') == Shifted(XorNat(a, b), k) + XorNat(low, low')
    decreases k
  {
    if k > 0 {
      XorFields(a, b, low / 2, low' / 2, k - 1);
      assert (Shifted(a, k) + low) / 2 == Shifted(a, k - 1) + low / 2;
      assert (Shifted(b, k) + low') / 2 == Shifted(b, k - 1) + low' / 2;
    } else {
      XorZero(0);
    }
  }

  /** `Tag::into_bits`. */
  function Join(t: Tag): (n: nat)
    ensures n < U32_RANGE
  {
    (if t.flag then 0x8000_0000 else 0) + 0x10_0000 * t.kind + 0x400 * t.id + t.length
  }

  /** `Tag::from_bits`. */
  function Split(n: nat): Tag
    requires n < U32_RANGE
  {
    Tag(n / 0x8000_0000 == 1, n / 0x10_0000 % 0x800, n / 0x400 % 0x400, n % 0x400)
  }

  lemma SplitJoin(t: Tag)
    ensures Split(Join(t)) == t
  {
    var n, f := Join(t), if t.flag then 1 else 0;
    var k, i: nat := 0x800 * f + t.kind, 0x400 * (0x800 * f + t.kind) + t.id;
    Div80000000(f, 0x10_0000 * t.kind + 0x400 * t.id + t.length, n);
    Div100000(k, 0x400 * t.id + t.length, n);
    DivMod800(f, t.kind, k);
    DivMod400(i, t.length, n);
    DivMod400(k, t.id, i);
  }

  lemma JoinSplit(n: nat)
    requires n < U32_RANGE
    ensures Join(Split(n)) == n
  {
  }

  /** Exclusive or of two tags, field by field. */
  function Xor(s: Tag, t: Tag): Tag {
    XorBound(s.kind, t.kind, 11);
    XorBound(s.id, t.id, 10);
    XorBound(s.length, t.length, 10);
    Tag(s.flag != t.flag, XorNat(s.kind, t.kind), XorNat(s.id, t.id), XorNat(s.length, t.length))
  }

  lemma XorCancel(s: Tag, t: Tag)
    ensures Xor(Xor(s, t), t) == s
  {
    XorCancelNat(s.kind, t.kind);
    XorCancelNat(s.id, t.id);
    XorCancelNat(s.length, t.length);
  }

  lemma ShiftedTen(a: nat)
    ensures Shifted(a, 10) == 0x400 * a && Shifted(a, 11) == 0x800 * a
  {
    assert Shifted(a, 1) == 2 * a;
    assert Shifted(a, 2) == 4 * a;
    assert Shifted(a, 3) == 8 * a;
    assert Shifted(a, 4) == 16 * a;
    assert Shifted(a, 5) == 32 * a;
    assert Shifted(a, 6) == 64 * a;
    assert Shifted(a, 7) == 128 * a;
    assert Shifted(a, 8) == 256 * a;
    assert Shifted(a, 9) == 512 * a;
  }

  lemma XorKinds(f: nat, g: nat, k: Bits11, l: Bits11)
    ensures XorNat(0x800 * f + k, 0x800 * g + l) == 0x800 * XorNat(f, g) + XorNat(k, l)
  {
    XorFields(f, g, k, l, 11);
    ShiftedTen(f);
    ShiftedTen(g);
    ShiftedTen(XorNat(f, g));
  }

  lemma XorTail(k: nat, l: nat, s: Tag, t: Tag)
    ensures XorNat(0x10_0000 * k + 0x400 * s.id + s.length, 0x10_0000 * l + 0x400 * t.id + t.length)
            == 0x10_0000 * XorNat(k, l) + 0x400 * XorNat(s.id, t.id) + XorNat(s.length, t.length)
  {
    XorAt(k, l, s.id, t.id);
    XorAt(0x400 * k + s.id, 0x400 * l + t.id, s.length, t.length);
  }

  lemma XorAt(a: nat, b: nat, low: Bits10, low': Bits10)
    ensures XorNat(0x400 * a + low, 0x400 * b + low') == 0x400 * XorNat(a, b) + XorNat(low, low')
  {
    XorFields(a, b, low, low', 10);
    ShiftedTen(a);
    ShiftedTen(b);
    ShiftedTen(XorNat(a, b));
  }

  lemma XorParts(f: nat, g: nat, k: nat, l: nat, s: Tag, t: Tag)
    requires k == 0x800 * f + s.kind && l == 0x800 * g + t.kind
    ensures XorNat(0x10_0000 * k + 0x400 * s.id + s.length, 0x10_0000 * l + 0x400 * t.id + t.length)
            == 0x10_0000 * (0x800 * XorNat(f, g) + XorNat(s.kind, t.kind)) + 0x400 * XorNat(s.id, t.id) + XorNat(s.length, t.length)
  {
    XorKinds(f, g, s.kind, t.kind);
    XorTail(k, l, s, t);
  }

  lemma FlagXor(a: bool, b: bool)
    ensures XorNat(if a then 1 else 0, if b then 1 else 0) == if a != b then 1 else 0
  {
  }

  lemma JoinParts(t: Tag, f: nat)
    requires f == if t.flag then 1 else 0
    ensures Join(t) == 0x10_0000 * (0x800 * f + t.kind) + 0x400 * t.id + t.length
  {
  }

  /** Field by field is word by word. */
  lemma JoinXor(s: Tag, t: Tag)
    ensures Join(Xor(s, t)) == XorNat(Join(s), Join(t))
  {
    var f, g := if s.flag then 1 else 0, if t.flag then 1 else 0;
    XorParts(f, g, 0x800 * f + s.kind, 0x800 * g + t.kind, s, t);
    FlagXor(s.flag, t.flag);
    JoinParts(s, f);
    JoinParts(t, g);
    JoinParts(Xor(s, t), XorNat(f, g));
  }

  // ---- Digits as bits ----------------------------------------------------------------

  ghost predicate GrowsAt<W>(f: nat -> W, up: (W, bool) -> W, n: nat) {
    f(n) == up(f(n / 2), n % 2 != 0)
  }

  ghost predicate XorsAt<W>(up: (W, bool) -> W, xor: (W, W) -> W, h: W, p: bool, l: W, q: bool) {
    xor(up(h, p), up(l, q)) == up(xor(h, l), p != q)
  }

  lemma XorNatHalves(m: nat, n: nat)
    ensures var x := XorNat(m, n); x / 2 == XorNat(m / 2, n / 2) && (x % 2 != 0) == ((m % 2 != 0) != (n % 2 != 0))
  {
  }

  /** Whatever builds values digit by digit takes the exclusive or of digits to that of values. */
  lemma {:induction false} XorHomomorphic<W(!new)>(f: nat -> W, up: (W, bool) -> W, xor: (W, W) -> W, m: nat, n: nat)
    requires forall k: nat :: GrowsAt(f, up, k)
    requires (forall h, p, l, q :: XorsAt(up, xor, h, p, l, q)) && xor(f(0), f(0)) == f(0)
    ensures f(XorNat(m, n)) == xor(f(m), f(n))
  {
    if m > 0 || n > 0 {
      XorHomomorphic(f, up, xor, m / 2, n / 2);
      XorNatHalves(m, n);
      assert GrowsAt(f, up, m) && GrowsAt(f, up, n) && GrowsAt(f, up, XorNat(m, n));
      assert XorsAt(up, xor, f(m / 2), m % 2 != 0, f(n / 2), n % 2 != 0);
    }
  }

  /** A word moved up by one digit. */
  function Digit(h: word, odd: bool): word {
    if odd then (h << 1) | 1 else h << 1
  }

  lemma OddOdd(h: word, l: word)
    ensures Digit(h, true) ^ Digit(l, true) == Digit(h ^ l, false)
  {
  }

  lemma OddEven(h: word, l: word)
    ensures Digit(h, true) ^ Digit(l, false) == Digit(h ^ l, true)
  {
  }

  lemma EvenOdd(h: word, l: word)
    ensures Digit(h, false) ^ Digit(l, true) == Digit(h ^ l, true)
  {
  }

  lemma EvenEven(h: word, l: word)
    ensures Digit(h, false) ^ Digit(l, false) == Digit(h ^ l, false)
  {
  }

  lemma DigitXor(h: word, p: bool, l: word, q: bool)
    ensures Digit(h, p) ^ Digit(l, q) == Digit(h ^ l, p != q)
  {
    if p {
      if q {
        OddOdd(h, l);
      } else {
        OddEven(h, l);
      }
    } else if q {
      EvenOdd(h, l);
    } else {
      EvenEven(h, l);
    }
  }

  lemma GrowsEven(n: nat)
    requires n % 2 == 0
    ensures ToWord(n) == Digit(ToWord(n / 2), false)
  {
  }

  lemma GrowsOdd(n: nat)
    requires n % 2 == 1
    ensures ToWord(n) == Digit(ToWord(n / 2), true)
  {
  }

  /** `up` appends a digit, and `xor` is the machine's, on these arguments. */
  predicate DigitAt(up: (word, bool) -> word, h: word, odd: bool) {
    up(h, odd) == Digit(h, odd)
  }

  predicate MachineAt(xor: (word, word) -> word, a: word, b: word) {
    xor(a, b) == a ^ b
  }

  lemma WordGrows(up: (word, bool) -> word)
    requires forall h, odd :: DigitAt(up, h, odd)
    ensures forall n: nat :: GrowsAt(ToWord, up, n)
  {
    forall n: nat
      ensures GrowsAt(ToWord, up, n)
    {
      assert DigitAt(up, ToWord(n / 2), n % 2 == 1);
      if n % 2 == 0 {
        GrowsEven(n);
      } else {
        GrowsOdd(n);
      }
    }
  }

  lemma XorsOne(up: (word, bool) -> word, xor: (word, word) -> word, h: word, p: bool, l: word, q: bool)
    requires DigitAt(up, h, p) && DigitAt(up, l, q) && DigitAt(up, h ^ l, p != q)
    requires MachineAt(xor, h, l) && MachineAt(xor, Digit(h, p), Digit(l, q))
    ensures XorsAt(up, xor, h, p, l, q)
  {
    DigitXor(h, p, l, q);
  }

  lemma WordXorsAt(up: (word, bool) -> word, xor: (word, word) -> word, h: word, p: bool, l: word, q: bool)
    requires (forall h, odd :: DigitAt(up, h, odd)) && forall a, b :: MachineAt(xor, a, b)
    ensures XorsAt(up, xor, h, p, l, q)
  {
    XorsOne(up, xor, h, p, l, q);
  }

  lemma WordXors(up: (word, bool) -> word, xor: (word, word) -> word)
    requires (forall h, odd :: DigitAt(up, h, odd)) && forall a, b :: MachineAt(xor, a, b)
    ensures forall h, p, l, q :: XorsAt(up, xor, h, p, l, q)
  {
    forall h, p, l, q
      ensures XorsAt(up, xor, h, p, l, q)
    {
      WordXorsAt(up, xor, h, p, l, q);
    }
  }

  lemma XorZeroWord()
    ensures ToWord(0) ^ ToWord(0) == ToWord(0)
  {
  }

  /** The exclusive or of digits is the machine's, on words. */
  lemma ToWordXor(m: nat, n: nat)
    ensures ToWord(XorNat(m, n)) == ToWord(m) ^ ToWord(n)
  {
    var xor := (a: word, b: word) => a ^ b;
    WordGrows(Digit);
    WordXors(Digit, xor);
    XorZeroWord();
    XorHomomorphic(ToWord, Digit, xor, m, n);
  }

  /** XORing two tags is XORing their words. */
  lemma TagWordsXor(s: Tag, t: Tag)
    ensures ToWord(Join(Xor(s, t))) == ToWord(Join(s)) ^ ToWord(Join(t))
  {
    JoinXor(s, t);
    ToWordXor(Join(s), Join(t));
  }

  /** Two tags that differ at most in the valid flag. */
  predicate SameFields(s: Tag, t: Tag) {
    s.(flag := false) == t.(flag := false)
  }

  /** From the raw word and a tag known up to its flag, the tag before it is recovered up to its flag. */
  lemma XorUndo(raw: Tag, link: Tag, ntag: Tag)
    requires SameFields(ntag, Xor(raw, link))
    ensures SameFields(Xor(raw, ntag), link)
  {
    XorUndoNat(raw.kind, link.kind);
    XorUndoNat(raw.id, link.id);
    XorUndoNat(raw.length, link.length);
  }

  lemma XorUndoNat(a: nat, b: nat)
    ensures XorNat(a, XorNat(a, b)) == b
  {
    XorSymmetric(a, b);
    XorSymmetric(a, XorNat(a, b));
    XorCancelNat(b, a);
  }
}
