/**
 The running CRC-32 of the metadata log (`src/crc.rs`): reflected polynomial
 `0xEDB88320`, no final complement.
 */
module Crc {
  import opened Words

  const POLYNOMIAL: word := 0xEDB8_8320

  /** The nibble table. */
  function Nibble(i: word): word {
    if i == 0 then 0x0000_0000
    else if i == 1 then 0x1DB7_1064
    else if i == 2 then 0x3B6E_20C8
    else if i == 3 then 0x26D9_30AC
    else if i == 4 then 0x76DC_4190
    else if i == 5 then 0x6B6B_51F4
    else if i == 6 then 0x4DB2_6158
    else if i == 7 then 0x5005_713C
    else if i == 8 then 0xEDB8_8320
    else if i == 9 then 0xF00F_9344
    else if i == 10 then 0xD6D6_A3E8
    else if i == 11 then 0xCB61_B38C
    else if i == 12 then 0x9B64_C2B0
    else if i == 13 then 0x86D3_D2D4
    else if i == 14 then 0xA00A_E278
    else 0xBDBD_F21C
  }

  /** Folds the low four bits of `x` into the register. */
  function FoldNibble(table: word -> word, crc: word, x: word): word {
    (crc >> 4) ^ table((crc ^ x) & 0xF)
  }

  /** One byte, low nibble first. */
  function FoldByteBy(table: word -> word, crc: word, b: byte): word {
    FoldNibble(table, FoldNibble(table, crc, b as word), (b as word) >> 4)
  }

  function FoldByte(table: word -> word): (word, byte) -> word {
    (crc, b) => FoldByteBy(table, crc, b)
  }

  /** Runs a register over the bytes of `s`, first byte first. */
  function Fold(step: (word, byte) -> word, crc: word, s: seq<byte>): word {
    if s == [] then crc else step(Fold(step, crc, s[..|s| - 1]), s[|s| - 1])
  }

  /** `update`. */
  function Update(crc: word, s: seq<byte>): word {
    Fold(FoldByte(Nibble), crc, s)
  }

  /** A checksum, and what the log needs of one: it can be fed piece by piece. */
  type Checksum = (word, seq<byte>) -> word

  ghost predicate StreamsAt(c: Checksum, w: word, a: seq<byte>, b: seq<byte>) {
    c(w, []) == w && c(c(w, a), b) == c(w, a + b)
  }

  ghost predicate Streams(c: Checksum) {
    forall w, a, b :: StreamsAt(c, w, a, b)
  }

  lemma {:induction false} FoldConcat(step: (word, byte) -> word, crc: word, a: seq<byte>, b: seq<byte>)
    ensures Fold(step, Fold(step, crc, a), b) == Fold(step, crc, a + b)
  {
    if b == [] {
      assert a + b == a;
    } else {
      FoldConcat(step, crc, a, b[..|b| - 1]);
      assert (a + b)[..|a + b| - 1] == a + b[..|b| - 1];
    }
  }

  /** Feeding two pieces in turn is feeding their concatenation. */
  lemma UpdateStreams()
    ensures Streams(Update)
  {
    forall w, a, b
      ensures StreamsAt(Update, w, a, b)
    {
      FoldConcat(FoldByte(Nibble), w, a, b);
    }
  }

  // ---- The bitwise reference --------------------------------------------------

  /** One step of the shift register. */
  function Shift(crc: word): word {
    (crc >> 1) ^ (if crc & 1 == 1 then POLYNOMIAL else 0)
  }

  function Shifts(crc: word, n: nat): word
    decreases n
  {
    if n == 0 then crc else Shifts(Shift(crc), n - 1)
  }

  function ShiftByteBy(bits: nat, crc: word, b: byte): word {
    Shifts(crc ^ (b as word), bits)
  }

  function ShiftByte(bits: nat): (word, byte) -> word {
    (crc, b) => ShiftByteBy(bits, crc, b)
  }

  /** `update_bitwise`. */
  function UpdateBitwise(crc: word, s: seq<byte>): word {
    Fold(ShiftByte(8), crc, s)
  }

  /** The table holds the effect of `k` register steps on each nibble. */
  ghost predicate Tabulates(table: word -> word, k: nat) {
    forall w :: Shifts(w, k) == (w >> 4) ^ table(w & 0xF)
  }

  /** Two steps at once, by the two bits they shift out. */
  function Pair(low: word): word {
    (if low & 1 == 1 then POLYNOMIAL >> 1 else 0) ^ (if low & 2 == 2 then POLYNOMIAL else 0)
  }

  lemma TwoShifts(w: word)
    ensures Shift(Shift(w)) == (w >> 2) ^ Pair(w)
  {
  }

  lemma TwoPairs(w: word)
    ensures (((w >> 2) ^ Pair(w)) >> 2) ^ Pair((w >> 2) ^ Pair(w)) == (w >> 4) ^ Nibble(w & 0xF)
  {
  }

  lemma NibbleExact(w: word)
    ensures Shift(Shift(Shift(Shift(w)))) == (w >> 4) ^ Nibble(w & 0xF)
  {
    TwoShifts(w);
    TwoShifts(Shift(Shift(w)));
    TwoPairs(w);
  }

  lemma ShiftsFour(w: word, k: nat)
    requires k == 4
    ensures Shifts(w, k) == Shift(Shift(Shift(Shift(w))))
  {
    var a := Shift(w);
    var b := Shift(a);
    assert Shifts(w, k) == Shifts(a, k - 1) == Shifts(b, k - 2);
    assert Shifts(b, k - 2) == Shifts(Shift(b), k - 3);
    assert Shifts(Shift(b), k - 3) == Shifts(Shift(Shift(b)), k - 4);
  }

  lemma NibbleTabulates(k: nat)
    requires k == 4
    ensures Tabulates(Nibble, k)
  {
    forall w
      ensures Shifts(w, k) == (w >> 4) ^ Nibble(w & 0xF)
    {
      NibbleExact(w);
      ShiftsFour(w, k);
    }
  }

  lemma {:induction false} ShiftsSplit(w: word, m: nat, n: nat)
    ensures Shifts(Shifts(w, m), n) == Shifts(w, m + n)
    decreases m
  {
    if m > 0 {
      ShiftsSplit(Shift(w), m - 1, n);
    }
  }

  lemma FoldNibbleXor(a: word, b: word, t: word)
    ensures ((a ^ b) >> 4) ^ t == ((a >> 4) ^ t) ^ (b >> 4)
  {
  }

  lemma ByteGone(b: word, w: word)
    requires b < 0x100
    ensures w ^ ((b >> 4) >> 4) == w
  {
  }

  lemma ByteBelow(b: byte)
    ensures b as word < 0x100
  {
  }

  lemma FoldStep(table: word -> word, k: nat, crc: word, x: word)
    requires Tabulates(table, k)
    ensures Shifts(crc ^ x, k) == FoldNibble(table, crc, x) ^ (x >> 4)
  {
    FoldNibbleXor(crc, x, table((crc ^ x) & 0xF));
  }

  lemma ByteStep(table: word -> word, k: nat, crc: word, x: word)
    requires Tabulates(table, k) && x < 0x100
    ensures Shifts(crc ^ x, k + k) == FoldNibble(table, FoldNibble(table, crc, x), x >> 4)
  {
    var one := FoldNibble(table, crc, x);
    FoldStep(table, k, crc, x);
    FoldStep(table, k, one, x >> 4);
    ShiftsSplit(crc ^ x, k, k);
    ByteGone(x, FoldNibble(table, one, x >> 4));
  }

  lemma {:induction false} FoldSame(f: (word, byte) -> word, g: (word, byte) -> word, crc: word, s: seq<byte>)
    requires forall w, b :: f(w, b) == g(w, b)
    ensures Fold(f, crc, s) == Fold(g, crc, s)
  {
    if s != [] {
      FoldSame(f, g, crc, s[..|s| - 1]);
    }
  }

  lemma ByteSame(table: word -> word, k: nat, bits: nat, crc: word, b: byte)
    requires Tabulates(table, k) && bits == k + k
    ensures FoldByte(table)(crc, b) == ShiftByte(bits)(crc, b)
  {
    ByteBelow(b);
    ByteStep(table, k, crc, b as word);
  }

  lemma TableFold(table: word -> word, k: nat, bits: nat, crc: word, s: seq<byte>)
    requires Tabulates(table, k) && bits == k + k
    ensures Fold(FoldByte(table), crc, s) == Fold(ShiftByte(bits), crc, s)
  {
    var f, g := FoldByte(table), ShiftByte(bits);
    forall w, b: byte
      ensures f(w, b) == g(w, b)
    {
      ByteSame(table, k, bits, w, b);
    }
    FoldSame(f, g, crc, s);
  }

  /** The nibble table computes the bitwise register, for every seed and every input. */
  lemma TableIsBitwise(crc: word, s: seq<byte>)
    ensures Update(crc, s) == UpdateBitwise(crc, s)
  {
    NibbleTabulates(4);
    TableFold(Nibble, 4, 8, crc, s);
  }
}
