/**
 Bytes, machine words and their on-disk spellings.

 Bytes and tag words are bit vectors, because the format XORs tag words and
 global state and NOR flash ANDs bytes. Offsets, lengths, ids and block
 addresses are naturals; the lemmas here connect the two worlds.
 */
module Words {

  type byte = bv8
  type word = bv32

  /** The value every byte of an erased block reads as. */
  const ERASED: byte := 0xFF

  /** The number of values of a `u32`. */
  const U32_RANGE: nat := 0x1_0000_0000

  datatype Option<+T> = None | Some(value: T)

  /** The error classes of the kernel that the model distinguishes, and its panics. */
  datatype Error = Corrupt | OutOfRange | Io | GeometryMismatch | InvalidTag | Panic

  datatype Result<+T> = Ok(value: T) | Err(error: Error)

  /** The address no block has; a pair holding it ends a thread. */
  const NO_BLOCK: nat := 0xFFFF_FFFF

  /** The two blocks of a metadata pair. */
  datatype BlockPair = BlockPair(a: nat, b: nat) {
    predicate IsNull() {
      a == NO_BLOCK || b == NO_BLOCK
    }
  }

  /** A tail link: the next pair, and whether this directory's entries continue there. */
  datatype Thread = Thread(pair: BlockPair, hard: bool)

  function Min(a: nat, b: nat): (m: nat)
    ensures m <= a && m <= b && (m == a || m == b)
  {
    if a <= b then a else b
  }

  /** `n` bytes in the erased state. */
  function Blank(n: nat): (s: seq<byte>)
    ensures |s| == n && forall i :: 0 <= i < n ==> s[i] == ERASED
  {
    seq(n, i => ERASED)
  }

  /** `n` zero bytes. */
  function Zeros(n: nat): (s: seq<byte>)
    ensures |s| == n
  {
    seq(n, i => 0)
  }

  /** No element twice. */
  predicate Distinct<T(==)>(s: seq<T>) {
    forall i, j :: 0 <= i < j < |s| ==> s[i] != s[j]
  }

  /** What the latest element that says anything says. */
  function Latest<E, T>(f: E -> Option<T>, log: seq<E>): Option<T> {
    if log == [] then None
    else if f(log[|log| - 1]).Some? then f(log[|log| - 1])
    else Latest(f, log[..|log| - 1])
  }

  /** `s` with the bytes from `off` on replaced by `data`. */
  function Splice(s: seq<byte>, off: nat, data: seq<byte>): (r: seq<byte>)
    requires off + |data| <= |s|
    ensures |r| == |s|
    ensures r[..off] == s[..off] && r[off..off + |data|] == data && r[off + |data|..] == s[off + |data|..]
  {
    s[..off] + data + s[off + |data|..]
  }

  lemma SliceJoin<T>(s: seq<T>, a: nat, b: nat, c: nat)
    requires a <= b <= c <= |s|
    ensures s[a..b] + s[b..c] == s[a..c]
  {
  }

  lemma SliceOfSlice<T>(s: seq<T>, a: nat, b: nat, lo: nat, hi: nat)
    requires a <= b <= |s| && lo <= hi <= b - a
    ensures s[a..b][lo..hi] == s[a + lo..a + hi]
  {
    var t, l, r := s[a..b], s[a..b][lo..hi], s[a + lo..a + hi];
    forall i | 0 <= i < hi - lo
      ensures l[i] == r[i]
    {
      assert l[i] == t[lo + i] == s[a + lo + i];
    }
  }

  // ---- Words as bytes ------------------------------------------------------

  function Be32(w: word): (s: seq<byte>)
    ensures |s| == 4
  {
    [(w >> 24) as byte, ((w >> 16) & 0xFF) as byte, ((w >> 8) & 0xFF) as byte, (w & 0xFF) as byte]
  }

  function FromBe32(s: seq<byte>): word
    requires |s| == 4
  {
    (s[0] as word << 24) | (s[1] as word << 16) | (s[2] as word << 8) | s[3] as word
  }

  lemma Be32RoundTrip(w: word)
    ensures FromBe32(Be32(w)) == w
  {
  }

  function Le32(w: word): (s: seq<byte>)
    ensures |s| == 4
  {
    [(w & 0xFF) as byte, ((w >> 8) & 0xFF) as byte, ((w >> 16) & 0xFF) as byte, (w >> 24) as byte]
  }

  function FromLe32(s: seq<byte>): word
    requires |s| == 4
  {
    (s[3] as word << 24) | (s[2] as word << 16) | (s[1] as word << 8) | s[0] as word
  }

  lemma Be32Bytes(a: byte, b: byte, c: byte, d: byte)
    ensures Be32((a as word << 24) | (b as word << 16) | (c as word << 8) | d as word) == [a, b, c, d]
  {
  }

  /** Four bytes read and spelled again are the same four bytes. */
  lemma FromBe32RoundTrip(s: seq<byte>)
    requires |s| == 4
    ensures Be32(FromBe32(s)) == s
  {
    Be32Bytes(s[0], s[1], s[2], s[3]);
    assert [s[0], s[1], s[2], s[3]] == s;
  }

  lemma Le32RoundTrip(w: word)
    ensures FromLe32(Le32(w)) == w
  {
  }

  lemma Le32Bytes(a: byte, b: byte, c: byte, d: byte)
    ensures Le32((d as word << 24) | (c as word << 16) | (b as word << 8) | a as word) == [a, b, c, d]
  {
  }

  lemma FromLe32RoundTrip(s: seq<byte>)
    requires |s| == 4
    ensures Le32(FromLe32(s)) == s
  {
    Le32Bytes(s[0], s[1], s[2], s[3]);
    assert [s[0], s[1], s[2], s[3]] == s;
  }

  // ---- Naturals as words ---------------------------------------------------

  /** `n as u32`, for `n` below 2^32, built bit by bit. */
  function ToWord(n: nat): word {
    if n == 0 then 0 else if n % 2 == 0 then ToWord(n / 2) << 1 else (ToWord(n / 2) << 1) | 1
  }

  lemma ToWordStep(n: nat, h: word)
    requires n < U32_RANGE && h as nat == n / 2
    ensures (if n % 2 == 0 then h << 1 else (h << 1) | 1) as nat == n
  {
    TopBitClear(h);
    ShiftIn(h);
  }

  lemma ShiftIn(w: word)
    requires w < 0x8000_0000
    ensures (w << 1) as nat == 2 * (w as nat) && ((w << 1) | 1) as nat == 2 * (w as nat) + 1
  {
  }

  lemma TopBitClear(w: word)
    requires w as nat < 0x8000_0000
    ensures w < 0x8000_0000
  {
  }

  lemma {:induction false} ToWordValue(n: nat)
    requires n < U32_RANGE
    ensures ToWord(n) as nat == n
  {
    if n != 0 {
      ToWordValue(n / 2);
      ToWordStep(n, ToWord(n / 2));
    }
  }

  lemma UpperBits(w: word)
    ensures (w >> 1) < 0x8000_0000
  {
  }

  lemma EvenWord(w: word)
    requires w & 1 == 0
    ensures (w >> 1) << 1 == w
  {
  }

  lemma OddWord(w: word)
    requires w & 1 == 1
    ensures ((w >> 1) << 1) | 1 == w
  {
  }

  lemma LowestBit(w: word)
    ensures w & 1 == 0 || w & 1 == 1
  {
  }

  /** A word's upper bits, and whether the lowest is set. */
  lemma HalfOf(w: word) returns (h: word, odd: bool)
    ensures h < 0x8000_0000 && w == if odd then (h << 1) | 1 else h << 1
  {
    UpperBits(w);
    LowestBit(w);
    h := w >> 1;
    if w & 1 == 0 {
      EvenWord(w);
      odd := false;
    } else {
      OddWord(w);
      odd := true;
    }
  }

  lemma HalfValue(w: word, h: word, odd: bool)
    requires h < 0x8000_0000 && w == if odd then (h << 1) | 1 else h << 1
    ensures w as nat == 2 * (h as nat) + (if odd then 1 else 0)
  {
    ShiftIn(h);
  }

  lemma ZeroOnly(w: word)
    requires w as nat < 1
    ensures w == 0
  {
  }

  lemma ToWordEven(n: nat, m: nat, h: word, w: word)
    requires n == 2 * m && n > 0 && ToWord(m) == h && w == h << 1
    ensures ToWord(n) == w
  {
  }

  lemma ToWordOdd(n: nat, m: nat, h: word, w: word)
    requires n == 2 * m + 1 && ToWord(m) == h && w == (h << 1) | 1
    ensures ToWord(n) == w
  {
  }

  lemma ToWordHalf(n: nat, m: nat, odd: bool, h: word, w: word)
    requires n == 2 * m + (if odd then 1 else 0) && n > 0 && ToWord(m) == h && w == if odd then (h << 1) | 1 else h << 1
    ensures ToWord(n) == w
  {
    if odd {
      ToWordOdd(n, m, h, w);
    } else {
      ToWordEven(n, m, h, w);
    }
  }

  /** A word is the word of its value. */
  lemma {:induction false} WordOfValue(w: word)
    ensures ToWord(w as nat) == w
    decreases w as nat
  {
    if w as nat < 1 {
      ZeroOnly(w);
    } else {
      var h, odd := HalfOf(w);
      HalfValue(w, h, odd);
      WordOfValue(h);
      ToWordHalf(w as nat, h as nat, odd, h, w);
    }
  }

  /** A natural below 2^32 as four little endian bytes. */
  function LeNat(n: nat): (s: seq<byte>)
    ensures |s| == 4
  {
    Le32(ToWord(n))
  }

  function FromLeNat(s: seq<byte>): nat
    requires |s| == 4
  {
    FromLe32(s) as nat
  }

  lemma LeNatRoundTrip(n: nat)
    requires n < U32_RANGE
    ensures FromLeNat(LeNat(n)) == n
  {
    Le32RoundTrip(ToWord(n));
    ToWordValue(n);
  }

  /** Four bytes read as a natural and spelled again are the same four bytes. */
  lemma FromLeNatRoundTrip(s: seq<byte>)
    requires |s| == 4
    ensures LeNat(FromLeNat(s)) == s
  {
    WordOfValue(FromLe32(s));
    FromLe32RoundTrip(s);
  }

  /** Four bytes read as `NO_BLOCK` exactly if all are erased. */
  lemma NoBlockBytes(s: seq<byte>)
    requires |s| == 4
    ensures FromLeNat(s) == NO_BLOCK <==> s == Blank(4)
  {
    BlankWord(Blank(4));
    FromLe32RoundTrip(s);
    if FromLeNat(s) == NO_BLOCK {
      OnesValue(FromLe32(s));
    }
  }

  lemma BlankWord(s: seq<byte>)
    requires s == Blank(4)
    ensures FromLe32(s) == 0xFFFF_FFFF && FromLeNat(s) == NO_BLOCK && Le32(0xFFFF_FFFF) == s
  {
    assert s == [0xFF, 0xFF, 0xFF, 0xFF];
  }

  lemma OnesValue(w: word)
    requires w as nat == NO_BLOCK
    ensures w == 0xFFFF_FFFF
  {
  }
}
