/**
 What the checksum detects (`src/crc.rs`): two inputs of one length that differ in a
 single byte have different checksums, whatever surrounds it and whatever the seed.
 */
module CrcChanges {
  import opened Words
  import opened Crc

  /** The register loses nothing: the feedback shows in the top bit. */
  lemma ShiftInjective(a: word, b: word)
    requires Shift(a) == Shift(b)
    ensures a == b
  {
  }

  lemma {:induction false} ShiftsInjective(a: word, b: word, n: nat)
    requires Shifts(a, n) == Shifts(b, n)
    ensures a == b
    decreases n
  {
    if n > 0 {
      ShiftsInjective(Shift(a), Shift(b), n - 1);
      ShiftInjective(a, b);
    }
  }

  lemma XorRight(a: word, x: word, y: word)
    requires a ^ x == a ^ y
    ensures x == y
  {
  }

  lemma XorLeft(a: word, b: word, x: word)
    requires a ^ x == b ^ x
    ensures a == b
  {
  }

  lemma ByteValue(x: byte, y: byte, u: word, v: word)
    requires u == x as word && v == y as word
    ensures u == v <==> x == y
  {
  }

  lemma ByteFed(table: word -> word, k: nat, a: word, b: byte, x: word)
    requires Tabulates(table, k) && x == b as word
    ensures FoldByteBy(table, a, b) == Shifts(a ^ x, k + k)
  {
    ByteBelow(b);
    ByteStep(table, k, a, x);
  }

  lemma BytesApart(a: word, x: word, y: word, n: nat, p: word, q: word)
    requires p == Shifts(a ^ x, n) && q == Shifts(a ^ y, n) && x != y
    ensures p != q
  {
    if p == q {
      ShiftsInjective(a ^ x, a ^ y, n);
      XorRight(a, x, y);
    }
  }

  lemma RegistersApart(a: word, b: word, x: word, n: nat, p: word, q: word)
    requires p == Shifts(a ^ x, n) && q == Shifts(b ^ x, n) && a != b
    ensures p != q
  {
    if p == q {
      ShiftsInjective(a ^ x, b ^ x, n);
      XorLeft(a, b, x);
    }
  }

  /** Different bytes fed to one register leave different ones ... */
  lemma ByteDetected(table: word -> word, k: nat, a: word, x: byte, y: byte)
    requires Tabulates(table, k) && x != y
    ensures FoldByteBy(table, a, x) != FoldByteBy(table, a, y)
  {
    var u, v := x as word, y as word;
    ByteFed(table, k, a, x, u);
    ByteFed(table, k, a, y, v);
    ByteValue(x, y, u, v);
    BytesApart(a, u, v, k + k, FoldByteBy(table, a, x), FoldByteBy(table, a, y));
  }

  /** ... and one byte fed to different registers too. */
  lemma RegisterDetected(table: word -> word, k: nat, a: word, b: word, x: byte)
    requires Tabulates(table, k) && a != b
    ensures FoldByteBy(table, a, x) != FoldByteBy(table, b, x)
  {
    var u := x as word;
    ByteFed(table, k, a, x, u);
    ByteFed(table, k, b, x, u);
    RegistersApart(a, b, u, k + k, FoldByteBy(table, a, x), FoldByteBy(table, b, x));
  }

  /** What follows does not make different registers equal. */
  lemma {:induction false} TailKeeps(table: word -> word, k: nat, a: word, b: word, s: seq<byte>)
    requires Tabulates(table, k) && a != b
    ensures Fold(FoldByte(table), a, s) != Fold(FoldByte(table), b, s)
  {
    if s != [] {
      var init, last := s[..|s| - 1], s[|s| - 1];
      TailKeeps(table, k, a, b, init);
      var c, d := Fold(FoldByte(table), a, init), Fold(FoldByte(table), b, init);
      RegisterDetected(table, k, c, d, last);
    }
  }

  lemma FoldOne(step: (word, byte) -> word, crc: word, x: byte)
    ensures Fold(step, crc, [x]) == step(crc, x)
  {
    assert [x][..0] == [];
  }

  lemma TableDetects(table: word -> word, k: nat, crc: word, before: seq<byte>, x: byte, y: byte, after: seq<byte>)
    requires Tabulates(table, k) && x != y
    ensures Fold(FoldByte(table), crc, (before + [x]) + after) != Fold(FoldByte(table), crc, (before + [y]) + after)
  {
    var f := FoldByte(table);
    var c := Fold(f, crc, before);
    FoldConcat(f, crc, before, [x]);
    FoldConcat(f, crc, before, [y]);
    FoldOne(f, c, x);
    FoldOne(f, c, y);
    ByteDetected(table, k, c, x, y);
    FoldConcat(f, crc, before + [x], after);
    FoldConcat(f, crc, before + [y], after);
    TailKeeps(table, k, f(c, x), f(c, y), after);
  }

  /** A changed byte changes the checksum. */
  lemma ChangeDetected(crc: word, a: seq<byte>, b: seq<byte>, i: nat)
    requires |a| == |b| && i < |a| && a[i] != b[i] && forall j :: 0 <= j < |a| && j != i ==> a[j] == b[j]
    ensures Update(crc, a) != Update(crc, b)
  {
    NibbleTabulates(4);
    assert a == (a[..i] + [a[i]]) + a[i + 1..];
    assert b == (a[..i] + [b[i]]) + a[i + 1..];
    TableDetects(Nibble, 4, crc, a[..i], a[i], b[i], a[i + 1..]);
  }
}
