/**
 Writing CTZ chains (`try_build_ctz_chain`, `stream_ctz_extend` and
 `shrink_ctz_head` in `src/fs.rs`).

 The device is NOR flash: erasing sets a block to all ones and programming
 ANDs bytes in. Its state records every intermediate disk image, so that the
 theorems speak about what a power loss after any single device action leaves.
 */
module CtzWrite {
  import opened Bits
  import opened CtzChain
  import opened CtzImage
  import opened CtzLayout
  import opened Storage
  import opened Words

  /**
   A device: its current bytes, every state it went through since the trace was
   last cut, and whether all programs so far hit only erased cells.
   */
  datatype Flash = Flash(disk: Disk, trace: seq<Disk>, clean: bool)

  function Step(f: Flash, disk: Disk, clean: bool): Flash {
    Flash(disk, f.trace + [disk], f.clean && clean)
  }

  function Erase(f: Flash, b: nat, blockSize: nat): Flash
    requires b < |f.disk|
  {
    Step(f, f.disk[b := Blank(blockSize)], true)
  }

  /** NOR programming can only clear bits. */
  function Anded(cells: seq<byte>, data: seq<byte>): (r: seq<byte>)
    requires |cells| == |data|
    ensures |r| == |data|
  {
    seq(|data|, i requires 0 <= i < |data| => cells[i] & data[i])
  }

  function Program(f: Flash, b: nat, off: nat, data: seq<byte>): Flash
    requires b < |f.disk| && off + |data| <= |f.disk[b]|
  {
    var cells := f.disk[b][off..off + |data|];
    Step(f, f.disk[b := Splice(f.disk[b], off, Anded(cells, data))], cells == Blank(|data|))
  }

  lemma ProgramErased(cells: seq<byte>, data: seq<byte>)
    requires |cells| == |data| && cells == Blank(|data|)
    ensures Anded(cells, data) == data
  {
    forall i | 0 <= i < |data|
      ensures Anded(cells, data)[i] == data[i]
    {
      AndErased(data[i]);
    }
  }

  lemma AndErased(x: byte)
    ensures ERASED & x == x
  {
  }

  /** Erase a block and program a whole image into it. */
  function WriteBlock(f: Flash, b: nat, image: seq<byte>): Flash
    requires b < |f.disk|
  {
    Program(Erase(f, b, |image|), b, 0, image)
  }

  lemma WriteBlockResult(f: Flash, b: nat, image: seq<byte>)
    requires b < |f.disk|
    ensures var g := WriteBlock(f, b, image);
            g.disk == f.disk[b := image] && g.clean == f.clean &&
            g.trace == f.trace + [f.disk[b := Blank(|image|)], f.disk[b := image]]
  {
    var blank := Blank(|image|);
    assert blank[0..0 + |image|] == blank;
    ProgramErased(blank, image);
    assert Splice(blank, 0, image) == image;
    assert f.disk[b := blank][b := image] == f.disk[b := image];
  }

  // ---- The pinned file ---------------------------------------------------------

  /** A file as its chain of block addresses and its bytes. */
  datatype CtzFile = CtzFile(chain: seq<nat>, content: seq<byte>)

  ghost predicate Readable(disk: Disk, blockSize: nat, file: CtzFile) {
    Holds(disk, blockSize, file.chain, file.content)
  }

  /** The durable file reads back now and in every recorded intermediate state. */
  ghost predicate Pinned(f: Flash, blockSize: nat, file: CtzFile) {
    Readable(f.disk, blockSize, file) && forall t :: 0 <= t < |f.trace| ==> Readable(f.trace[t], blockSize, file)
  }

  /** Rewriting a block the durable file does not own keeps it pinned. */
  lemma PinnedWriteBlock(f: Flash, blockSize: nat, file: CtzFile, b: nat, image: seq<byte>)
    requires Pinned(f, blockSize, file) && b < |f.disk| && |image| == blockSize == |f.disk[b]|
    requires b !in file.chain
    ensures Pinned(WriteBlock(f, b, image), blockSize, file)
  {
    WriteBlockResult(f, b, image);
    HoldsFrame(f.disk, f.disk[b := Blank(|image|)], blockSize, file.chain, file.content, b, 0);
    HoldsFrame(f.disk, f.disk[b := image], blockSize, file.chain, file.content, b, 0);
  }

  /** Programming past the cells the durable file uses keeps it pinned. */
  lemma PinnedProgram(f: Flash, blockSize: nat, file: CtzFile, b: nat, off: nat, data: seq<byte>)
    requires Pinned(f, blockSize, file) && b < |f.disk| && off + |data| <= |f.disk[b]|
    requires forall i :: 0 <= i < |file.chain| && file.chain[i] == b ==> CellsBelow(i, off, file.content, blockSize)
    ensures Pinned(Program(f, b, off, data), blockSize, file)
  {
    var g := Program(f, b, off, data);
    HoldsFrame(f.disk, g.disk, blockSize, file.chain, file.content, b, off);
  }

  // ---- Whole-file build ----------------------------------------------------------

  /** Every block a writer may use: in the device, owned by neither file, and listed once. */
  ghost predicate Fresh(f: Flash, blocks: seq<nat>, file: CtzFile) {
    (forall i :: 0 <= i < |blocks| ==> blocks[i] < |f.disk| && blocks[i] !in file.chain) &&
    (forall i, j :: 0 <= i < j < |blocks| ==> blocks[i] != blocks[j])
  }

  ghost predicate BlockOk(disk: Disk, blockSize: nat, chain: seq<nat>, content: seq<byte>, i: nat)
    requires i < |chain| && chain[i] < |disk|
  {
    LinkedAt(disk, chain, i) && CarriesAt(disk, blockSize, chain, content, i)
  }

  /** The pointer loop of the chain builders, when every target address is known. */
  method BuildHeader(chain: seq<nat>, i: nat) returns (header: seq<byte>)
    requires i < |chain|
    ensures header == Header(chain, i, SkipPointers(i))
  {
    header := [];
    var k := 0;
    while k < SkipPointers(i)
      invariant k <= SkipPointers(i) && header == Header(chain, i, k)
    {
      TrailingZerosFit(i, k);
      header := header + LeNat(chain[i - Pow2(k)]);
      k := k + 1;
    }
  }

  /**
   `try_build_ctz_chain` on a fault-free device: after it, `chain` holds
   `content`, and the durable file was readable after every device action.
   */
  method BuildChain(f: Flash, unit: nat, blockSize: nat, chain: seq<nat>, content: seq<byte>, ghost file: CtzFile)
    returns (g: Flash)
    requires Geometry(f.disk, unit, blockSize) && |content| < U32_RANGE
    requires Reaches(|chain|, |content|, blockSize)
    requires Fresh(f, chain, file) && Pinned(f, blockSize, file)
    ensures Holds(g.disk, blockSize, chain, content)
    ensures Pinned(g, blockSize, file) && g.clean == f.clean && Geometry(g.disk, unit, blockSize)
  {
    g := f;
    ChainBelowU32(|chain|, |content|, blockSize);
    var i := 0;
    while i < |chain|
      invariant i <= |chain| && Geometry(g.disk, unit, blockSize) && |g.disk| == |f.disk|
      invariant Pinned(g, blockSize, file) && g.clean == f.clean
      invariant forall j :: 0 <= j < i ==> BlockOk(g.disk, blockSize, chain, content, j)
    {
      PieceBounds(i, |chain|, |content|, blockSize);
      var header := BuildHeader(chain, i);
      ghost var before := g.disk;
      g := AppendBlock(g, unit, blockSize, chain[i], header, i, content, content[Start(i, blockSize)..], chain, file);
      forall j | 0 <= j < i
        ensures BlockOk(g.disk, blockSize, chain, content, j)
      {
        BlockOkFrame(before, g.disk, blockSize, chain, content, j);
      }
      i := i + 1;
    }
    HoldsFromBlocks(g.disk, blockSize, chain, content);
  }

  /** Build block `i` at `addr` from its header and as much of `rest` as fits, and write it. */
  method AppendBlock(f: Flash, unit: nat, blockSize: nat, addr: nat, header: seq<byte>, i: nat,
                     ghost content: seq<byte>, rest: seq<byte>, ghost chain: seq<nat>, ghost file: CtzFile)
    returns (g: Flash)
    requires Geometry(f.disk, unit, blockSize) && Pinned(f, blockSize, file)
    requires i < |chain| && i < U32_RANGE && chain[i] == addr < |f.disk| && addr !in file.chain
    requires forall j :: 0 <= j < |chain| ==> chain[j] < |f.disk|
    requires header == Header(chain, i, SkipPointers(i))
    requires 0 <= Start(i, blockSize) <= |content| && rest == content[Start(i, blockSize)..]
    ensures Geometry(g.disk, unit, blockSize) && |g.disk| == |f.disk|
    ensures Pinned(g, blockSize, file) && g.clean == f.clean
    ensures BlockOk(g.disk, blockSize, chain, content, i)
    ensures forall x :: 0 <= x < |g.disk| && x != addr ==> g.disk[x] == f.disk[x]
  {
    HeaderFits(i);
    var take := Min(blockSize - |header|, |rest|);
    var image := Image(header, rest[..take], blockSize);
    assert image[..HeaderBytes(i)] == header;
    ImageLinks(chain, i, image);
    ImageCarries(header, rest[..take], content, i, blockSize);
    PinnedWriteBlock(f, blockSize, file, addr, image);
    WriteBlockResult(f, addr, image);
    g := WriteBlock(f, addr, image);
  }

  lemma BlockOkFrame(disk: Disk, disk': Disk, blockSize: nat, chain: seq<nat>, content: seq<byte>, i: nat)
    requires i < |chain| && chain[i] < |disk| && |disk'| == |disk| && disk'[chain[i]] == disk[chain[i]]
    requires BlockOk(disk, blockSize, chain, content, i)
    ensures BlockOk(disk', blockSize, chain, content, i)
  {
  }

  lemma ChainBelowU32(n: nat, size: nat, blockSize: nat)
    requires size < U32_RANGE && blockSize >= BLOCK_SIZE_MIN && Reaches(n, size, blockSize)
    ensures n < U32_RANGE
  {
    ReachesBound(n, size, blockSize);
  }

  /** Inside a chain that just reaches `size`, every block starts before the end of the file. */
  lemma PieceBounds(i: nat, n: nat, size: nat, blockSize: nat)
    requires i < n < U32_RANGE && blockSize >= BLOCK_SIZE_MIN && Reaches(n, size, blockSize)
    ensures 0 <= Start(i, blockSize) < size
  {
    StartMonotone(0, i, blockSize);
    StartMonotone(i, n - 1, blockSize);
  }

  lemma HoldsFromBlocks(disk: Disk, blockSize: nat, chain: seq<nat>, content: seq<byte>)
    requires blockSize >= BLOCK_SIZE_MIN && |content| < U32_RANGE && |chain| < U32_RANGE
    requires Reaches(|chain|, |content|, blockSize)
    requires forall i :: 0 <= i < |chain| ==> chain[i] < |disk|
    requires forall i :: 0 <= i < |chain| ==> BlockOk(disk, blockSize, chain, content, i)
    ensures Holds(disk, blockSize, chain, content)
  {
    forall i | 0 <= i < |chain|
      ensures LinkedAt(disk, chain, i) && CarriesAt(disk, blockSize, chain, content, i)
    {
      assert BlockOk(disk, blockSize, chain, content, i);
    }
  }

  // ---- Streaming append ----------------------------------------------------------

  /**
   The pointer loop of `stream_ctz_extend`: targets among the new blocks are
   known, targets in the existing chain are found by seeking from its tail.
   */
  method BuildOverflowHeader(disk: Disk, unit: nat, blockSize: nat, tail: nat, nOld: nat, spares: seq<nat>, i: nat,
                             ghost chain: seq<nat>)
    returns (header: seq<byte>)
    requires Geometry(disk, unit, blockSize) && nOld <= i < |chain| <= nOld + |spares| && |chain| < U32_RANGE
    requires forall j :: nOld <= j < |chain| ==> chain[j] == spares[j - nOld]
    requires Linked(disk, chain[..nOld]) && (nOld > 0 ==> chain[nOld - 1] == tail)
    ensures header == Header(chain, i, SkipPointers(i))
  {
    header := [];
    var k := 0;
    while k < SkipPointers(i)
      invariant k <= SkipPointers(i) && header == Header(chain, i, k)
    {
      TrailingZerosFit(i, k);
      var target := i - Pow2(k);
      var phys: nat;
      if target >= nOld {
        phys := spares[target - nOld];
      } else {
        var found, _ := SeekBlock(disk, unit, blockSize, tail, nOld - 1, target, blockSize, chain[..nOld]);
        phys := found.value;
      }
      header := header + LeNat(phys);
      k := k + 1;
    }
  }

  /** Step 2 of `stream_ctz_extend`: write the overflow blocks `nOld..|chain|`. */
  method WriteOverflow(f: Flash, unit: nat, blockSize: nat, tail: nat, nOld: nat, nNew: nat, spares: seq<nat>,
                       rest: seq<byte>, ghost chain: seq<nat>, ghost content: seq<byte>, ghost file: CtzFile)
    returns (g: Flash)
    requires Geometry(f.disk, unit, blockSize) && Pinned(f, blockSize, file) && |content| < U32_RANGE
    requires nOld < nNew == |chain| <= nOld + |spares| && Reaches(nNew, |content|, blockSize)
    requires forall j :: nOld <= j < nNew ==> chain[j] == spares[j - nOld] && chain[j] !in file.chain
    requires Linked(f.disk, chain[..nOld]) && (nOld > 0 ==> chain[nOld - 1] == tail)
    requires Distinct(chain) && forall j :: 0 <= j < nNew ==> chain[j] < |f.disk|
    requires 0 <= Start(nOld, blockSize) <= |content| && rest == content[Start(nOld, blockSize)..]
    ensures Geometry(g.disk, unit, blockSize) && |g.disk| == |f.disk|
    ensures Pinned(g, blockSize, file) && g.clean == f.clean
    ensures forall j :: nOld <= j < nNew ==> BlockOk(g.disk, blockSize, chain, content, j)
    ensures forall j :: 0 <= j < nOld ==> g.disk[chain[j]] == f.disk[chain[j]]
  {
    g := f;
    ChainBelowU32(nNew, |content|, blockSize);
    var i := nOld;
    while i < nNew
      invariant nOld <= i <= nNew && Geometry(g.disk, unit, blockSize) && |g.disk| == |f.disk|
      invariant Pinned(g, blockSize, file) && g.clean == f.clean
      invariant forall j :: nOld <= j < i ==> BlockOk(g.disk, blockSize, chain, content, j)
      invariant forall j :: 0 <= j < nOld ==> g.disk[chain[j]] == f.disk[chain[j]]
    {
      LinkedFrame(f.disk, g.disk, chain[..nOld]);
      var header := BuildOverflowHeader(g.disk, unit, blockSize, tail, nOld, spares, i, chain);
      PieceBounds(i, nNew, |content|, blockSize);
      StartMonotone(nOld, i, blockSize);
      var consumed := Start(i, blockSize) - Start(nOld, blockSize);
      assert rest[consumed..] == content[Start(i, blockSize)..];
      ghost var before := g.disk;
      g := AppendBlock(g, unit, blockSize, spares[i - nOld], header, i, content, rest[consumed..], chain, file);
      forall j | nOld <= j < i
        ensures BlockOk(g.disk, blockSize, chain, content, j)
      {
        BlockOkFrame(before, g.disk, blockSize, chain, content, j);
      }
      i := i + 1;
    }
  }

  lemma LinkedFrame(disk: Disk, disk': Disk, chain: seq<nat>)
    requires Linked(disk, chain) && |disk'| == |disk|
    requires forall j :: 0 <= j < |chain| ==> disk'[chain[j]] == disk[chain[j]]
    ensures Linked(disk', chain)
  {
    forall j | 0 <= j < |chain|
      ensures LinkedAt(disk', chain, j)
    {
      assert LinkedAt(disk, chain, j);
    }
  }
}
