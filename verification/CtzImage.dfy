/**
 Block images of a CTZ chain and the frame rules its writers rely on: what a
 freshly built block establishes, and which device writes leave a chain intact.
 */
module CtzImage {
  import opened Bits
  import opened CtzChain
  import opened CtzLayout
  import opened Storage
  import opened Words

  /** The first `count` skip pointers of block `i` of `chain`. */
  function Header(chain: seq<nat>, i: nat, count: nat): (h: seq<byte>)
    requires i < |chain| && count <= SkipPointers(i)
    ensures |h| == 4 * count
  {
    if count == 0 then [] else
    TrailingZerosFit(i, count - 1);
    Header(chain, i, count - 1) + LeNat(chain[i - Pow2(count - 1)])
  }

  lemma {:induction false} HeaderPointer(chain: seq<nat>, i: nat, count: nat, k: nat)
    requires 0 < i < |chain| && k < count <= SkipPointers(i) && Pow2(k) <= i
    ensures Header(chain, i, count)[4 * k..4 * k + 4] == LeNat(chain[i - Pow2(k)])
  {
    TrailingZerosFit(i, count - 1);
    var h, last := Header(chain, i, count - 1), LeNat(chain[i - Pow2(count - 1)]);
    if k < count - 1 {
      HeaderPointer(chain, i, count - 1, k);
      assert (h + last)[4 * k..4 * k + 4] == h[4 * k..4 * k + 4];
    } else {
      assert (h + last)[4 * k..4 * k + 4] == last;
    }
  }

  /** A block image: header, content, and the rest left erased. */
  function Image(header: seq<byte>, body: seq<byte>, blockSize: nat): (image: seq<byte>)
    requires |header| + |body| <= blockSize
    ensures |image| == blockSize
  {
    header + body + Blank(blockSize - |header| - |body|)
  }

  lemma ImageLinks(chain: seq<nat>, i: nat, image: seq<byte>)
    requires i < |chain| && HeaderBytes(i) <= |image|
    requires forall j :: 0 <= j < |chain| ==> chain[j] < U32_RANGE
    requires image[..HeaderBytes(i)] == Header(chain, i, SkipPointers(i))
    ensures LinksAt(image, chain, i)
  {
    forall k: nat, j: int | Skips(i, k, j)
      ensures 0 <= j && Pointer(image, k) == chain[j]
    {
      TrailingZerosFit(i, k);
      HeaderPointer(chain, i, SkipPointers(i), k);
      assert image[4 * k..4 * k + 4] == image[..HeaderBytes(i)][4 * k..4 * k + 4];
      LeNatRoundTrip(chain[j]);
    }
  }

  /** The links of block `i` depend only on its header bytes and the chain below it. */
  lemma LinksFrame(image: seq<byte>, image': seq<byte>, chain: seq<nat>, chain': seq<nat>, i: nat)
    requires i < |chain| && i < |chain'| && HeaderBytes(i) <= |image| && HeaderBytes(i) <= |image'|
    requires LinksAt(image, chain, i)
    requires image'[..HeaderBytes(i)] == image[..HeaderBytes(i)]
    requires forall j :: 0 <= j < i ==> chain'[j] == chain[j]
    ensures LinksAt(image', chain', i)
  {
    forall k: nat, j: int | Skips(i, k, j)
      ensures 0 <= j && Pointer(image', k) == chain'[j]
    {
      assert image'[4 * k..4 * k + 4] == image'[..HeaderBytes(i)][4 * k..4 * k + 4];
      assert image[4 * k..4 * k + 4] == image[..HeaderBytes(i)][4 * k..4 * k + 4];
    }
  }

  /** A new block carries the content placed right after its header. */
  lemma ImageCarries(header: seq<byte>, body: seq<byte>, content: seq<byte>, i: nat, blockSize: nat)
    requires |header| == HeaderBytes(i) && HeaderBytes(i) + |body| <= blockSize
    requires 0 <= Start(i, blockSize) && Start(i, blockSize) + |body| <= |content|
    requires body == content[Start(i, blockSize)..Start(i, blockSize) + |body|]
    requires HeaderBytes(i) + |body| < blockSize ==> Start(i, blockSize) + |body| == |content|
    ensures Carries(Image(header, body, blockSize), content, i, blockSize)
  {
    var image, h, s := Image(header, body, blockSize), HeaderBytes(i), Start(i, blockSize);
    forall p | h <= p < blockSize && 0 <= FileOffset(i, p, blockSize) < |content|
      ensures image[p] == content[FileOffset(i, p, blockSize)]
    {
      assert image[p] == body[p - h];
    }
  }

  /** Filling a partial tail block in place extends what it carries. */
  lemma FillCarries(image: seq<byte>, content: seq<byte>, data: seq<byte>, i: nat, blockSize: nat, p0: nat, fill: nat)
    requires Carries(image, content, i, blockSize) && HeaderBytes(i) <= p0 <= blockSize
    requires FileOffset(i, p0, blockSize) == |content| && fill == Min(blockSize - p0, |data|)
    ensures Carries(Splice(image, p0, data[..fill]), content + data, i, blockSize)
  {
    var image', content' := Splice(image, p0, data[..fill]), content + data;
    forall p | HeaderBytes(i) <= p < blockSize && 0 <= FileOffset(i, p, blockSize) < |content'|
      ensures image'[p] == content'[FileOffset(i, p, blockSize)]
    {
      if p >= p0 {
        assert p - p0 < fill && image'[p] == data[p - p0];
        assert content'[|content| + (p - p0)] == data[p - p0];
      } else {
        assert image'[p] == image[p];
      }
    }
  }

  /** A block whose capacity lies wholly inside the file is indifferent to bytes appended after it. */
  lemma FullCarries(image: seq<byte>, content: seq<byte>, content': seq<byte>, i: nat, blockSize: nat)
    requires Carries(image, content, i, blockSize) && Start(i + 1, blockSize) <= |content|
    requires Start(i + 1, blockSize) <= |content'|
    requires forall x :: 0 <= x < Start(i + 1, blockSize) ==> content'[x] == content[x]
    ensures Carries(image, content', i, blockSize)
  {
    forall p | HeaderBytes(i) <= p < blockSize && 0 <= FileOffset(i, p, blockSize) < |content'|
      ensures image[p] == content'[FileOffset(i, p, blockSize)]
    {
      assert FileOffset(i, p, blockSize) < Start(i + 1, blockSize);
    }
  }

  /** A block kept up to the end of a shorter file carries that file. */
  lemma TrimCarries(image: seq<byte>, image': seq<byte>, content: seq<byte>, size: nat, i: nat, keep: nat,
                    blockSize: nat)
    requires Carries(image, content, i, blockSize) && size <= |content| && |image'| == blockSize
    requires keep <= blockSize && image'[..keep] == image[..keep] && size <= FileOffset(i, keep, blockSize)
    ensures Carries(image', content[..size], i, blockSize)
  {
    forall p | HeaderBytes(i) <= p < blockSize && 0 <= FileOffset(i, p, blockSize) < size
      ensures image'[p] == content[..size][FileOffset(i, p, blockSize)]
    {
      assert image'[p] == image'[..keep][p] == image[..keep][p] == image[p];
    }
  }

  // ---- Frames ------------------------------------------------------------------

  /** Programs to other blocks, or past the used cells of a block, keep a chain readable. */
  lemma HoldsFrame(disk: Disk, disk': Disk, blockSize: nat, chain: seq<nat>, content: seq<byte>, b: nat, from: nat)
    requires Holds(disk, blockSize, chain, content) && |disk'| == |disk| && b < |disk|
    requires forall x :: 0 <= x < |disk| && x != b ==> disk'[x] == disk[x]
    requires from <= |disk[b]| == |disk'[b]| && disk'[b][..from] == disk[b][..from]
    requires forall i :: 0 <= i < |chain| && chain[i] == b ==> CellsBelow(i, from, content, blockSize)
    ensures Holds(disk', blockSize, chain, content)
  {
    forall i | 0 <= i < |chain|
      ensures LinkedAt(disk', chain, i) && CarriesAt(disk', blockSize, chain, content, i)
    {
      assert LinkedAt(disk, chain, i) && CarriesAt(disk, blockSize, chain, content, i);
      if chain[i] == b {
        FrameBlock(disk[b], disk'[b], chain, content, i, from, blockSize);
      }
    }
  }

  /** Every cell of block `i` in use lies below `from`. */
  ghost predicate CellsBelow(i: nat, from: nat, content: seq<byte>, blockSize: nat) {
    HeaderBytes(i) <= from && |content| <= FileOffset(i, from, blockSize)
  }

  lemma FrameBlock(image: seq<byte>, image': seq<byte>, chain: seq<nat>, content: seq<byte>, i: nat, from: nat,
                   blockSize: nat)
    requires i < |chain| && LinksAt(image, chain, i) && Carries(image, content, i, blockSize)
    requires from <= |image| == |image'| && image'[..from] == image[..from]
    requires CellsBelow(i, from, content, blockSize)
    ensures LinksAt(image', chain, i) && Carries(image', content, i, blockSize)
  {
    var h := HeaderBytes(i);
    assert image'[..h] == image'[..from][..h] && image[..h] == image[..from][..h];
    LinksFrame(image, image', chain, chain, i);
    forall p | h <= p < blockSize && 0 <= FileOffset(i, p, blockSize) < |content|
      ensures image'[p] == content[FileOffset(i, p, blockSize)]
    {
      assert image'[p] == image'[..from][p] == image[..from][p] == image[p];
    }
  }
}
