/**
 The NOR write-back window (`src/nor.rs`): an adapter that turns byte programs
 into aligned window programs and refines a plain NOR device, whose programs
 AND bytes into place.
 */
module Nor {
  import opened Words
  import opened Grid
  import S = Storage

  type Disk = S.Disk

  /** `s` with `data` ANDed in at `off`: the effect of a NOR program. */
  function AndAt(s: seq<byte>, off: nat, data: seq<byte>): (r: seq<byte>)
    requires off + |data| <= |s|
    ensures |r| == |s|
  {
    seq(|s|, i requires 0 <= i < |s| => if off <= i < off + |data| then s[i] & data[i - off] else s[i])
  }

  /** `s` with `data` shown at `off`. */
  function Overlay(s: seq<byte>, off: nat, data: seq<byte>): (r: seq<byte>)
    requires off + |data| <= |s|
    ensures |r| == |s|
  {
    seq(|s|, i requires 0 <= i < |s| => if off <= i < off + |data| then data[i - off] else s[i])
  }

  /** Every bit of `b` is a bit of `a`. */
  predicate Below(b: seq<byte>, a: seq<byte>) {
    |b| == |a| && forall i :: 0 <= i < |b| ==> a[i] & b[i] == b[i]
  }

  lemma AndKeeps(x: byte, y: byte, z: byte)
    requires x & y == y
    ensures x & (y & z) == y & z
  {
  }

  lemma AndAll(x: byte)
    ensures x & x == x
  {
  }

  /** ANDing more into a window keeps it below the device. */
  lemma BelowAnd(cells: seq<byte>, window: seq<byte>, at: nat, data: seq<byte>)
    requires Below(window, cells) && at + |data| <= |window|
    ensures Below(AndAt(window, at, data), cells)
  {
    var w := AndAt(window, at, data);
    forall i | 0 <= i < |w|
      ensures cells[i] & w[i] == w[i]
    {
      if at <= i < at + |data| {
        AndKeeps(cells[i], window[i], data[i - at]);
      }
    }
  }

  lemma BelowSelf(cells: seq<byte>)
    ensures Below(cells, cells)
  {
    forall i | 0 <= i < |cells|
      ensures cells[i] & cells[i] == cells[i]
    {
      AndAll(cells[i]);
    }
  }

  /** Programming a window that is below the cells replaces them. */
  lemma AndIsOverlay(image: seq<byte>, off: nat, window: seq<byte>)
    requires off + |window| <= |image| && Below(window, image[off..off + |window|])
    ensures AndAt(image, off, window) == Overlay(image, off, window)
  {
    var a, b := AndAt(image, off, window), Overlay(image, off, window);
    forall i | 0 <= i < |image|
      ensures a[i] == b[i]
    {
      if off <= i < off + |window| {
        assert image[off..off + |window|][i - off] == image[i];
      }
    }
  }

  /** Merging into the window is programming the image that shows it. */
  lemma MergeInWindow(image: seq<byte>, off: nat, window: seq<byte>, at: nat, data: seq<byte>)
    requires off + |window| <= |image| && at + |data| <= |window|
    ensures Overlay(image, off, AndAt(window, at, data)) == AndAt(Overlay(image, off, window), off + at, data)
  {
  }

  /** Two adjacent programs are one. */
  lemma AndAdjacent(s: seq<byte>, off: nat, a: seq<byte>, b: seq<byte>)
    requires off + |a| + |b| <= |s|
    ensures AndAt(AndAt(s, off, a), off + |a|, b) == AndAt(s, off, a + b)
  {
  }

  lemma AndNothing(s: seq<byte>, off: nat)
    requires off <= |s|
    ensures AndAt(s, off, []) == s
  {
  }

  lemma OverlaySame(s: seq<byte>, off: nat, n: nat)
    requires off + n <= |s|
    ensures Overlay(s, off, s[off..off + n]) == s
  {
  }

  /** A program the adapter issued to the inner device. */
  datatype Call = Call(block: nat, off: nat, length: nat)

  /** The device with the cached window shown over it. */
  function Shown(inner: Disk, block: Option<nat>, off: nat, window: seq<byte>): Disk
    requires block.Some? ==> block.value < |inner| && off + |window| <= |inner[block.value]|
  {
    if block.None? then inner else inner[block.value := Overlay(inner[block.value], off, window)]
  }

  /** The window lies on the grid and below the cells it covers; a clean one equals them. */
  ghost predicate WindowOk(inner: Disk, blockSize: nat, prog: nat, block: Option<nat>, off: nat, window: seq<byte>, dirty: bool) {
    && |window| == prog && (dirty ==> block.Some?)
    && (block.Some? ==>
          && block.value < |inner| && off + prog <= blockSize == |inner[block.value]| && OnGrid(off, prog)
          && Below(window, inner[block.value][off..off + prog])
          && (!dirty ==> window == inner[block.value][off..off + prog]))
  }

  class NorAlignedStorage {
    const prog: nat
    const blockSize: nat
    const cache: array<byte>
    var inner: Disk
    var cachedBlock: Option<nat>
    var cachedOff: nat
    var dirty: bool
    ghost var calls: seq<Call>

    ghost predicate Valid()
      reads this, cache
    {
      && 0 < prog == cache.Length && OnGrid(blockSize, prog)
      && (forall b :: 0 <= b < |inner| ==> |inner[b]| == blockSize)
      && WindowOk(inner, blockSize, prog, cachedBlock, cachedOff, cache[..], dirty)
      && (forall i :: 0 <= i < |calls| ==> calls[i].length == prog && OnGrid(calls[i].off, prog))
    }

    /** The plain device this adapter stands for. */
    ghost function View(): (d: Disk)
      reads this, cache
      requires Valid()
      ensures |d| == |inner| && forall b :: 0 <= b < |d| ==> |d[b]| == blockSize
    {
      Shown(inner, cachedBlock, cachedOff, cache[..])
    }

    /** `new`, for a program size that is positive and divides the block size. */
    constructor (inner: Disk, prog: nat, blockSize: nat)
      requires prog > 0 && OnGrid(blockSize, prog) && forall b :: 0 <= b < |inner| ==> |inner[b]| == blockSize
      ensures Valid() && View() == inner && this.prog == prog && this.blockSize == blockSize && fresh(cache)
    {
      this.prog, this.blockSize, this.inner := prog, blockSize, inner;
      cache := new byte[prog](_ => ERASED);
      cachedBlock, cachedOff, dirty, calls := None, 0, false, [];
    }

    /** `flush`: the pending window goes to the device in one aligned program. */
    method Flush()
      requires Valid()
      modifies this
      ensures Valid() && !dirty && View() == old(View()) && inner == View()
      ensures cachedBlock == old(cachedBlock) && cachedOff == old(cachedOff)
    {
      if cachedBlock.Some? {
        FlushShows(inner, blockSize, prog, cachedBlock.value, cachedOff, cache[..], dirty);
      }
      if !dirty {
        return;
      }
      var block := cachedBlock.value;
      dirty := false;
      inner := inner[block := AndAt(inner[block], cachedOff, cache[..])];
      calls := calls + [Call(block, cachedOff, prog)];
    }

    /** `load_window`: the window of `block` at `off` becomes the cached one. */
    method LoadWindow(block: nat, off: nat)
      requires Valid() && block < |inner| && off + prog <= blockSize && OnGrid(off, prog)
      modifies this, cache
      ensures Valid() && View() == old(View()) && cachedBlock == Some(block) && cachedOff == off && |inner| == old(|inner|)
    {
      if cachedBlock == Some(block) && cachedOff == off {
        return;
      }
      Flush();
      ghost var cells := inner[block][off..off + prog];
      for i := 0 to prog
        invariant cache.Length == prog && inner == old(View()) && forall j :: 0 <= j < i ==> cache[j] == inner[block][off + j]
        modifies cache
      {
        cache[i] := inner[block][off + i];
      }
      assert cache[..] == cells;
      cachedBlock, cachedOff, dirty := Some(block), off, false;
      BelowSelf(cells);
      OverlaySame(inner[block], off, prog);
    }

    /** Merges one window's share of a program into the cache. */
    method MergeWindow(at: nat, chunk: seq<byte>)
      requires Valid() && cachedBlock.Some? && at + |chunk| <= prog
      modifies this`dirty, cache
      ensures Valid() && inner == old(inner) && dirty && cache[..] == AndAt(old(cache[..]), at, chunk)
    {
      ghost var window, cells := cache[..], inner[cachedBlock.value][cachedOff..cachedOff + prog];
      MergeInto(cache, at, chunk);
      dirty := true;
      BelowAnd(cells, window, at, chunk);
    }

    /** The next window's share of a program, and what the plain device would make of it. */
    method ProgramWindow(block: nat, off: nat, data: seq<byte>) returns (take: nat)
      requires Valid() && block < |inner| && off + |data| <= blockSize && |data| > 0
      modifies this, cache
      ensures Valid() && 0 < take <= |data| && |inner| == old(|inner|)
      ensures View() == old(View())[block := AndAt(old(View())[block], off, data[..take])]
    {
      var start := Floor(off, prog);
      var within := off - start;
      GridGap(start, blockSize, prog);
      LoadWindow(block, start);
      take := Min(prog - within, |data|);
      ghost var window := cache[..];
      MergeWindow(within, data[..take]);
      MergeInWindow(inner[block], start, window, within, data[..take]);
    }

    /** `program`: on the plain device, the data ANDed in at `off`. */
    method Program(block: nat, off: nat, data: seq<byte>)
      requires Valid() && block < |inner| && off + |data| <= blockSize
      modifies this, cache
      ensures Valid() && |inner| == old(|inner|)
      ensures View() == old(View())[block := AndAt(old(View())[block], off, data)]
    {
      var written := 0;
      ghost var before := View();
      AndNothing(before[block], off);
      assert data[..0] == [];
      while written < |data|
        invariant Valid() && |inner| == |before| && 0 <= written <= |data|
        invariant View() == before[block := AndAt(before[block], off, data[..written])]
      {
        var take := ProgramWindow(block, off + written, data[written..]);
        AndAdjacent(before[block], off, data[..written], data[written..][..take]);
        assert data[..written] + data[written..][..take] == data[..written + take];
        written := written + take;
      }
      assert data[..written] == data;
    }

    /** `read`: the device's bytes with those of the cached window over them. */
    method Read(block: nat, off: nat, n: nat) returns (bytes: seq<byte>)
      requires Valid() && block < |inner| && off + n <= blockSize
      ensures bytes == View()[block][off..off + n]
    {
      bytes := inner[block][off..off + n];
      if cachedBlock == Some(block) {
        var lo, hi := if off >= cachedOff then off else cachedOff, Min(off + n, cachedOff + prog);
        if lo < hi {
          ReadThrough(inner[block], cachedOff, cache[..], off, n, lo, hi);
          bytes := Overlay(bytes, lo - off, cache[..][lo - cachedOff..hi - cachedOff]);
        } else {
          ReadAside(inner[block], cachedOff, cache[..], off, n);
        }
      }
    }

    /** `read_device`: the device's own bytes, after flushing a pending window that overlaps the request. */
    method ReadDevice(block: nat, off: nat, n: nat) returns (bytes: seq<byte>)
      requires Valid() && block < |inner| && off + n <= blockSize
      modifies this
      ensures Valid() && View() == old(View()) && bytes == inner[block][off..off + n] == View()[block][off..off + n]
    {
      if dirty && cachedBlock == Some(block) && off < cachedOff + prog && cachedOff < off + n {
        Flush();
      } else if cachedBlock.Some? {
        FlushShows(inner, blockSize, prog, cachedBlock.value, cachedOff, cache[..], dirty);
      }
      bytes := inner[block][off..off + n];
    }

    /** `erase`: a cached window of the block is dropped, not flushed. */
    method Erase(block: nat)
      requires Valid() && block < |inner|
      modifies this
      ensures Valid() && View() == old(View())[block := Blank(blockSize)] && calls == old(calls)
    {
      if cachedBlock == Some(block) {
        cachedBlock, dirty := None, false;
      }
      inner := inner[block := Blank(blockSize)];
    }

    /** `sync`: afterwards the device is what was shown. */
    method Sync()
      requires Valid()
      modifies this
      ensures Valid() && View() == old(View()) && inner == View()
    {
      Flush();
    }
  }

  /** Reading what is shown is showing what is read. */
  lemma ReadThrough(image: seq<byte>, at: nat, window: seq<byte>, off: nat, n: nat, lo: nat, hi: nat)
    requires at + |window| <= |image| && off + n <= |image| && lo < hi
    requires lo == (if off >= at then off else at) && hi == Min(off + n, at + |window|)
    ensures Overlay(image[off..off + n], lo - off, window[lo - at..hi - at]) == Overlay(image, at, window)[off..off + n]
  {
    var shown, part := Overlay(image, at, window)[off..off + n], window[lo - at..hi - at];
    var got := Overlay(image[off..off + n], lo - off, part);
    forall i | 0 <= i < n
      ensures got[i] == shown[i]
    {
      assert shown[i] == Overlay(image, at, window)[off + i];
    }
  }

  lemma ReadAside(image: seq<byte>, at: nat, window: seq<byte>, off: nat, n: nat)
    requires at + |window| <= |image| && off + n <= |image| && (off + n <= at || at + |window| <= off || n == 0)
    ensures image[off..off + n] == Overlay(image, at, window)[off..off + n]
  {
    var shown := Overlay(image, at, window)[off..off + n];
    forall i | 0 <= i < n
      ensures image[off..off + n][i] == shown[i]
    {
      assert shown[i] == Overlay(image, at, window)[off + i];
    }
  }

  /** ANDs `chunk` into the buffer in place. */
  method MergeInto(cache: array<byte>, at: nat, chunk: seq<byte>)
    requires at + |chunk| <= cache.Length
    modifies cache
    ensures cache[..] == AndAt(old(cache[..]), at, chunk)
  {
    for i := 0 to |chunk|
      invariant forall j :: 0 <= j < cache.Length ==> cache[j] == if at <= j < at + i then old(cache[j]) & chunk[j - at] else old(cache[j])
    {
      cache[at + i] := cache[at + i] & chunk[i];
    }
  }

  /** Programming the window leaves exactly what was shown. */
  lemma FlushShows(inner: Disk, blockSize: nat, prog: nat, block: nat, off: nat, window: seq<byte>, dirty: bool)
    requires WindowOk(inner, blockSize, prog, Some(block), off, window, dirty)
    ensures var done := inner[block := AndAt(inner[block], off, window)];
            && done == Shown(inner, Some(block), off, window) && Shown(done, Some(block), off, window) == done
            && done[block][off..off + prog] == window && Below(window, window)
            && (!dirty ==> done == inner)
  {
    AndIsOverlay(inner[block], off, window);
    BelowSelf(window);
    var image := Overlay(inner[block], off, window);
    assert image[off..off + prog] == window;
    OverlaySame(image, off, prog);
    if !dirty {
      OverlaySame(inner[block], off, prog);
    }
  }
}
