/**
 The block device contract and the aligned range reader (`src/storage.rs`).

 A device only accepts reads whose offset and length sit on the read grid.
 `ReadRange` serves an arbitrary byte range of one block from such reads.
 */
module Storage {
  import opened Grid
  import opened Words

  /** Every block's bytes, indexed by block address. */
  type Disk = seq<seq<byte>>

  /** `Storage::read`, which accepts only accesses on the read grid. */
  function Read(disk: Disk, unit: nat, block: nat, off: nat, len: nat): (r: Result<seq<byte>>)
    requires OnGrid(off, unit) && OnGrid(len, unit)
    ensures r.Ok? ==> |r.value| == len
  {
    if block < |disk| && off + len <= |disk[block]| then Ok(disk[block][off..off + len]) else Err(Io)
  }

  /** Consecutive device reads, as (offset, length), covering `[lo, hi)` exactly once. */
  ghost predicate Tiles(fetched: seq<(nat, nat)>, lo: nat, hi: nat) {
    if |fetched| == 0 then lo == hi else
    fetched[0].0 == lo && Tiles(fetched[1..], lo + fetched[0].1, hi)
  }

  /** The requested range lies inside a block that is a whole number of windows. */
  predicate InBlock(disk: Disk, unit: nat, block: nat, off: nat, total: nat)
    requires unit > 0
  {
    block < |disk| && off + total <= |disk[block]| && |disk[block]| % unit == 0
  }

  /** The bytes are the block's if the units that cover them lie within it, and otherwise the device fails. */
  predicate Fetched(disk: Disk, unit: nat, block: nat, off: nat, total: nat, r: Result<seq<byte>>)
    requires unit > 0
  {
    if block < |disk| && Ceil(off + total, unit) <= |disk[block]| then off + total <= |disk[block]| && r == Ok(disk[block][off..off + total])
    else r == Err(Io)
  }

  /**
   `read_range`: the bytes `[off, off + total)` of `block`, staged through a
   window of `staging` bytes.

   The device reads tile the run of grid windows covering the range, so no
   window is fetched twice and none without a requested byte; there are at
   most three of them, and one when the window can stage the whole run.
   */
  method ReadRange(disk: Disk, unit: nat, block: nat, off: nat, total: nat, staging: nat)
    returns (r: Result<seq<byte>>, ghost fetched: seq<(nat, nat)>)
    ensures unit == 0 || staging < unit ==> r == Err(GeometryMismatch)
    ensures 0 < unit <= staging && InBlock(disk, unit, block, off, total) ==> r == Ok(disk[block][off..off + total])
    ensures 0 < unit <= staging && total > 0 ==> Fetched(disk, unit, block, off, total, r)
    ensures r.Ok? && total > 0 ==> Tiles(fetched, Floor(off, unit), Ceil(off + total, unit))
    ensures |fetched| <= 3
    ensures r.Ok? && total > 0 && Ceil(off + total, unit) - Floor(off, unit) <= staging ==> |fetched| == 1
  {
    fetched := [];
    if unit == 0 || staging < unit {
      return Err(GeometryMismatch), fetched;
    }
    if total == 0 {
      assert InBlock(disk, unit, block, off, total) ==> disk[block][off..off] == [];
      return Ok([]), fetched;
    }
    if InBlock(disk, unit, block, off, total) {
      OnGridMod(|disk[block]|, unit);
      CeilWithin(off + total, |disk[block]|, unit);
    }
    if off % unit == 0 && total % unit == 0 {
      AlignedRange(off, total, unit);
      return Read(disk, unit, block, off, total), [(off, total)];
    }
    var base, top := Floor(off, unit), Ceil(off + total, unit);
    if top - base <= staging {
      GridSum(top, base, unit);
      fetched := [(base, top - base)];
      r := Read(disk, unit, block, base, top - base);
      if r.Ok? {
        SliceOfSlice(disk[block], base, top, off - base, off - base + total);
        r := Ok(r.value[off - base..off - base + total]);
      }
      return;
    }
    r, fetched := ReadFragments(disk, unit, block, off, total);
  }

  lemma AlignedRange(off: nat, total: nat, unit: nat)
    requires unit > 0 && off % unit == 0 && total % unit == 0
    ensures OnGrid(off, unit) && OnGrid(total, unit)
    ensures Floor(off, unit) == off && Ceil(off + total, unit) == off + total
  {
    OnGridMod(off, unit);
    OnGridMod(total, unit);
    GridSum(off, total, unit);
    FloorUnique(off, off, unit);
    CeilUnique(off + total, off + total, unit);
  }

  /** The path of `read_range` for a range wider than the staging window. */
  method ReadFragments(disk: Disk, unit: nat, block: nat, off: nat, total: nat)
    returns (r: Result<seq<byte>>, ghost fetched: seq<(nat, nat)>)
    requires total > 0 && unit > 0
    ensures Fetched(disk, unit, block, off, total, r)
    ensures r.Ok? ==> Tiles(fetched, Floor(off, unit), Ceil(off + total, unit))
    ensures |fetched| <= 3
  {
    var base := Floor(off, unit);
    if base == off {
      r, fetched := ReadFromGrid(disk, unit, block, off, total);
      return;
    }
    GridGap(base, Ceil(off + total, unit), unit);
    UnitOnGrid(unit);
    GridSum(base, unit, unit);
    r := Read(disk, unit, block, base, unit);
    fetched := [(base, unit)];
    if r.Err? {
      return;
    }
    var take := Min(base + unit - off, total);
    SliceOfSlice(disk[block], base, base + unit, off - base, off - base + take);
    var head := r.value[off - base..off - base + take];
    if take == total {
      CeilUnique(off + total, base + unit, unit);
      return Ok(head), fetched;
    }
    ghost var rest;
    r, rest := ReadFromGrid(disk, unit, block, base + unit, total - take);
    fetched := fetched + rest;
    assert fetched[1..] == rest;
    if r.Ok? {
      if off + total <= |disk[block]| {
        SliceJoin(disk[block], off, base + unit, off + total);
      }
      r := Ok(head + r.value);
    }
  }

  /** The aligned interior, then the trailing window. */
  method ReadFromGrid(disk: Disk, unit: nat, block: nat, pos: nat, total: nat)
    returns (r: Result<seq<byte>>, ghost fetched: seq<(nat, nat)>)
    requires total > 0 && unit > 0 && OnGrid(pos, unit)
    ensures Fetched(disk, unit, block, pos, total, r)
    ensures r.Ok? ==> Tiles(fetched, pos, Ceil(pos + total, unit))
    ensures |fetched| <= 2
  {
    var whole := Floor(total, unit);
    UnitOnGrid(unit);
    GridSum(pos, whole, unit);
    GridSum(pos + whole, unit, unit);
    var interior := [];
    fetched := [];
    if whole != 0 {
      r := Read(disk, unit, block, pos, whole);
      fetched := [(pos, whole)];
      if r.Err? {
        return;
      }
      interior := r.value;
    }
    if whole == total {
      CeilUnique(pos + total, pos + whole, unit);
      return;
    }
    CeilUnique(pos + total, pos + whole + unit, unit);
    r := Read(disk, unit, block, pos + whole, unit);
    ghost var last := [(pos + whole, unit)];
    fetched := fetched + last;
    assert Tiles(last, pos + whole, pos + whole + unit);
    assert whole != 0 ==> fetched[1..] == last;
    if r.Ok? {
      SliceOfSlice(disk[block], pos + whole, pos + whole + unit, 0, total - whole);
      SliceJoin(disk[block], pos, pos + whole, pos + total);
      assert whole == 0 ==> disk[block][pos..pos + whole] == interior;
      r := Ok(interior + r.value[0..total - whole]);
    }
  }
}
