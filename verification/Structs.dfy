/**
 The layouts that bear blocks (`gather_live_structs` in `src/alloc.rs`): what
 the allocator's scan keeps of each live entry.

 The scan declares one array for all the pairs it visits and the function never
 clears it, so it starts from whatever the earlier pairs left there. `start` is
 that array throughout: no statement assumes it empty.
 */
module Structs {
  import opened Words
  import opened Attributes
  import opened Directory

  /** A layout that names blocks: a chain or a pair in eight bytes. */
  predicate Bears(c: Content) {
    (c.layout.Ctz? || c.layout.Pair?) && |c.body| == 8
  }

  function BearingOf(c: Option<Content>): Option<Content> {
    if c.Some? && Bears(c.value) then c else None
  }

  datatype Record = Record(slots: seq<Option<Content>>, count: nat)

  predicate InRange(r: Record) {
    r.count <= |r.slots|
  }

  /** One tag: splices as everywhere, and only block-bearing layouts stored. */
  function StructStep(r: Record, item: Item): (t: Result<Record>)
    requires InRange(r)
    ensures t.Ok? ==> InRange(t.value) && |t.value.slots| == |r.slots|
  {
    match item
    case Create(id) =>
      if r.count >= |r.slots| then Err(OutOfRange)
      else if id > r.count then Err(Corrupt)
      else Ok(Record(Inserted(r.slots, r.count, id, None), r.count + 1))
    case Delete(id) =>
      if id >= r.count then Err(Corrupt)
      else Ok(Record(Removed(r.slots, r.count, id, None), r.count - 1))
    case Name(id, _, _) =>
      if id >= |r.slots| then Err(OutOfRange) else Ok(r.(count := if id >= r.count then id + 1 else r.count))
    case Struct(id, layout, body) =>
      if id < |r.slots| && Bears(Content(layout, body)) then Ok(r.(slots := r.slots[id := Some(Content(layout, body))])) else Ok(r)
    case _ => Ok(r)
  }

  function Gather(r: Record, log: seq<Item>): (t: Result<Record>)
    requires InRange(r)
    ensures t.Ok? ==> InRange(t.value) && |t.value.slots| == |r.slots|
  {
    if log == [] then Ok(r)
    else
      match Gather(r, log[..|log| - 1])
      case Err(e) => Err(e)
      case Ok(s) => StructStep(s, log[|log| - 1])
  }

  function Nothing(cap: nat): (r: Record)
    ensures InRange(r) && |r.slots| == cap && r.count == 0 && forall i :: 0 <= i < cap ==> r.slots[i] == None
  {
    Record(seq(cap, i => None), 0)
  }

  /** The empty listing over a slot array nobody cleared. */
  function From(start: seq<Option<Content>>): (r: Record)
    ensures InRange(r)
  {
    Record(start, 0)
  }

  // ---- What an earlier pair leaves behind ------------------------------------------------

  /** `d` holds what `b` holds, and where `b` holds nothing maybe a leftover from `start`. */
  predicate Leaves(start: seq<Option<Content>>, d: Record, b: Record) {
    && d.count == b.count && |d.slots| == |b.slots|
    && forall i :: 0 <= i < |d.slots| ==> d.slots[i] == b.slots[i] || (b.slots[i] == None && d.slots[i] in start)
  }

  lemma LeavesStep(start: seq<Option<Content>>, d: Record, b: Record, item: Item)
    requires InRange(d) && InRange(b) && Leaves(start, d, b)
    ensures match StructStep(b, item)
            case Err(e) => StructStep(d, item) == Err(e)
            case Ok(t) => StructStep(d, item).Ok? && Leaves(start, StructStep(d, item).value, t)
  {
  }

  /** Whatever the array held, the outcome and the count are the log's own, and so is every slot the log filled. */
  lemma {:induction false} GatherLeaves(start: seq<Option<Content>>, log: seq<Item>)
    ensures match Gather(Nothing(|start|), log)
            case Err(e) => Gather(From(start), log) == Err(e)
            case Ok(b) => Gather(From(start), log).Ok? && Leaves(start, Gather(From(start), log).value, b)
  {
    if log != [] {
      var init := log[..|log| - 1];
      GatherLeaves(start, init);
      if Gather(Nothing(|start|), init).Ok? {
        LeavesStep(start, Gather(From(start), init).value, Gather(Nothing(|start|), init).value, log[|log| - 1]);
      }
    }
  }

  /** No layout waits in a slot beyond the count. */
  predicate NothingParked(r: Record) {
    forall i :: r.count <= i < |r.slots| ==> r.slots[i] == None
  }

  /**
   In a well-formed log only the compacted prefix can park a layout ahead of its
   name; if it leaves none behind, the log leaves none beyond its count, so what
   it hands to the next pair is what it gathered.
   */
  lemma {:induction false} WellFormedParksNothing(cap: nat, log: seq<Item>, k: nat)
    requires WellFormed(cap, log, k) && k <= |log| && Gather(Nothing(cap), log[..k]).Ok?
    requires NothingParked(Gather(Nothing(cap), log[..k]).value)
    ensures Gather(Nothing(cap), log).Ok? ==> NothingParked(Gather(Nothing(cap), log).value)
  {
    if |log| == k {
      assert log[..k] == log;
    } else {
      var init := log[..|log| - 1];
      assert init[..k] == log[..k];
      WellFormedParksNothing(cap, init, k);
      GatherCovers(Nothing(cap).slots, init);
      assert Nothing(cap) == From(Nothing(cap).slots);
    }
  }

  // ---- Against the listing --------------------------------------------------------------

  /** Every block-bearing layout of the listing is the one gathered. */
  predicate Covers(b: Record, r: Roster) {
    && b.count == r.count && |b.slots| == |r.slots|
    && forall i :: 0 <= i < |r.slots| ==> (BearingOf(r.slots[i].content).Some? ==> b.slots[i] == r.slots[i].content)
  }

  /** Exactly the block-bearing layouts of the live entries are gathered. */
  predicate Exact(b: Record, r: Roster)
    requires InRange(b) && Sound(r)
  {
    && b.count == r.count && |b.slots| == |r.slots|
    && forall i :: 0 <= i < r.count ==> b.slots[i] == BearingOf(r.slots[i].content)
  }

  lemma CoversStep(b: Record, r: Roster, item: Item)
    requires InRange(b) && Sound(r) && Covers(b, r)
    ensures match Apply(r, item)
            case Err(e) => StructStep(b, item) == Err(e)
            case Ok(t) => StructStep(b, item).Ok? && Covers(StructStep(b, item).value, t)
  {
  }

  /** On every log, from every array, the scan sees each live chain and each live directory. */
  lemma {:induction false} GatherCovers(start: seq<Option<Content>>, log: seq<Item>)
    ensures match Replay(Fresh(|start|), log)
            case Err(e) => Gather(From(start), log) == Err(e)
            case Ok(r) => Gather(From(start), log).Ok? && Covers(Gather(From(start), log).value, r)
  {
    if log != [] {
      var init := log[..|log| - 1];
      GatherCovers(start, init);
      if Replay(Fresh(|start|), init).Ok? {
        CoversStep(Gather(From(start), init).value, Replay(Fresh(|start|), init).value, log[|log| - 1]);
      }
    }
  }

  /**
   The tag lets a layout linger: it takes the blocks away from a live entry, or it
   raises the count over a slot that holds a layout where the log has parked none.
   */
  predicate Lingers(b: Record, r: Roster, item: Item)
    requires |b.slots| == |r.slots|
  {
    match item
    case Struct(id, layout, body) =>
      id < r.count && id < |b.slots| && !Bears(Content(layout, body)) && b.slots[id].Some?
    case Name(id, _, _) =>
      exists j :: r.count <= j <= id && j < |b.slots| && b.slots[j].Some? && BearingOf(r.slots[j].content) == None
    case _ => false
  }

  /** No tag of the log, read into the array `start`, lets a layout linger. */
  predicate NeverLingers(start: seq<Option<Content>>, log: seq<Item>) {
    log == [] || (NeverLingers(start, log[..|log| - 1]) && !LingersAfter(start, log[..|log| - 1], log[|log| - 1]))
  }

  predicate LingersAfter(start: seq<Option<Content>>, init: seq<Item>, item: Item) {
    Gather(From(start), init).Ok? && Replay(Fresh(|start|), init).Ok? &&
    |Replay(Fresh(|start|), init).value.slots| == |start| &&
    Lingers(Gather(From(start), init).value, Replay(Fresh(|start|), init).value, item)
  }

  lemma ExactStep(b: Record, r: Roster, item: Item)
    requires InRange(b) && Sound(r) && Exact(b, r) && Covers(b, r) && Apply(r, item).Ok?
    ensures StructStep(b, item).Ok? && Sound(Apply(r, item).value)
    ensures Exact(StructStep(b, item).value, Apply(r, item).value) <==> !Lingers(b, r, item)
  {
    var b', r' := StructStep(b, item).value, Apply(r, item).value;
    if Lingers(b, r, item) {
      if item.Name? {
        var j :| r.count <= j <= item.id && j < |b.slots| && b.slots[j].Some? && BearingOf(r.slots[j].content) == None;
        assert b'.slots[j] != BearingOf(r'.slots[j].content);
      } else {
        assert b'.slots[item.id] != BearingOf(r'.slots[item.id].content);
      }
    }
  }

  /** The gathered layouts are exact after every tag of the log. */
  ghost predicate ExactThroughout(start: seq<Option<Content>>, log: seq<Item>) {
    forall n :: 0 <= n <= |log| ==> ExactAfter(start, log[..n])
  }

  predicate ExactAfter(start: seq<Option<Content>>, log: seq<Item>) {
    Replay(Fresh(|start|), log).Ok? && Gather(From(start), log).Ok?
    ==> Exact(Gather(From(start), log).value, Replay(Fresh(|start|), log).value)
  }

  /**
   The scan keeps a superseded chain when an entry's layout stops bearing blocks,
   and a leftover one when the count grows over it; without such tags, and only
   then, it is exact at every point.
   */
  lemma {:induction false} ExactIffNeverLingers(start: seq<Option<Content>>, log: seq<Item>)
    requires Replay(Fresh(|start|), log).Ok?
    ensures ExactThroughout(start, log) <==> NeverLingers(start, log)
  {
    assert log[..|log|] == log;
    GatherCovers(start, log);
    if log == [] {
      assert ExactAfter(start, []);
    } else {
      var init, last := log[..|log| - 1], log[|log| - 1];
      ExactIffNeverLingers(start, init);
      GatherCovers(start, init);
      PrefixesOf(start, log);
      if ExactThroughout(start, init) {
        assert init[..|init|] == init;
        assert ExactAfter(start, init);
        ExactStep(Gather(From(start), init).value, Replay(Fresh(|start|), init).value, last);
      }
    }
  }

  lemma PrefixesOf(start: seq<Option<Content>>, log: seq<Item>)
    requires log != []
    ensures ExactThroughout(start, log) <==> ExactThroughout(start, log[..|log| - 1]) && ExactAfter(start, log)
  {
    var init := log[..|log| - 1];
    assert log[..|log|] == log;
    forall n | 0 <= n <= |init|
      ensures init[..n] == log[..n]
    {
    }
  }

  /** An inline rewrite of a chain file leaves the old chain gathered. */
  lemma StaleChainExample(name: seq<byte>, body: seq<byte>)
    requires |body| == 8
    ensures var log := [Create(0), Name(0, Regular, name), Struct(0, Ctz, body), Struct(0, Inline, [])];
            && Replay(Fresh(1), log).Ok? && Replay(Fresh(1), log).value.slots[0].content == Some(Content(Inline, []))
            && Gather(From([None]), log).Ok? && Gather(From([None]), log).value.slots[0] == Some(Content(Ctz, body))
  {
    var log := [Create(0), Name(0, Regular, name), Struct(0, Ctz, body), Struct(0, Inline, [])];
    assert log[..3][..2] == log[..2] && log[..2][..1] == log[..1] && log[..1][..0] == [];
    assert Gather(From([None]), []) == Ok(From([None])) && Replay(Fresh(1), []) == Ok(Fresh(1));
    assert Gather(From([None]), log[..1]).Ok? && Replay(Fresh(1), log[..1]).Ok?;
    assert Gather(From([None]), log[..2]).Ok? && Replay(Fresh(1), log[..2]).Ok?;
    assert Gather(From([None]), log[..3]).Ok? && Replay(Fresh(1), log[..3]).Ok?;
    assert log[..4] == log && log[..4][..3] == log[..3];
  }

  /**
   One array for two pairs: a compacted log, which names its entries without
   creating them, reads its inline file into a slot where an earlier pair left a
   chain, and the chain is gathered as that file's.
   */
  lemma SharedArrayExample(name: seq<byte>, body: seq<byte>)
    requires |body| == 8
    ensures var start, log := [Some(Content(Ctz, body))], [Name(0, Regular, name), Struct(0, Inline, [])];
            && Replay(Fresh(1), log).Ok? && Replay(Fresh(1), log).value.slots[0].content == Some(Content(Inline, []))
            && Gather(From(start), log) == Ok(Record(start, 1)) && Gather(From([None]), log) == Ok(Record([None], 1))
            && NeverLingers([None], log) && !NeverLingers(start, log)
  {
    var start, log := [Some(Content(Ctz, body))], [Name(0, Regular, name), Struct(0, Inline, [])];
    assert log[..1][..0] == [] && log[..1] == [Name(0, Regular, name)] && log[..2] == log;
    assert Replay(Fresh(1), []) == Ok(Fresh(1)) && Gather(From(start), []) == Ok(From(start));
    assert Gather(From([None]), []) == Ok(From([None]));
    assert Replay(Fresh(1), log[..1]).Ok? && Gather(From(start), log[..1]) == Ok(Record(start, 1));
    assert Gather(From([None]), log[..1]) == Ok(Record([None], 1));
    assert Lingers(From(start), Fresh(1), log[0]) by {
      assert start[0].Some? && BearingOf(Fresh(1).slots[0].content) == None;
    }
    assert LingersAfter(start, [], log[0]);
    assert !LingersAfter([None], [], log[0]);
    assert !LingersAfter([None], log[..1], log[1]) by {
      assert Gather(From([None]), log[..1]).value.slots[0] == None && log[1] == Struct(0, Inline, []);
    }
    assert log[..1][0] == log[0] && NeverLingers([None], []) && NeverLingers(start, []);
    assert NeverLingers([None], log[..1]) && !NeverLingers(start, log[..1]);
  }

  // ---- In place -----------------------------------------------------------------------------

  /** `gather_live_structs`, into an array that it does not clear. */
  method GatherLiveStructs(log: seq<Item>, slots: array<Option<Content>>) returns (e: Option<Error>, count: nat)
    modifies slots
    ensures match Gather(From(old(slots[..])), log)
            case Err(x) => e == Some(x)
            case Ok(t) => e == None && count == t.count && slots[..] == t.slots
  {
    count := 0;
    ghost var start := slots[..];
    ghost var r := From(start);
    for i := 0 to |log|
      invariant Gather(From(start), log[..i]) == Ok(r) && InRange(r) && r.count == count && slots[..] == r.slots
    {
      assert log[..i + 1][..i] == log[..i];
      var s, n := SpliceStep(slots, count, None, log[i]);
      if s.Err? {
        FailsOnward(From(start), log, i + 1);
        return Some(s.error), count;
      }
      count := n;
      if s.value.Plain? && log[i].Struct? && log[i].id < slots.Length && Bears(Content(log[i].layout, log[i].body)) {
        slots[log[i].id] := Some(Content(log[i].layout, log[i].body));
      }
      r := StructStep(r, log[i]).value;
    }
    e := None;
    assert log[..|log|] == log;
  }

  lemma {:induction false} FailsOnward(r: Record, log: seq<Item>, n: nat)
    requires InRange(r) && n <= |log| && Gather(r, log[..n]).Err?
    ensures Gather(r, log) == Gather(r, log[..n])
  {
    if n == |log| {
      assert log[..n] == log;
    } else {
      assert log[..|log| - 1][..n] == log[..n];
      FailsOnward(r, log[..|log| - 1], n);
    }
  }
}
