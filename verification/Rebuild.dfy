/**
 Append or rebuild (`apply_op_to_pair_inner`, `build_compact_commit` in
 `src/fs.rs`): the two ways to commit a write mean the same thing.
 */
module Rebuild {
  import opened Words
  import opened Directory
  import opened Attributes
  import opened Operations
  import opened Compaction

  // ---- Folding global state ---------------------------------------------------------------

  function XorBytes(a: seq<byte>, b: seq<byte>): (s: seq<byte>)
    requires |a| == |b|
    ensures |s| == |a|
  {
    seq(|a|, i requires 0 <= i < |a| => a[i] ^ b[i])
  }

  const MOVE_SIZE: nat := 12
  const RELOCATE_SIZE: nat := 16

  // ---- What a log says ----------------------------------------------------------------------

  function MoveIn(item: Item): Option<seq<byte>> {
    if item.Move? && |item.state| == MOVE_SIZE then Some(item.state) else None
  }

  function RelocateIn(item: Item): Option<seq<byte>> {
    if item.Relocate? && |item.state| == RELOCATE_SIZE then Some(item.state) else None
  }

  function TailIn(item: Item): Option<Thread> {
    if item.Tail? then Some(Thread(item.pair, item.hard)) else None
  }

  function OrElse<T>(o: Option<T>, d: T): T {
    if o.Some? then o.value else d
  }

  /** A null pair ends the thread exactly as no tail does. */
  function Collapse(t: Option<Thread>): Option<Thread> {
    if t.Some? && t.value.pair.IsNull() then None else t
  }

  /** `scan_pair_move_state`: the latest total, zero when there is none. */
  function MoveTotal(log: seq<Item>): (s: seq<byte>)
    ensures |s| == MOVE_SIZE
  {
    LatestSized(MoveIn, log, MOVE_SIZE);
    OrElse(Latest(MoveIn, log), Zeros(MOVE_SIZE))
  }

  function RelocateTotal(log: seq<Item>): (s: seq<byte>)
    ensures |s| == RELOCATE_SIZE
  {
    LatestSized(RelocateIn, log, RELOCATE_SIZE);
    OrElse(Latest(RelocateIn, log), Zeros(RELOCATE_SIZE))
  }

  lemma {:induction false} LatestSized(f: Item -> Option<seq<byte>>, log: seq<Item>, n: nat)
    requires forall i :: f(i).Some? ==> |f(i).value| == n
    ensures Latest(f, log).Some? ==> |Latest(f, log).value| == n
  {
    if log != [] {
      LatestSized(f, log[..|log| - 1], n);
    }
  }

  /** Everything a reader takes from a pair's log. */
  datatype View = View(listing: seq<Slot>, tail: Option<Thread>, move: seq<byte>, relocate: seq<byte>)

  predicate Readable(cap: nat, log: seq<Item>) {
    Replay(Fresh(cap), log).Ok?
  }

  function ViewOf(cap: nat, log: seq<Item>): (v: View)
    requires Readable(cap, log)
    ensures |v.move| == MOVE_SIZE && |v.relocate| == RELOCATE_SIZE
  {
    View(Live(Replay(Fresh(cap), log).value), Collapse(Latest(TailIn, log)), MoveTotal(log), RelocateTotal(log))
  }

  // ---- One commit -----------------------------------------------------------------------------

  /** A commit: an operation, deltas to the pair's global state, and perhaps a new tail. */
  datatype Request = Request(op: WriteOp, move: Option<seq<byte>>, relocate: Option<seq<byte>>, tail: Option<Thread>)

  predicate Sized(q: Request) {
    (q.move.Some? ==> |q.move.value| == MOVE_SIZE) && (q.relocate.Some? ==> |q.relocate.value| == RELOCATE_SIZE)
  }

  function Folded(total: seq<byte>, delta: Option<seq<byte>>): (s: seq<byte>)
    requires delta.Some? ==> |delta.value| == |total|
    ensures |s| == |total|
  {
    if delta.Some? then XorBytes(total, delta.value) else total
  }

  /** What the commit is meant to do to the pair. */
  function Intended(v: View, q: Request): View
    requires Sized(q) && |v.move| == MOVE_SIZE && |v.relocate| == RELOCATE_SIZE
    requires q.op.Noop? || Adds(q.op) || q.op.id < |v.listing|
  {
    View(Effect(q.op, v.listing), if q.tail.Some? then Collapse(q.tail) else v.tail, Folded(v.move, q.move), Folded(v.relocate, q.relocate))
  }

  /** Entry tags, then whichever state and tail tags are given. */
  function Tailed(entries: seq<Item>, move: Option<seq<byte>>, relocate: Option<seq<byte>>, tail: Option<Thread>): seq<Item> {
    entries + States(move, relocate, tail)
  }

  function States(move: Option<seq<byte>>, relocate: Option<seq<byte>>, tail: Option<Thread>): seq<Item> {
    ((if move.Some? then [Move(move.value)] else [])
     + (if relocate.Some? then [Relocate(relocate.value)] else []))
    + (if tail.Some? then [Tail(tail.value.pair, tail.value.hard)] else [])
  }

  /** The tags an in-place append commits: a changed total is written even when it is zero. */
  function AppendItems(v: View, q: Request): seq<Item>
    requires Sized(q) && |v.move| == MOVE_SIZE && |v.relocate| == RELOCATE_SIZE
  {
    Tailed(EmitOp(q.op),
           if q.move.Some? then Some(Folded(v.move, q.move)) else None,
           if q.relocate.Some? then Some(Folded(v.relocate, q.relocate)) else None,
           q.tail)
  }

  function NonZero(total: seq<byte>): Option<seq<byte>> {
    if total == Zeros(|total|) then None else Some(total)
  }

  /** The tail a rebuilt block carries: a link whose first address is the sentinel is left out. */
  function KeptTail(v: View, q: Request): Option<Thread> {
    var t := if q.tail.Some? then q.tail else v.tail;
    if t.Some? && t.value.pair.a == NO_BLOCK then None else t
  }

  /** `build_compact_commit` over the whole listing: zero totals and an absent tail are left out. */
  function RebuildItems(log: seq<Item>, v: View, q: Request): Result<seq<Item>>
    requires Sized(q) && |v.move| == MOVE_SIZE && |v.relocate| == RELOCATE_SIZE
  {
    match EmitRange(log, v.listing, q.op, 0, Total(q.op, v.listing))
    case Err(e) => Err(e)
    case Ok(items) =>
      Ok(Tailed(items, NonZero(Folded(v.move, q.move)), NonZero(Folded(v.relocate, q.relocate)), KeptTail(v, q)))
  }

  // ---- Views of longer logs --------------------------------------------------------------------

  lemma {:induction false} LatestConcat<T>(f: Item -> Option<T>, a: seq<Item>, b: seq<Item>)
    ensures Latest(f, a + b) == if Latest(f, b).Some? then Latest(f, b) else Latest(f, a)
  {
    if b == [] {
      assert a + b == a;
    } else {
      LatestConcat(f, a, b[..|b| - 1]);
      assert (a + b)[..|a + b| - 1] == a + b[..|b| - 1];
    }
  }

  /** Nothing in `log` is a state or tail tag. */
  predicate EntriesOnly(log: seq<Item>) {
    forall i :: 0 <= i < |log| ==> !log[i].Move? && !log[i].Relocate? && !log[i].Tail?
  }

  predicate StateOnly(log: seq<Item>) {
    forall i :: 0 <= i < |log| ==> log[i].Move? || log[i].Relocate? || log[i].Tail? || log[i].Other?
  }

  lemma {:induction false} LatestNothing<T>(f: Item -> Option<T>, log: seq<Item>)
    requires forall i :: 0 <= i < |log| ==> f(log[i]).None?
    ensures Latest(f, log).None?
  {
    if log != [] {
      LatestNothing(f, log[..|log| - 1]);
    }
  }

  lemma {:induction false} ReplayStateOnly(r: Roster, log: seq<Item>)
    requires Sound(r) && StateOnly(log)
    ensures Replay(r, log) == Ok(r)
  {
    if log != [] {
      ReplayStateOnly(r, log[..|log| - 1]);
    }
  }

  lemma LatestOne<T>(f: Item -> Option<T>, item: Item)
    ensures Latest(f, [item]) == f(item)
  {
    assert [item][..0] == [];
    assert Latest(f, []) == None;
  }

  lemma StatesLatest(move: Option<seq<byte>>, relocate: Option<seq<byte>>, tail: Option<Thread>)
    requires (move.Some? ==> |move.value| == MOVE_SIZE) && (relocate.Some? ==> |relocate.value| == RELOCATE_SIZE)
    ensures var s := States(move, relocate, tail);
            StateOnly(s) && Latest(MoveIn, s) == move && Latest(RelocateIn, s) == relocate && Latest(TailIn, s) == tail
  {
    var m := if move.Some? then [Move(move.value)] else [];
    var r := if relocate.Some? then [Relocate(relocate.value)] else [];
    var t := if tail.Some? then [Tail(tail.value.pair, tail.value.hard)] else [];
    StatesLatestOf(MoveIn, m, r, t);
    StatesLatestOf(RelocateIn, m, r, t);
    StatesLatestOf(TailIn, m, r, t);
  }

  lemma StatesLatestOf<T>(f: Item -> Option<T>, m: seq<Item>, r: seq<Item>, t: seq<Item>)
    requires |m| <= 1 && |r| <= 1 && |t| <= 1
    ensures Latest(f, (m + r) + t) ==
            if t != [] && f(t[0]).Some? then f(t[0])
            else if r != [] && f(r[0]).Some? then f(r[0])
            else if m != [] then f(m[0]) else None
  {
    LatestConcat(f, m + r, t);
    LatestConcat(f, m, r);
    LatestShort(f, m);
    LatestShort(f, r);
    LatestShort(f, t);
  }

  lemma LatestShort<T>(f: Item -> Option<T>, s: seq<Item>)
    requires |s| <= 1
    ensures Latest(f, s) == if s == [] then None else f(s[0])
  {
    if s != [] {
      LatestOne(f, s[0]);
      assert s == [s[0]];
    }
  }

  /** The view of a log followed by entry tags and state tags. */
  lemma ViewTailed(cap: nat, log: seq<Item>, entries: seq<Item>, move: Option<seq<byte>>, relocate: Option<seq<byte>>, tail: Option<Thread>)
    requires (move.Some? ==> |move.value| == MOVE_SIZE) && (relocate.Some? ==> |relocate.value| == RELOCATE_SIZE)
    requires EntriesOnly(entries) && Readable(cap, log) && Replay(Replay(Fresh(cap), log).value, entries).Ok?
    ensures var all := log + Tailed(entries, move, relocate, tail);
            && Readable(cap, all)
            && ViewOf(cap, all) == View(Live(Replay(Replay(Fresh(cap), log).value, entries).value),
                                        if tail.Some? then Collapse(tail) else ViewOf(cap, log).tail,
                                        OrElse(move, MoveTotal(log)), OrElse(relocate, RelocateTotal(log)))
  {
    var s := States(move, relocate, tail);
    StatesLatest(move, relocate, tail);
    assert log + (entries + s) == (log + entries) + s;
    ReplayConcat(Fresh(cap), log, entries);
    ReplayConcat(Fresh(cap), log + entries, s);
    ReplayStateOnly(Replay(Fresh(cap), log + entries).value, s);
    LatestThrough(MoveIn, log, entries, s);
    LatestThrough(RelocateIn, log, entries, s);
    LatestThrough(TailIn, log, entries, s);
  }

  lemma LatestThrough<T>(f: Item -> Option<T>, log: seq<Item>, entries: seq<Item>, s: seq<Item>)
    requires forall i :: 0 <= i < |entries| ==> f(entries[i]).None?
    ensures Latest(f, (log + entries) + s) == if Latest(f, s).Some? then Latest(f, s) else Latest(f, log)
  {
    LatestConcat(f, log + entries, s);
    LatestConcat(f, log, entries);
    LatestNothing(f, entries);
  }

  lemma EmitOpEntriesOnly(op: WriteOp)
    ensures EntriesOnly(EmitOp(op))
  {
  }

  lemma EmitSlotEntriesOnly(id: nat, title: Title, content: Content, pairs: seq<Value>, plan: Plan)
    ensures EntriesOnly(EmitSlot(id, title, content, pairs, plan))
  {
  }

  lemma EmitAtEntriesOnly(log: seq<Item>, listing: seq<Slot>, op: WriteOp, i: nat, id: nat)
    ensures EmitAt(log, listing, op, i, id).Ok? ==> EntriesOnly(EmitAt(log, listing, op, i, id).value)
  {
    if EmitAt(log, listing, op, i, id).Ok? {
      if i < |listing| && !SlotPlan(op, i).dropped {
        EmitSlotEntriesOnly(id, listing[i].title.value, listing[i].content.value, Emitted(log, i, {}), SlotPlan(op, i));
      } else if i == |listing| && Adds(op) {
        EntryItemsEntriesOnly(id, NewTitle(op), NewContent(op), op.moved);
      }
    }
  }

  lemma EntryItemsEntriesOnly(id: nat, title: Title, content: Content, pairs: seq<Value>)
    ensures EntriesOnly(EntryItems(id, title, content, pairs))
  {
  }

  lemma {:induction false} EmissionEntriesOnly(emit: (nat, nat) -> Result<seq<Item>>, list: nat -> seq<Slot>, lo: nat, hi: nat)
    requires lo <= hi && forall i, id: nat :: emit(i, id).Ok? ==> EntriesOnly(emit(i, id).value)
    ensures Emission(emit, list, lo, hi).Ok? ==> EntriesOnly(Emission(emit, list, lo, hi).value)
  {
    if lo < hi {
      EmissionEntriesOnly(emit, list, lo, hi - 1);
    }
  }

  /** An in-place append does what the commit is meant to do. */
  lemma AppendMeansIntended(cap: nat, log: seq<Item>, q: Request)
    requires Readable(cap, log) && Sized(q) && Fits(q.op, |ViewOf(cap, log).listing|, cap)
    ensures var all := log + AppendItems(ViewOf(cap, log), q);
            Readable(cap, all) && ViewOf(cap, all) == Intended(ViewOf(cap, log), q)
  {
    var v := ViewOf(cap, log);
    EmitOpEntriesOnly(q.op);
    AppendMeansEffect(Replay(Fresh(cap), log).value, q.op);
    ViewTailed(cap, log, EmitOp(q.op),
               if q.move.Some? then Some(Folded(v.move, q.move)) else None,
               if q.relocate.Some? then Some(Folded(v.relocate, q.relocate)) else None,
               q.tail);
  }

  lemma RangeEntriesOnly(log: seq<Item>, listing: seq<Slot>, op: WriteOp, lo: nat, hi: nat)
    requires lo <= hi
    ensures EmitRange(log, listing, op, lo, hi).Ok? ==> EntriesOnly(EmitRange(log, listing, op, lo, hi).value)
  {
    var emit := Emitter(log, listing, op);
    forall i: nat, id: nat
      ensures emit(i, id).Ok? ==> EntriesOnly(emit(i, id).value)
    {
      EmitAtEntriesOnly(log, listing, op, i, id);
    }
    EmissionEntriesOnly(emit, Lister(op, listing), lo, hi);
  }

  lemma ListingReflects(cap: nat, log: seq<Item>, k: nat)
    requires WellFormed(cap, log, k) && Readable(cap, log)
    ensures Reflects(log, ViewOf(cap, log).listing)
  {
    var listing := ViewOf(cap, log).listing;
    forall i | 0 <= i < |listing|
      ensures Collected(Emitted(log, i, {})) == listing[i].attrs
    {
      EmittedExact(cap, log, k, i);
    }
  }

  /** The rebuilt entries replay to the operation's effect. */
  lemma RebuiltListing(cap: nat, log: seq<Item>, k: nat, op: WriteOp, listing: seq<Slot>)
    requires WellFormed(cap, log, k) && Readable(cap, log) && listing == ViewOf(cap, log).listing && Fits(op, |listing|, cap)
    requires EmitRange(log, listing, op, 0, Total(op, listing)).Ok?
    ensures var items := EmitRange(log, listing, op, 0, Total(op, listing)).value;
            && EntriesOnly(items) && Replay(Fresh(cap), items).Ok?
            && Live(Replay(Fresh(cap), items).value) == Effect(op, listing)
  {
    var total := Total(op, listing);
    ListingReflects(cap, log, k);
    ReplayRange(cap, log, listing, op, 0, total);
    ListedMeansEffect(op, listing);
    RangeEntriesOnly(log, listing, op, 0, total);
  }

  /** A block of rebuilt entries and state tags reads as those. */
  lemma ViewRebuilt(cap: nat, items: seq<Item>, move: seq<byte>, relocate: seq<byte>, tail: Option<Thread>)
    requires EntriesOnly(items) && Replay(Fresh(cap), items).Ok? && |move| == MOVE_SIZE && |relocate| == RELOCATE_SIZE
    ensures var all := Tailed(items, NonZero(move), NonZero(relocate), tail);
            Readable(cap, all) && ViewOf(cap, all) == View(Live(Replay(Fresh(cap), items).value), Collapse(tail), move, relocate)
  {
    var m, r := NonZero(move), NonZero(relocate);
    assert Replay(Fresh(cap), []) == Ok(Fresh(cap));
    ViewTailed(cap, [], items, m, r, tail);
    assert [] + Tailed(items, m, r, tail) == Tailed(items, m, r, tail);
  }

  /** What a rebuilt block does not spell: a total of zero, and a tail that names no first block. */
  predicate Omits(item: Item) {
    && (item.Move? ==> item.state != Zeros(MOVE_SIZE)) && (item.Relocate? ==> item.state != Zeros(RELOCATE_SIZE))
    && (item.Tail? ==> item.pair.a != NO_BLOCK)
  }

  /** A rebuilt block spells neither. */
  lemma RebuildOmits(log: seq<Item>, v: View, q: Request)
    requires Sized(q) && |v.move| == MOVE_SIZE && |v.relocate| == RELOCATE_SIZE && RebuildItems(log, v, q).Ok?
    ensures forall i :: 0 <= i < |RebuildItems(log, v, q).value| ==> Omits(RebuildItems(log, v, q).value[i])
  {
    var items := EmitRange(log, v.listing, q.op, 0, Total(q.op, v.listing)).value;
    RangeEntriesOnly(log, v.listing, q.op, 0, Total(q.op, v.listing));
    StatesOmit(NonZero(Folded(v.move, q.move)), NonZero(Folded(v.relocate, q.relocate)), KeptTail(v, q));
  }

  lemma StatesOmit(move: Option<seq<byte>>, relocate: Option<seq<byte>>, tail: Option<Thread>)
    requires move != Some(Zeros(MOVE_SIZE)) && relocate != Some(Zeros(RELOCATE_SIZE)) && (tail.Some? ==> tail.value.pair.a != NO_BLOCK)
    ensures forall i :: 0 <= i < |States(move, relocate, tail)| ==> Omits(States(move, relocate, tail)[i])
  {
  }

  /** A rebuild does what the commit is meant to do. */
  lemma RebuildMeansIntended(cap: nat, log: seq<Item>, k: nat, q: Request)
    requires WellFormed(cap, log, k) && Readable(cap, log) && Sized(q) && Fits(q.op, |ViewOf(cap, log).listing|, cap)
    requires RebuildItems(log, ViewOf(cap, log), q).Ok?
    ensures var all := RebuildItems(log, ViewOf(cap, log), q).value;
            Readable(cap, all) && ViewOf(cap, all) == Intended(ViewOf(cap, log), q)
  {
    var v := ViewOf(cap, log);
    var items := EmitRange(log, v.listing, q.op, 0, Total(q.op, v.listing)).value;
    RebuiltListing(cap, log, k, q.op, v.listing);
    ViewRebuilt(cap, items, Folded(v.move, q.move), Folded(v.relocate, q.relocate), KeptTail(v, q));
  }

  /**
   Compaction refines append: whenever the rebuild succeeds, the rebuilt
   block and the old log with the operation appended read the same.
   */
  lemma CompactionRefinesAppend(cap: nat, log: seq<Item>, k: nat, q: Request)
    requires WellFormed(cap, log, k) && Readable(cap, log) && Sized(q) && Fits(q.op, |ViewOf(cap, log).listing|, cap)
    requires RebuildItems(log, ViewOf(cap, log), q).Ok?
    ensures var v := ViewOf(cap, log);
            var appended, rebuilt := log + AppendItems(v, q), RebuildItems(log, v, q).value;
            Readable(cap, appended) && Readable(cap, rebuilt) && ViewOf(cap, rebuilt) == ViewOf(cap, appended)
  {
    AppendMeansIntended(cap, log, q);
    RebuildMeansIntended(cap, log, k, q);
  }
}
