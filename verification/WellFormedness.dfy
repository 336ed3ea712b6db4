/**
 Every commit keeps the log well formed: an entry's tags name an entry that
 exists, so the backward attribute walk stays exact after any history.
 */
module WellFormedness {
  import opened Words
  import opened Directory
  import opened Attributes
  import opened Operations
  import opened Compaction
  import opened Rebuild
  import Split

  /** From roster `r`, every tag of `items` applies and names an existing entry. */
  predicate Steps(r: Roster, items: seq<Item>)
    requires Sound(r)
  {
    items == [] ||
    (var init, last := items[..|items| - 1], items[|items| - 1];
     && Steps(r, init)
     && Replay(r, init).Ok? && Within(last, Replay(r, init).value.count) && Apply(Replay(r, init).value, last).Ok?)
  }

  lemma StepsReplay(r: Roster, items: seq<Item>)
    requires Sound(r) && Steps(r, items)
    ensures Replay(r, items).Ok?
  {
  }

  lemma {:induction false} StepsConcat(r: Roster, a: seq<Item>, b: seq<Item>)
    requires Sound(r) && Steps(r, a) && Replay(r, a).Ok? && Steps(Replay(r, a).value, b)
    ensures Steps(r, a + b)
  {
    if b == [] {
      assert a + b == a;
    } else {
      var init := b[..|b| - 1];
      StepsConcat(r, a, init);
      ReplayConcat(r, a, init);
      assert (a + b)[..|a + b| - 1] == a + init;
    }
  }

  /** Stepping on from a well-formed log keeps it well formed. */
  lemma {:induction false} WellFormedConcat(cap: nat, log: seq<Item>, k: nat, items: seq<Item>)
    requires WellFormed(cap, log, k) && k <= |log| && Replay(Fresh(cap), log).Ok? && Steps(Replay(Fresh(cap), log).value, items)
    ensures WellFormed(cap, log + items, k)
  {
    if items == [] {
      assert log + items == log;
    } else {
      var init := items[..|items| - 1];
      WellFormedConcat(cap, log, k, init);
      ReplayConcat(Fresh(cap), log, init);
      assert (log + items)[..|log + items| - 1] == log + init;
    }
  }

  /** Tags of the one entry `id`. */
  predicate OnlyOf(items: seq<Item>, id: nat) {
    forall i :: 0 <= i < |items| ==> (items[i].Name? || items[i].Struct? || items[i].Attr?) && items[i].id == id
  }

  lemma {:induction false} OnlyOfSteps(r: Roster, items: seq<Item>, id: nat)
    requires Sound(r) && id < r.count && OnlyOf(items, id)
    ensures Steps(r, items) && Replay(r, items).Ok? && Replay(r, items).value.count == r.count
  {
    if items != [] {
      OnlyOfSteps(r, items[..|items| - 1], id);
    }
  }

  /** A Create at the end of the listing and then only tags of the new entry. */
  lemma NewEntrySteps(r: Roster, items: seq<Item>)
    requires Sound(r) && r.count < |r.slots| && |items| > 0 && items[0] == Create(r.count) && OnlyOf(items[1..], r.count)
    ensures Steps(r, items)
  {
    var a := Apply(r, items[0]).value;
    ReplayOne(r, items[0]);
    assert [items[0]][..0] == [] && Steps(r, []);
    OnlyOfSteps(a, items[1..], r.count);
    StepsConcat(r, [items[0]], items[1..]);
    assert [items[0]] + items[1..] == items;
  }

  lemma EntryItemsShape(id: nat, title: Title, content: Content, pairs: seq<Value>)
    ensures var items := EntryItems(id, title, content, pairs);
            |items| > 0 && items[0] == Create(id) && OnlyOf(items[1..], id)
  {
  }

  lemma EmitSlotShape(id: nat, title: Title, content: Content, pairs: seq<Value>, plan: Plan)
    ensures var items := EmitSlot(id, title, content, pairs, plan);
            |items| > 0 && items[0] == Create(id) && OnlyOf(items[1..], id)
  {
  }

  lemma EmitOpSteps(r: Roster, op: WriteOp)
    requires Sound(r) && Fits(op, r.count, |r.slots|)
    ensures Steps(r, EmitOp(op))
  {
    if Adds(op) {
      EntryItemsShape(op.id, NewTitle(op), NewContent(op), op.moved);
      NewEntrySteps(r, EmitOp(op));
    } else if op.Remove? {
      assert EmitOp(op)[..0] == [] && Steps(r, []);
    } else if !op.Noop? {
      OnlyOfSteps(r, EmitOp(op), op.id);
    }
  }

  lemma {:induction false} StateOnlySteps(r: Roster, items: seq<Item>)
    requires Sound(r) && StateOnly(items)
    ensures Steps(r, items)
  {
    if items != [] {
      StateOnlySteps(r, items[..|items| - 1]);
      ReplayStateOnly(r, items[..|items| - 1]);
    }
  }

  lemma TailedSteps(r: Roster, entries: seq<Item>, move: Option<seq<byte>>, relocate: Option<seq<byte>>, tail: Option<Thread>)
    requires Sound(r) && Steps(r, entries)
    ensures Steps(r, Tailed(entries, move, relocate, tail))
  {
    StepsReplay(r, entries);
    StateOnlySteps(Replay(r, entries).value, States(move, relocate, tail));
    StepsConcat(r, entries, States(move, relocate, tail));
  }

  /** An append keeps the log well formed. */
  lemma AppendWellFormed(cap: nat, log: seq<Item>, k: nat, q: Request)
    requires WellFormed(cap, log, k) && k <= |log| && Readable(cap, log) && Sized(q)
    requires Fits(q.op, |ViewOf(cap, log).listing|, cap)
    ensures WellFormed(cap, log + AppendItems(ViewOf(cap, log), q), k)
  {
    var v, r := ViewOf(cap, log), Replay(Fresh(cap), log).value;
    EmitOpSteps(r, q.op);
    TailedSteps(r, EmitOp(q.op),
                if q.move.Some? then Some(Folded(v.move, q.move)) else None,
                if q.relocate.Some? then Some(Folded(v.relocate, q.relocate)) else None,
                q.tail);
    WellFormedConcat(cap, log, k, AppendItems(v, q));
  }

  ghost predicate EmitsSteps(emit: (nat, nat) -> Result<seq<Item>>, i: nat) {
    forall r :: Sound(r) && r.count < |r.slots| && emit(i, r.count).Ok? ==> Steps(r, emit(i, r.count).value)
  }

  lemma {:induction false} EmissionSteps(cap: nat, emit: (nat, nat) -> Result<seq<Item>>, list: nat -> seq<Slot>, lo: nat, hi: nat)
    requires lo <= hi && hi - lo <= cap && Emission(emit, list, lo, hi).Ok?
    requires forall i :: lo <= i < hi ==> EmitsListed(emit, list, i) && |list(i)| <= 1
    requires forall i :: lo <= i < hi ==> EmitsSteps(emit, i)
    ensures Steps(Fresh(cap), Emission(emit, list, lo, hi).value)
  {
    if hi > lo {
      EmissionSteps(cap, emit, list, lo, hi - 1);
      ReplayEmission(cap, emit, list, lo, hi - 1);
      JoinedLength(list, lo, hi - 1);
      assert EmitsSteps(emit, hi - 1);
      StepsOnward(cap, Emission(emit, list, lo, hi - 1).value, emit, hi - 1, |Joined(list, lo, hi - 1)|);
    }
  }

  lemma StepsOnward(cap: nat, items: seq<Item>, emit: (nat, nat) -> Result<seq<Item>>, i: nat, id: nat)
    requires Steps(Fresh(cap), items) && Readable(cap, items) && Replay(Fresh(cap), items).value.count == id < cap
    requires EmitsSteps(emit, i) && emit(i, id).Ok?
    ensures Steps(Fresh(cap), items + emit(i, id).value)
  {
    StepsConcat(Fresh(cap), items, emit(i, id).value);
  }

  lemma EmitAtSteps(r: Roster, log: seq<Item>, listing: seq<Slot>, op: WriteOp, i: nat)
    requires Sound(r) && r.count < |r.slots| && EmitAt(log, listing, op, i, r.count).Ok?
    ensures Steps(r, EmitAt(log, listing, op, i, r.count).value)
  {
    if i < |listing| && !SlotPlan(op, i).dropped {
      EmitSlotShape(r.count, listing[i].title.value, listing[i].content.value, Emitted(log, i, {}), SlotPlan(op, i));
      NewEntrySteps(r, EmitAt(log, listing, op, i, r.count).value);
    } else if i == |listing| && Adds(op) {
      EntryItemsShape(r.count, NewTitle(op), NewContent(op), op.moved);
      NewEntrySteps(r, EmitAt(log, listing, op, i, r.count).value);
    }
  }

  /** A range of the listing steps from an empty pair. */
  lemma RangeSteps(cap: nat, log: seq<Item>, listing: seq<Slot>, op: WriteOp, lo: nat, hi: nat)
    requires Reflects(log, listing) && lo <= hi && hi - lo <= cap && EmitRange(log, listing, op, lo, hi).Ok?
    ensures Steps(Fresh(cap), EmitRange(log, listing, op, lo, hi).value)
  {
    var emit, list := Emitter(log, listing, op), Lister(op, listing);
    forall i: nat
      ensures EmitsListed(emit, list, i) && |list(i)| <= 1 && EmitsSteps(emit, i)
    {
      AtEmitsListed(log, listing, op, i);
      forall r | Sound(r) && r.count < |r.slots| && emit(i, r.count).Ok?
        ensures Steps(r, emit(i, r.count).value)
      {
        EmitAtSteps(r, log, listing, op, i);
      }
    }
    EmissionSteps(cap, emit, list, lo, hi);
  }

  /** Entries that step from an empty pair make a well-formed block of their own, whatever state follows them. */
  lemma BlockWellFormed(cap: nat, entries: seq<Item>, move: Option<seq<byte>>, relocate: Option<seq<byte>>, tail: Option<Thread>)
    requires Steps(Fresh(cap), entries)
    ensures WellFormed(cap, Tailed(entries, move, relocate, tail), 0)
  {
    var all := Tailed(entries, move, relocate, tail);
    TailedSteps(Fresh(cap), entries, move, relocate, tail);
    assert Replay(Fresh(cap), []) == Ok(Fresh(cap));
    WellFormedConcat(cap, [], 0, all);
    assert [] + all == all;
  }

  /** A rebuilt block is well formed without any prefix. */
  lemma RebuildWellFormed(cap: nat, log: seq<Item>, k: nat, q: Request)
    requires WellFormed(cap, log, k) && Readable(cap, log) && Sized(q) && Fits(q.op, |ViewOf(cap, log).listing|, cap)
    requires RebuildItems(log, ViewOf(cap, log), q).Ok?
    ensures WellFormed(cap, RebuildItems(log, ViewOf(cap, log), q).value, 0)
  {
    var v := ViewOf(cap, log);
    var total := Total(q.op, v.listing);
    ListingReflects(cap, log, k);
    RangeSteps(cap, log, v.listing, q.op, 0, total);
    BlockWellFormed(cap, EmitRange(log, v.listing, q.op, 0, total).value,
                    NonZero(Folded(v.move, q.move)), NonZero(Folded(v.relocate, q.relocate)), KeptTail(v, q));
  }

  /** Every block a split writes is well formed: each continuation, and the pair's own. */
  lemma SplitWellFormed(cap: nat, log: seq<Item>, v: View, q: Request, lo: nat, hi: nat, tail: Option<Thread>, cont: BlockPair)
    requires Split.Splittable(cap, log, v, q) && lo <= hi && hi - lo <= cap && EmitRange(log, v.listing, q.op, lo, hi).Ok?
    ensures WellFormed(cap, Split.ContinuationItems(EmitRange(log, v.listing, q.op, lo, hi).value, tail), 0)
    ensures WellFormed(cap, Split.LowerItems(EmitRange(log, v.listing, q.op, lo, hi).value, v, q, cont), 0)
  {
    var entries := EmitRange(log, v.listing, q.op, lo, hi).value;
    RangeSteps(cap, log, v.listing, q.op, lo, hi);
    BlockWellFormed(cap, entries, None, None, Split.WrittenTail(tail));
    BlockWellFormed(cap, entries, NonZero(Folded(v.move, q.move)), NonZero(Folded(v.relocate, q.relocate)), Some(Thread(cont, true)));
  }
}
