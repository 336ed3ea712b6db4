/**
 Compaction (`slot_plan`, `emit_compact_range`, `build_compact_commit` in
 `src/fs.rs`): rebuilding a directory block from its live entries with an
 operation merged in.
 */
module Compaction {
  import opened Words
  import opened Directory
  import opened Attributes
  import opened Operations

  /** How an operation shows on one rebuilt slot. */
  datatype Plan = Plan(dropped: bool, rename: Option<Title>, content: Option<Content>, suppress: Option<nat>, extra: Option<Value>)

  const UNTOUCHED: Plan := Plan(false, None, None, None, None)

  /** `slot_plan`. */
  function SlotPlan(op: WriteOp, i: nat): Plan {
    if Adds(op) || op.Noop? || op.id != i then UNTOUCHED
    else if Replacement(op).Some? then UNTOUCHED.(content := Replacement(op))
    else
      match op
      case Remove(_) => UNTOUCHED.(dropped := true)
      case Rename(_, kind, name) => UNTOUCHED.(rename := Some(Title(kind, name)))
      case SetAttr(_, a, v) => UNTOUCHED.(suppress := Some(a), extra := Some(Value(a, v)))
      case RemoveAttr(_, a) => UNTOUCHED.(suppress := Some(a))
      case _ => UNTOUCHED
  }

  /** The replayed attributes without the one the operation supersedes. */
  function Without(pairs: seq<Value>, a: Option<nat>): seq<Value> {
    if pairs == [] then []
    else Without(pairs[..|pairs| - 1], a) + (if a == Some(pairs[|pairs| - 1].attr) then [] else [pairs[|pairs| - 1]])
  }

  function Extras(extra: Option<Value>): seq<Value> {
    if extra.Some? then [extra.value] else []
  }

  /** The tags of one rebuilt entry: a renamed entry gets both names, the newer last. */
  function EmitSlot(id: nat, title: Title, content: Content, pairs: seq<Value>, plan: Plan): seq<Item> {
    (([Create(id), Name(id, title.kind, title.name)]
      + (if plan.rename.Some? then [Name(id, plan.rename.value.kind, plan.rename.value.name)] else []))
     + (var c := if plan.content.Some? then plan.content.value else content; [Struct(id, c.layout, c.body)]))
    + AttrItems(id, Without(pairs, plan.suppress) + Extras(plan.extra))
  }

  /** The tags for combined index `i`: a live slot, or the operation's new entry after the last one. */
  function EmitAt(log: seq<Item>, listing: seq<Slot>, op: WriteOp, i: nat, id: nat): Result<seq<Item>> {
    if i < |listing| then
      var plan := SlotPlan(op, i);
      if plan.dropped then Ok([])
      else if listing[i].title.None? || listing[i].content.None? then Err(Corrupt)
      else Ok(EmitSlot(id, listing[i].title.value, listing[i].content.value, Emitted(log, i, {}), plan))
    else if i == |listing| && Adds(op) then Ok(EntryItems(id, NewTitle(op), NewContent(op), op.moved))
    else Ok([])
  }

  // ---- What the rebuilt entries mean -----------------------------------------------------

  function Planned(s: Slot, plan: Plan): Slot {
    Slot(if plan.rename.Some? then plan.rename else s.title,
         if plan.content.Some? then plan.content else s.content,
         var rest := if plan.suppress.Some? then s.attrs - {plan.suppress.value} else s.attrs;
         if plan.extra.Some? then rest[plan.extra.value.attr := plan.extra.value.value] else rest)
  }

  /** The entry at combined index `i` after the operation, if it survives. */
  function ListedAt(op: WriteOp, listing: seq<Slot>, i: nat): seq<Slot> {
    if i < |listing| then if SlotPlan(op, i).dropped then [] else [Planned(listing[i], SlotPlan(op, i))]
    else if i == |listing| && Adds(op) then [Slot(Some(NewTitle(op)), Some(NewContent(op)), Collected(op.moved))]
    else []
  }

  /** The entries of combined indices `lo` to `hi` after the operation. */
  function Listed(op: WriteOp, listing: seq<Slot>, lo: nat, hi: nat): seq<Slot>
    requires lo <= hi
  {
    Joined(Lister(op, listing), lo, hi)
  }

  function Lister(op: WriteOp, listing: seq<Slot>): nat -> seq<Slot> {
    (i: nat) => ListedAt(op, listing, i)
  }

  function Emitter(log: seq<Item>, listing: seq<Slot>, op: WriteOp): (nat, nat) -> Result<seq<Item>> {
    (i: nat, id: nat) => EmitAt(log, listing, op, i, id)
  }

  /** `emit_compact_range`: local ids restart at zero for every range. */
  function EmitRange(log: seq<Item>, listing: seq<Slot>, op: WriteOp, lo: nat, hi: nat): Result<seq<Item>>
    requires lo <= hi
  {
    Emission(Emitter(log, listing, op), Lister(op, listing), lo, hi)
  }

  // ---- Ranges of any emitter ---------------------------------------------------------------

  /** What `list` lists for `lo` to `hi`, in order. */
  function Joined(list: nat -> seq<Slot>, lo: nat, hi: nat): seq<Slot>
    requires lo <= hi
  {
    if hi == lo then [] else Joined(list, lo, hi - 1) + list(hi - 1)
  }

  /** What `emit` emits for `lo` to `hi`, each index numbered by the entries before it. */
  function Emission(emit: (nat, nat) -> Result<seq<Item>>, list: nat -> seq<Slot>, lo: nat, hi: nat): Result<seq<Item>>
    requires lo <= hi
  {
    if hi == lo then Ok([])
    else
      match Emission(emit, list, lo, hi - 1)
      case Err(e) => Err(e)
      case Ok(items) =>
        match emit(hi - 1, |Joined(list, lo, hi - 1)|)
        case Err(e) => Err(e)
        case Ok(more) => Ok(items + more)
  }

  lemma {:induction false} JoinedSplit(list: nat -> seq<Slot>, lo: nat, mid: nat, hi: nat)
    requires lo <= mid <= hi
    ensures Joined(list, lo, mid) + Joined(list, mid, hi) == Joined(list, lo, hi)
    decreases hi
  {
    if mid < hi {
      JoinedSplit(list, lo, mid, hi - 1);
      assert Joined(list, lo, mid) + (Joined(list, mid, hi - 1) + list(hi - 1)) == (Joined(list, lo, mid) + Joined(list, mid, hi - 1)) + list(hi - 1);
    }
  }

  lemma {:induction false} JoinedLength(list: nat -> seq<Slot>, lo: nat, hi: nat)
    requires lo <= hi && forall i :: lo <= i < hi ==> |list(i)| <= 1
    ensures |Joined(list, lo, hi)| <= hi - lo
  {
    if lo < hi {
      JoinedLength(list, lo, hi - 1);
    }
  }

  /** Emitting at an index after `r` replays to `r` and what is listed there. */
  ghost predicate EmitsListed(emit: (nat, nat) -> Result<seq<Item>>, list: nat -> seq<Slot>, i: nat) {
    forall r :: Sound(r) && r.count < |r.slots| && emit(i, r.count).Ok? ==> EmitsTo(emit(i, r.count).value, list(i), r)
  }

  ghost predicate EmitsTo(items: seq<Item>, entries: seq<Slot>, r: Roster)
    requires Sound(r)
  {
    var u := Replay(r, items);
    u.Ok? && Live(u.value) == Live(r) + entries
  }

  lemma {:induction false} ReplayEmission(cap: nat, emit: (nat, nat) -> Result<seq<Item>>, list: nat -> seq<Slot>, lo: nat, hi: nat)
    requires lo <= hi && hi - lo <= cap && Emission(emit, list, lo, hi).Ok?
    requires forall i :: lo <= i < hi ==> EmitsListed(emit, list, i) && |list(i)| <= 1
    ensures var u := Replay(Fresh(cap), Emission(emit, list, lo, hi).value);
            u.Ok? && Live(u.value) == Joined(list, lo, hi)
  {
    if hi > lo {
      ReplayEmission(cap, emit, list, lo, hi - 1);
      JoinedLength(list, lo, hi - 1);
      var items := Emission(emit, list, lo, hi - 1).value;
      var r := Replay(Fresh(cap), items).value;
      assert EmitsListed(emit, list, hi - 1);
      assert EmitsTo(emit(hi - 1, r.count).value, list(hi - 1), r);
      ReplayConcat(Fresh(cap), items, emit(hi - 1, r.count).value);
    }
  }

  /** Emission fails exactly when some index fails, with that index's error. */
  lemma {:induction false} EmissionSucceeds(emit: (nat, nat) -> Result<seq<Item>>, list: nat -> seq<Slot>, lo: nat, hi: nat, good: nat -> bool)
    requires lo <= hi && forall i, id: nat :: lo <= i < hi ==> if good(i) then emit(i, id).Ok? else emit(i, id) == Err(Corrupt)
    ensures if forall i :: lo <= i < hi ==> good(i) then Emission(emit, list, lo, hi).Ok? else Emission(emit, list, lo, hi) == Err(Corrupt)
  {
    if lo < hi {
      EmissionSucceeds(emit, list, lo, hi - 1, good);
    }
  }

  // ---- Attributes of a rebuilt entry ------------------------------------------------------

  lemma {:induction false} CollectedWithout(pairs: seq<Value>, a: nat)
    ensures Collected(Without(pairs, Some(a))) == Collected(pairs) - {a}
  {
    if pairs != [] {
      var init, last := pairs[..|pairs| - 1], pairs[|pairs| - 1];
      var w := Without(init, Some(a));
      CollectedWithout(init, a);
      if last.attr != a {
        assert (w + [last])[..|w|] == w;
      } else {
        assert w + [] == w;
      }
    }
  }

  lemma {:induction false} WithoutNone(pairs: seq<Value>)
    ensures Without(pairs, None) == pairs
  {
    if pairs != [] {
      WithoutNone(pairs[..|pairs| - 1]);
    }
  }

  lemma CollectedExtras(pairs: seq<Value>, extra: Option<Value>)
    ensures Collected(pairs + Extras(extra)) ==
            if extra.Some? then Collected(pairs)[extra.value.attr := extra.value.value] else Collected(pairs)
  {
    if extra.Some? {
      assert (pairs + [extra.value])[..|pairs|] == pairs;
    } else {
      assert pairs + [] == pairs;
    }
  }

  /** No attribute twice. */
  predicate OncePer(pairs: seq<Value>) {
    forall i, j :: 0 <= i < j < |pairs| ==> pairs[i].attr != pairs[j].attr
  }

  lemma {:induction false} WithoutOnce(pairs: seq<Value>, a: Option<nat>)
    requires OncePer(pairs)
    ensures OncePer(Without(pairs, a))
    ensures forall p :: p in Without(pairs, a) ==> p in pairs && Some(p.attr) != a
  {
    if pairs != [] {
      var init := pairs[..|pairs| - 1];
      WithoutOnce(init, a);
      forall p | p in Without(init, a)
        ensures p.attr != pairs[|pairs| - 1].attr
      {
        var k :| 0 <= k < |init| && init[k] == p;
      }
    }
  }

  /** A rebuilt entry spells each attribute once, the one being set included. */
  lemma RebuiltOnce(log: seq<Item>, op: WriteOp, i: nat)
    ensures var plan := SlotPlan(op, i); OncePer(Without(Emitted(log, i, {}), plan.suppress) + Extras(plan.extra))
  {
    var plan := SlotPlan(op, i);
    EmittedFaithful(log, i, {});
    WithoutOnce(Emitted(log, i, {}), plan.suppress);
  }

  lemma PlannedAttrs(s: Slot, pairs: seq<Value>, plan: Plan)
    requires Collected(pairs) == s.attrs
    ensures Collected(Without(pairs, plan.suppress) + Extras(plan.extra)) == Planned(s, plan).attrs
  {
    CollectedExtras(Without(pairs, plan.suppress), plan.extra);
    if plan.suppress.Some? {
      CollectedWithout(pairs, plan.suppress.value);
    } else {
      WithoutNone(pairs);
    }
  }

  // ---- Replaying a rebuilt range ----------------------------------------------------------

  /** `t` is `r` with one more entry that so far has only the given slot. */
  predicate Grown(r: Roster, t: Roster, s: Slot) {
    Sound(r) && t.count == r.count + 1 <= |t.slots| == |r.slots| && t.slots[r.count] == s && t.slots[..r.count] == r.slots[..r.count]
  }

  lemma GrownItem(r: Roster, a: Roster, s: Slot, item: Item, s': Slot)
    requires Grown(r, a, s)
    requires (item.Name? && item.id == r.count && s' == s.(title := Some(Title(item.kind, item.name)))) ||
             (item.Struct? && item.id == r.count && s' == s.(content := Some(Content(item.layout, item.body))))
    ensures Apply(a, item).Ok? && Grown(r, Apply(a, item).value, s')
  {
  }

  lemma ReplayNames(r: Roster, title: Title, rename: Option<Title>) returns (t: Roster)
    requires Sound(r) && r.count < |r.slots|
    ensures var id := r.count;
            Replay(r, [Create(id), Name(id, title.kind, title.name)]
                      + (if rename.Some? then [Name(id, rename.value.kind, rename.value.name)] else [])) == Ok(t)
    ensures Grown(r, t, EMPTY.(title := if rename.Some? then rename else Some(title)))
  {
    var id := r.count;
    var head := [Create(id), Name(id, title.kind, title.name)];
    var a := Apply(r, Create(id)).value;
    ReplayOne(r, Create(id));
    assert Grown(r, a, EMPTY);
    GrownItem(r, a, EMPTY, head[1], EMPTY.(title := Some(title)));
    t := Apply(a, head[1]).value;
    assert head[..1] == [Create(id)];
    if rename.Some? {
      var item := Name(id, rename.value.kind, rename.value.name);
      ReplayOne(t, item);
      ReplayConcat(r, head, [item]);
      GrownItem(r, t, EMPTY.(title := Some(title)), item, EMPTY.(title := rename));
      t := Apply(t, item).value;
    } else {
      assert head + [] == head;
    }
  }

  lemma ReplayAttrsGrown(r: Roster, t: Roster, s: Slot, pairs: seq<Value>)
    requires Grown(r, t, s) && s.attrs == map[]
    ensures var u := Replay(t, AttrItems(r.count, pairs));
            u.Ok? && u.value.count == r.count + 1 && Live(u.value) == Live(r) + [s.(attrs := Collected(pairs))]
  {
    ReplayAttrs(t, r.count, pairs);
  }

  /** A rebuilt slot's tags append that slot, with the operation applied to it. */
  lemma ReplaySlot(r: Roster, s: Slot, pairs: seq<Value>, plan: Plan)
    requires Sound(r) && r.count < |r.slots| && s.title.Some? && s.content.Some? && Collected(pairs) == s.attrs
    ensures var u := Replay(r, EmitSlot(r.count, s.title.value, s.content.value, pairs, plan));
            u.Ok? && u.value.count == r.count + 1 && Live(u.value) == Live(r) + [Planned(s, plan)]
  {
    var id, c := r.count, if plan.content.Some? then plan.content.value else s.content.value;
    var names := [Create(id), Name(id, s.title.value.kind, s.title.value.name)]
                 + (if plan.rename.Some? then [Name(id, plan.rename.value.kind, plan.rename.value.name)] else []);
    var item := Struct(id, c.layout, c.body);
    var a := ReplayNames(r, s.title.value, plan.rename);
    var s' := EMPTY.(title := if plan.rename.Some? then plan.rename else s.title);
    GrownItem(r, a, s', item, s'.(content := Some(c)));
    ReplayOne(a, item);
    ReplayConcat(r, names, [item]);
    PlannedAttrs(s, pairs, plan);
    var list := Without(pairs, plan.suppress) + Extras(plan.extra);
    ReplayAttrsGrown(r, Apply(a, item).value, s'.(content := Some(c)), list);
    ReplayConcat(r, names + [item], AttrItems(id, list));
  }

  /** `EmitAt` replays to `ListedAt`. */
  lemma ReplayAt(r: Roster, log: seq<Item>, listing: seq<Slot>, op: WriteOp, i: nat)
    requires Sound(r) && r.count < |r.slots| && EmitAt(log, listing, op, i, r.count).Ok?
    requires i < |listing| ==> Collected(Emitted(log, i, {})) == listing[i].attrs
    ensures var u := Replay(r, EmitAt(log, listing, op, i, r.count).value);
            u.Ok? && Live(u.value) == Live(r) + ListedAt(op, listing, i)
  {
    if i < |listing| && !SlotPlan(op, i).dropped {
      ReplaySlot(r, listing[i], Emitted(log, i, {}), SlotPlan(op, i));
    } else if i == |listing| && Adds(op) {
      ReplayEntry(r, NewTitle(op), NewContent(op), op.moved);
    } else {
      assert Live(r) + [] == Live(r);
    }
  }

  /** The attributes that the enumeration replays are those of the listing. */
  ghost predicate Reflects(log: seq<Item>, listing: seq<Slot>) {
    forall i :: 0 <= i < |listing| ==> Collected(Emitted(log, i, {})) == listing[i].attrs
  }

  /** A rebuilt range replays to exactly its entries, in order. */
  lemma ReplayRange(cap: nat, log: seq<Item>, listing: seq<Slot>, op: WriteOp, lo: nat, hi: nat)
    requires lo <= hi && hi - lo <= cap && Reflects(log, listing) && EmitRange(log, listing, op, lo, hi).Ok?
    ensures var u := Replay(Fresh(cap), EmitRange(log, listing, op, lo, hi).value);
            u.Ok? && Live(u.value) == Listed(op, listing, lo, hi)
  {
    var emit, list := Emitter(log, listing, op), Lister(op, listing);
    forall i: nat
      ensures EmitsListed(emit, list, i) && |list(i)| <= 1
    {
      AtEmitsListed(log, listing, op, i);
    }
    ReplayEmission(cap, emit, list, lo, hi);
  }

  lemma AtEmitsListed(log: seq<Item>, listing: seq<Slot>, op: WriteOp, i: nat)
    requires Reflects(log, listing)
    ensures EmitsListed(Emitter(log, listing, op), Lister(op, listing), i)
  {
    var emit := Emitter(log, listing, op);
    forall r | Sound(r) && r.count < |r.slots| && emit(i, r.count).Ok?
      ensures EmitsTo(emit(i, r.count).value, ListedAt(op, listing, i), r)
    {
      ReplayAt(r, log, listing, op, i);
    }
  }

  // ---- The whole listing, and its pieces ---------------------------------------------------

  /** Live slots and the operation's new entry. */
  function Total(op: WriteOp, listing: seq<Slot>): nat {
    |listing| + (if Adds(op) then 1 else 0)
  }

  /** Adjacent ranges list adjacent entries. */
  lemma ListedSplit(op: WriteOp, listing: seq<Slot>, lo: nat, mid: nat, hi: nat)
    requires lo <= mid <= hi
    ensures Listed(op, listing, lo, mid) + Listed(op, listing, mid, hi) == Listed(op, listing, lo, hi)
  {
    JoinedSplit(Lister(op, listing), lo, mid, hi);
  }

  /** Slots the operation does not name are listed as they are. */
  lemma {:induction false} ListedUntouched(op: WriteOp, listing: seq<Slot>, lo: nat, hi: nat)
    requires lo <= hi <= |listing| && (Adds(op) || op.Noop? || op.id < lo || op.id >= hi)
    ensures Listed(op, listing, lo, hi) == listing[lo..hi]
  {
    if lo < hi {
      ListedUntouched(op, listing, lo, hi - 1);
      assert Planned(listing[hi - 1], UNTOUCHED) == listing[hi - 1];
    }
  }

  lemma ListedAround(op: WriteOp, listing: seq<Slot>, lo: nat, id: nat, hi: nat)
    requires lo <= id < hi
    ensures Listed(op, listing, lo, hi) == (Listed(op, listing, lo, id) + ListedAt(op, listing, id)) + Listed(op, listing, id + 1, hi)
  {
    ListedSplit(op, listing, lo, id + 1, hi);
  }

  lemma ListedNamed(op: WriteOp, listing: seq<Slot>, lo: nat)
    requires !op.Noop? && !Adds(op) && op.id < |listing| && lo == 0
    ensures Listed(op, listing, lo, |listing|) == (listing[..op.id] + ListedAt(op, listing, op.id)) + listing[op.id + 1..]
  {
    ListedAround(op, listing, lo, op.id, |listing|);
    ListedUntouched(op, listing, lo, op.id);
    ListedUntouched(op, listing, op.id + 1, |listing|);
    assert listing[lo..op.id] == listing[..op.id];
    assert listing[op.id + 1..|listing|] == listing[op.id + 1..];
  }

  /** The full range lists exactly the operation's effect. */
  lemma ListedMeansEffect(op: WriteOp, listing: seq<Slot>)
    requires op.Noop? || (if Adds(op) then op.id == |listing| else op.id < |listing|)
    ensures Listed(op, listing, 0, Total(op, listing)) == Effect(op, listing)
  {
    if op.Noop? || Adds(op) {
      ListedUntouched(op, listing, 0, |listing|);
      assert listing[0..|listing|] == listing;
    } else {
      ListedNamed(op, listing, 0);
      NamedMeansEffect(op, listing);
    }
  }

  lemma NamedMeansEffect(op: WriteOp, listing: seq<Slot>)
    requires !op.Noop? && !Adds(op) && op.id < |listing|
    ensures (listing[..op.id] + ListedAt(op, listing, op.id)) + listing[op.id + 1..] == Effect(op, listing)
  {
    if op.SetAttr? {
      var m := listing[op.id].attrs;
      assert (m - {op.attr})[op.attr := op.value] == m[op.attr := op.value];
    }
    if !op.Remove? {
      var s := Planned(listing[op.id], SlotPlan(op, op.id));
      assert (listing[..op.id] + [s]) + listing[op.id + 1..] == listing[op.id := s];
    } else {
      assert listing[..op.id] + [] == listing[..op.id];
    }
  }

  /** A surviving slot has a name and a layout. */
  predicate CompleteAt(listing: seq<Slot>, op: WriteOp, i: nat) {
    i < |listing| && !SlotPlan(op, i).dropped ==> listing[i].title.Some? && listing[i].content.Some?
  }

  predicate Complete(listing: seq<Slot>, op: WriteOp, lo: nat, hi: nat) {
    forall i :: lo <= i < hi ==> CompleteAt(listing, op, i)
  }

  lemma EmitAtSucceeds(log: seq<Item>, listing: seq<Slot>, op: WriteOp, i: nat, id: nat)
    ensures if CompleteAt(listing, op, i) then EmitAt(log, listing, op, i, id).Ok? else EmitAt(log, listing, op, i, id) == Err(Corrupt)
  {
  }

  /** The rebuild succeeds exactly on complete slots; its only error is `Corrupt`. */
  lemma EmitRangeSucceeds(log: seq<Item>, listing: seq<Slot>, op: WriteOp, lo: nat, hi: nat)
    requires lo <= hi
    ensures EmitRange(log, listing, op, lo, hi).Ok? <==> Complete(listing, op, lo, hi)
    ensures EmitRange(log, listing, op, lo, hi).Err? ==> EmitRange(log, listing, op, lo, hi).error == Corrupt
  {
    var good := (i: nat) => CompleteAt(listing, op, i);
    var emit := Emitter(log, listing, op);
    forall i: nat, id: nat
      ensures if good(i) then emit(i, id).Ok? else emit(i, id) == Err(Corrupt)
    {
      EmitAtSucceeds(log, listing, op, i, id);
    }
    EmissionSucceeds(emit, Lister(op, listing), lo, hi, good);
    if forall i :: lo <= i < hi ==> good(i) {
      forall i | lo <= i < hi
        ensures CompleteAt(listing, op, i)
      {
        assert good(i);
      }
    } else {
      var i :| lo <= i < hi && !good(i);
      assert !CompleteAt(listing, op, i);
    }
  }

  /** `emit_compact_range` as it runs: the slots in order, then the operation's new entry. */
  method EmitCompactRange(log: seq<Item>, listing: seq<Slot>, op: WriteOp, lo: nat, hi: nat) returns (r: Result<seq<Item>>)
    requires lo <= hi <= Total(op, listing)
    ensures r == EmitRange(log, listing, op, lo, hi)
  {
    var items: seq<Item> := [];
    var emitId, i := 0, lo;
    while i < hi
      invariant lo <= i <= hi
      invariant EmitRange(log, listing, op, lo, i) == Ok(items) && emitId == |Listed(op, listing, lo, i)|
    {
      var more := EmitAt(log, listing, op, i, emitId);
      if more.Err? {
        StaysErr(Emitter(log, listing, op), Lister(op, listing), lo, i + 1, hi);
        return Err(more.error);
      }
      items := items + more.value;
      emitId := emitId + |ListedAt(op, listing, i)|;
      i := i + 1;
    }
    return Ok(items);
  }

  lemma {:induction false} StaysErr(emit: (nat, nat) -> Result<seq<Item>>, list: nat -> seq<Slot>, lo: nat, mid: nat, hi: nat)
    requires lo <= mid <= hi && Emission(emit, list, lo, mid).Err?
    ensures Emission(emit, list, lo, hi) == Emission(emit, list, lo, mid)
    decreases hi
  {
    if mid < hi {
      StaysErr(emit, list, lo, mid, hi - 1);
    }
  }
}
