/**
 A rebuild forced by a failed append fits one block (`op_dsize_of` and
 `can_append` in `src/fs.rs`): every byte the rebuilt image needs is already
 paid for by a tag of the old log or by the room the append reserved.
 */
module Sizes {
  import opened Words
  import opened Directory
  import opened Attributes
  import opened Operations
  import opened Compaction
  import opened Rebuild

  /** Bytes of one tag; checksum tags are accounted separately. */
  function Bytes(item: Item): nat {
    match item
    case Create(_) => 4
    case Delete(_) => 4
    case Name(_, _, name) => 4 + |name|
    case Struct(_, _, body) => 4 + |body|
    case Attr(_, _, value) => if value.Some? then 4 + |value.value| else 4
    case Tail(_, _) => 12
    case Move(state) => 4 + |state|
    case Relocate(state) => 4 + |state|
    case Other => 0
  }

  function LogBytes(log: seq<Item>): nat {
    if log == [] then 0 else LogBytes(log[..|log| - 1]) + Bytes(log[|log| - 1])
  }

  lemma {:induction false} LogBytesConcat(a: seq<Item>, b: seq<Item>)
    ensures LogBytes(a + b) == LogBytes(a) + LogBytes(b)
  {
    if b == [] {
      assert a + b == a;
    } else {
      LogBytesConcat(a, b[..|b| - 1]);
      assert (a + b)[..|a + b| - 1] == a + b[..|b| - 1];
    }
  }

  lemma {:induction false} PrefixBytes(log: seq<Item>, i: nat)
    requires i < |log|
    ensures LogBytes(log[..i]) + Bytes(log[i]) <= LogBytes(log)
  {
    if i < |log| - 1 {
      PrefixBytes(log[..|log| - 1], i);
      assert log[..|log| - 1][..i] == log[..i];
    }
  }

  // ---- The cost of what is live ------------------------------------------------------------

  /** Attribute ids are bytes. */
  const ATTRS: nat := 256

  function AttrBytes(m: map<nat, seq<byte>>, n: nat): nat {
    if n == 0 then 0 else AttrBytes(m, n - 1) + (if n - 1 in m then 4 + |m[n - 1]| else 0)
  }

  lemma {:induction false} AttrBytesSet(m: map<nat, seq<byte>>, a: nat, v: seq<byte>, n: nat)
    ensures AttrBytes(m[a := v], n) == AttrBytes(m - {a}, n) + (if a < n then 4 + |v| else 0)
    ensures AttrBytes(m - {a}, n) <= AttrBytes(m, n)
    ensures a !in m ==> AttrBytes(m - {a}, n) == AttrBytes(m, n)
  {
    if n > 0 {
      AttrBytesSet(m, a, v, n - 1);
    }
  }

  /** Bytes a rebuilt entry takes. */
  function SlotBytes(s: Slot, n: nat): nat {
    4 + (if s.title.Some? then 4 + |s.title.value.name| else 0)
    + (if s.content.Some? then 4 + |s.content.value.body| else 0)
    + AttrBytes(s.attrs, n)
  }

  function ListBytes(listing: seq<Slot>, n: nat): nat {
    if listing == [] then 0 else ListBytes(listing[..|listing| - 1], n) + SlotBytes(listing[|listing| - 1], n)
  }

  lemma {:induction false} ListBytesConcat(a: seq<Slot>, b: seq<Slot>, n: nat)
    ensures ListBytes(a + b, n) == ListBytes(a, n) + ListBytes(b, n)
  {
    if b == [] {
      assert a + b == a;
    } else {
      ListBytesConcat(a, b[..|b| - 1], n);
      assert (a + b)[..|a + b| - 1] == a + b[..|b| - 1];
    }
  }

  lemma ListBytesOne(s: Slot, n: nat)
    ensures ListBytes([s], n) == SlotBytes(s, n)
  {
    assert [s][..0] == [];
    assert ListBytes([], n) == 0;
  }

  /** Replacing one slot moves the total by the difference. */
  lemma ListBytesAt(listing: seq<Slot>, i: nat, s: Slot, n: nat)
    requires i < |listing|
    ensures ListBytes(listing[i := s], n) + SlotBytes(listing[i], n) == ListBytes(listing, n) + SlotBytes(s, n)
    ensures ListBytes(listing[..i] + listing[i + 1..], n) + SlotBytes(listing[i], n) == ListBytes(listing, n)
  {
    var a, b := listing[..i], listing[i + 1..];
    assert listing == (a + [listing[i]]) + b && listing[i := s] == (a + [s]) + b;
    ListBytesConcat(a + [listing[i]], b, n);
    ListBytesConcat(a + [s], b, n);
    ListBytesConcat(a, [listing[i]], n);
    ListBytesConcat(a, [s], n);
    ListBytesConcat(a, b, n);
    ListBytesOne(listing[i], n);
    ListBytesOne(s, n);
  }

  lemma ListBytesInsert(listing: seq<Slot>, i: nat, s: Slot, n: nat)
    requires i <= |listing|
    ensures ListBytes((listing[..i] + [s]) + listing[i..], n) == ListBytes(listing, n) + SlotBytes(s, n)
  {
    var a, b := listing[..i], listing[i..];
    assert listing == a + b;
    ListBytesConcat(a + [s], b, n);
    ListBytesConcat(a, [s], n);
    ListBytesConcat(a, b, n);
    ListBytesOne(s, n);
  }

  lemma {:induction false} NoAttrBytes(n: nat)
    ensures AttrBytes(map[], n) == 0
  {
    if n > 0 {
      NoAttrBytes(n - 1);
    }
  }

  lemma LiveInserted(r: Roster, id: nat)
    requires Sound(r) && id <= r.count < |r.slots|
    ensures Inserted(r.slots, r.count, id, EMPTY)[..r.count + 1] == (Live(r)[..id] + [EMPTY]) + Live(r)[id..]
  {
  }

  /** Each tag pays for what it adds to the live entries. */
  lemma ApplyPays(r: Roster, item: Item, n: nat)
    requires Sound(r) && Apply(r, item).Ok? && Within(item, r.count)
    ensures ListBytes(Live(Apply(r, item).value), n) <= ListBytes(Live(r), n) + Bytes(item)
  {
    match item
    case Create(id) =>
      LiveInserted(r, id);
      NoAttrBytes(n);
      ListBytesInsert(Live(r), id, EMPTY, n);
    case Delete(id) =>
      LiveRemoved(r, id);
      ListBytesAt(Live(r), id, EMPTY, n);
    case Name(id, kind, name) =>
      SlotPays(r, id, r.slots[id].(title := Some(Title(kind, name))), n);
    case Struct(id, layout, body) =>
      SlotPays(r, id, r.slots[id].(content := Some(Content(layout, body))), n);
    case Attr(id, a, value) =>
      AttrBytesSet(r.slots[id].attrs, a, OrElse(value, []), n);
      SlotPays(r, id, r.slots[id].(attrs := WithAttr(r.slots[id].attrs, a, value)), n);
    case _ =>
  }

  lemma SlotPays(r: Roster, id: nat, s: Slot, n: nat)
    requires Sound(r) && id < r.count
    ensures ListBytes(Live(WithSlot(r, id, s)), n) + SlotBytes(r.slots[id], n) == ListBytes(Live(r), n) + SlotBytes(s, n)
  {
    LiveWithSlot(r, id, s);
    ListBytesAt(Live(r), id, s, n);
  }

  /** Bytes of the state and tail tags in force. */
  function StateBytes(log: seq<Item>): nat {
    (if Latest(MoveIn, log).Some? then 16 else 0)
    + (if Latest(RelocateIn, log).Some? then 20 else 0)
    + (if Latest(TailIn, log).Some? then 12 else 0)
  }

  /** A log whose every entry was created in it holds at least what its live part costs. */
  lemma {:induction false} LogPays(cap: nat, log: seq<Item>, n: nat)
    requires WellFormed(cap, log, 0) && Readable(cap, log)
    ensures ListBytes(Live(Replay(Fresh(cap), log).value), n) + StateBytes(log) <= LogBytes(log)
  {
    if log != [] {
      var init, last := log[..|log| - 1], log[|log| - 1];
      LogPays(cap, init, n);
      ApplyPays(Replay(Fresh(cap), init).value, last, n);
      StatePays(log);
    }
  }

  lemma StatePays(log: seq<Item>)
    requires log != []
    ensures var last := log[|log| - 1];
            StateBytes(log) <= StateBytes(log[..|log| - 1]) + (if last.Move? || last.Relocate? || last.Tail? then Bytes(last) else 0)
  {
  }

  // ---- The cost of a rebuild -----------------------------------------------------------------

  function PairBytes(pairs: seq<Value>): nat {
    if pairs == [] then 0 else PairBytes(pairs[..|pairs| - 1]) + 4 + |pairs[|pairs| - 1].value|
  }

  lemma {:induction false} PairBytesItems(id: nat, pairs: seq<Value>)
    ensures LogBytes(AttrItems(id, pairs)) == PairBytes(pairs)
  {
    if pairs != [] {
      PairBytesItems(id, pairs[..|pairs| - 1]);
      assert AttrItems(id, pairs)[..|pairs| - 1] == AttrItems(id, pairs[..|pairs| - 1]);
    }
  }

  lemma {:induction false} PairBytesWithout(pairs: seq<Value>, a: Option<nat>)
    ensures PairBytes(Without(pairs, a)) <= PairBytes(pairs)
  {
    if pairs != [] {
      var w, last := Without(pairs[..|pairs| - 1], a), pairs[|pairs| - 1];
      PairBytesWithout(pairs[..|pairs| - 1], a);
      assert w + [] == w && (w + [last])[..|w|] == w;
    }
  }

  predicate DistinctBelow(pairs: seq<Value>, n: nat) {
    && (forall i :: 0 <= i < |pairs| ==> pairs[i].attr < n)
    && (forall i, j :: 0 <= i < j < |pairs| ==> pairs[i].attr != pairs[j].attr)
  }

  lemma {:induction false} PairBytesExact(pairs: seq<Value>, n: nat)
    requires DistinctBelow(pairs, n)
    ensures PairBytes(pairs) == AttrBytes(Collected(pairs), n)
  {
    if pairs == [] {
      NoAttrBytes(n);
    } else {
      var init, last := pairs[..|pairs| - 1], pairs[|pairs| - 1];
      PairBytesExact(init, n);
      CollectedKeys(init, last.attr);
      AttrBytesSet(Collected(init), last.attr, last.value, n);
    }
  }

  predicate AttrsBelow(log: seq<Item>, n: nat) {
    forall i :: 0 <= i < |log| && log[i].Attr? ==> log[i].attr < n
  }

  lemma {:induction false} FoundBelow(log: seq<Item>, adj: int, a: nat, n: nat)
    requires AttrsBelow(log, n) && Find(log, adj, a).Some?
    ensures a < n
  {
    if log != [] {
      var init := log[..|log| - 1];
      match log[|log| - 1]
      case Create(id) => FoundBelow(init, if id < adj then adj - 1 else adj, a, n);
      case Delete(id) => FoundBelow(init, if id <= adj then adj + 1 else adj, a, n);
      case Attr(id, b, value) =>
        if id != adj || b != a {
          FoundBelow(init, adj, a, n);
        }
      case _ => FoundBelow(init, adj, a, n);
    }
  }

  lemma EmittedDistinctBelow(log: seq<Item>, i: nat, n: nat)
    requires AttrsBelow(log, n)
    ensures DistinctBelow(Emitted(log, i, {}), n)
  {
    EmittedFaithful(log, i, {});
    var pairs := Emitted(log, i, {});
    forall j | 0 <= j < |pairs|
      ensures pairs[j].attr < n
    {
      FoundBelow(log, i, pairs[j].attr, n);
    }
  }

  function PlanBytes(plan: Plan): nat {
    (if plan.rename.Some? then 4 + |plan.rename.value.name| else 0)
    + (if plan.content.Some? then 4 + |plan.content.value.body| else 0)
    + (if plan.extra.Some? then 4 + |plan.extra.value.value| else 0)
  }

  lemma HeadBytes(id: nat, title: Title, content: Content, rename: Option<Title>)
    ensures LogBytes(([Create(id), Name(id, title.kind, title.name)]
                      + (if rename.Some? then [Name(id, rename.value.kind, rename.value.name)] else []))
                     + [Struct(id, content.layout, content.body)])
            == 4 + (4 + |title.name|) + (if rename.Some? then 4 + |rename.value.name| else 0) + (4 + |content.body|)
  {
    var create, name, data := Create(id), Name(id, title.kind, title.name), Struct(id, content.layout, content.body);
    var more := if rename.Some? then [Name(id, rename.value.kind, rename.value.name)] else [];
    LogBytesConcat([create, name] + more, [data]);
    LogBytesConcat([create, name], more);
    LogBytesConcat([create], [name]);
    assert [create] + [name] == [create, name];
    OneBytes(create);
    OneBytes(name);
    OneBytes(data);
    if rename.Some? {
      OneBytes(more[0]);
    }
  }

  lemma OneBytes(item: Item)
    ensures LogBytes([item]) == Bytes(item)
  {
    assert [item][..0] == [];
    assert LogBytes([]) == 0;
  }

  /** A rebuilt slot costs at most the slot and what the operation puts in it. */
  lemma SlotEmissionBytes(id: nat, s: Slot, pairs: seq<Value>, plan: Plan, n: nat)
    requires s.title.Some? && s.content.Some? && DistinctBelow(pairs, n) && Collected(pairs) == s.attrs
    ensures LogBytes(EmitSlot(id, s.title.value, s.content.value, pairs, plan)) <= SlotBytes(s, n) + PlanBytes(plan)
  {
    var c := if plan.content.Some? then plan.content.value else s.content.value;
    var list := Without(pairs, plan.suppress) + Extras(plan.extra);
    var head := ([Create(id), Name(id, s.title.value.kind, s.title.value.name)]
                 + (if plan.rename.Some? then [Name(id, plan.rename.value.kind, plan.rename.value.name)] else []))
                + [Struct(id, c.layout, c.body)];
    LogBytesConcat(head, AttrItems(id, list));
    HeadBytes(id, s.title.value, c, plan.rename);
    PairBytesItems(id, list);
    ExtrasBytes(Without(pairs, plan.suppress), plan.extra);
    PairBytesWithout(pairs, plan.suppress);
    PairBytesExact(pairs, n);
  }

  lemma ExtrasBytes(pairs: seq<Value>, extra: Option<Value>)
    ensures PairBytes(pairs + Extras(extra)) == PairBytes(pairs) + (if extra.Some? then 4 + |extra.value.value| else 0)
  {
    if extra.Some? {
      assert (pairs + [extra.value])[..|pairs|] == pairs;
    } else {
      assert pairs + [] == pairs;
    }
  }

  function Sum(cost: nat -> nat, lo: nat, hi: nat): nat
    requires lo <= hi
  {
    if lo == hi then 0 else Sum(cost, lo, hi - 1) + cost(hi - 1)
  }

  /** If each index costs at most so much, the range costs at most the sum. */
  lemma {:induction false} EmissionBytes(emit: (nat, nat) -> Result<seq<Item>>, list: nat -> seq<Slot>, cost: nat -> nat, lo: nat, hi: nat)
    requires lo <= hi && Emission(emit, list, lo, hi).Ok?
    requires forall i, id: nat :: lo <= i < hi && emit(i, id).Ok? ==> LogBytes(emit(i, id).value) <= cost(i)
    ensures LogBytes(Emission(emit, list, lo, hi).value) <= Sum(cost, lo, hi)
  {
    if lo < hi {
      EmissionBytes(emit, list, cost, lo, hi - 1);
      var id := |Joined(list, lo, hi - 1)|;
      LogBytesConcat(Emission(emit, list, lo, hi - 1).value, emit(hi - 1, id).value);
    }
  }

  /** `op_dsize_of`: what an append of the operation takes, its commit tag included. */
  function OpDsize(op: WriteOp): nat {
    match op
    case Update(_, content) => (4 + |content|) + 8
    case UpdateCtz(_, _, _) => (4 + 8) + 8
    case UpdateDirStruct(_, _) => (4 + 8) + 8
    case CreateFile(_, name, content, moved) => 4 + (4 + |name|) + (4 + |content|) + PairBytes(moved) + 8
    case CreateCtz(_, name, _, _, moved) => 4 + (4 + |name|) + (4 + 8) + PairBytes(moved) + 8
    case CreateDir(_, name, _, moved) => 4 + (4 + |name|) + (4 + 8) + PairBytes(moved) + 8
    case Remove(_) => 4 + 8
    case RemoveAttr(_, _) => 4 + 8
    case Rename(_, _, name) => (4 + |name|) + 8
    case SetAttr(_, _, value) => (4 + |value|) + 8
    case Noop => 8
  }

  lemma EntryBytes(id: nat, title: Title, content: Content, pairs: seq<Value>)
    ensures LogBytes(EntryItems(id, title, content, pairs)) == 4 + (4 + |title.name|) + (4 + |content.body|) + PairBytes(pairs)
  {
    LogBytesConcat(EntryHead(id, title, content), AttrItems(id, pairs));
    PairBytesItems(id, pairs);
    HeadBytes(id, title, content, None);
    assert ([Create(id), Name(id, title.kind, title.name)] + []) + [Struct(id, content.layout, content.body)] == EntryHead(id, title, content);
  }

  /** The reservation is exactly the operation's tags and a commit tag. */
  lemma OpDsizeExact(op: WriteOp)
    ensures OpDsize(op) == LogBytes(EmitOp(op)) + 8
  {
    if Adds(op) {
      EntryBytes(op.id, NewTitle(op), NewContent(op), op.moved);
      NewBytes(op);
    } else if op.Noop? {
    } else {
      OneBytes(EmitOp(op)[0]);
      assert EmitOp(op) == [EmitOp(op)[0]];
      if Replacement(op).Some? {
        ReplacementBytes(op);
      }
    }
  }

  lemma NewBytes(op: WriteOp)
    requires Adds(op)
    ensures NewTitle(op).name == op.name && |NewContent(op).body| == if op.CreateFile? then |op.content| else 8
  {
  }

  lemma ReplacementBytes(op: WriteOp)
    requires Replacement(op).Some?
    ensures 4 + |Replacement(op).value.body| + 8 == OpDsize(op)
  {
  }

  /** What the operation adds to a rebuilt entry or as a new one. */
  function CostAt(op: WriteOp, listing: seq<Slot>, n: nat, i: nat): nat {
    if i < |listing| then SlotBytes(listing[i], n) + PlanBytes(SlotPlan(op, i))
    else if i == |listing| && Adds(op) then LogBytes(EmitOp(op))
    else 0
  }

  lemma EmitAtBytes(log: seq<Item>, listing: seq<Slot>, op: WriteOp, n: nat, i: nat, id: nat)
    requires Reflects(log, listing) && AttrsBelow(log, n) && EmitAt(log, listing, op, i, id).Ok?
    ensures LogBytes(EmitAt(log, listing, op, i, id).value) <= CostAt(op, listing, n, i)
  {
    if i < |listing| && !SlotPlan(op, i).dropped {
      EmittedDistinctBelow(log, i, n);
      SlotEmissionBytes(id, listing[i], Emitted(log, i, {}), SlotPlan(op, i), n);
    } else if i == |listing| && Adds(op) {
      EntryBytes(id, NewTitle(op), NewContent(op), op.moved);
      EntryBytes(op.id, NewTitle(op), NewContent(op), op.moved);
    }
  }

  lemma PlanPays(op: WriteOp, i: nat)
    ensures PlanBytes(SlotPlan(op, i)) <= if !op.Noop? && op.id == i then OpDsize(op) - 8 else 0
  {
    if Replacement(op).Some? {
      ReplacementBytes(op);
    }
  }

  function Costs(op: WriteOp, listing: seq<Slot>, n: nat): nat -> nat {
    (i: nat) => CostAt(op, listing, n, i)
  }

  /** The live slots cost the listing, plus the operation at most once. */
  lemma {:induction false} SlotsCost(op: WriteOp, listing: seq<Slot>, n: nat, hi: nat)
    requires hi <= |listing|
    ensures Sum(Costs(op, listing, n), 0, hi)
            <= ListBytes(listing[..hi], n) + (if !op.Noop? && !Adds(op) && op.id < hi then OpDsize(op) - 8 else 0)
  {
    if hi > 0 {
      SlotsCost(op, listing, n, hi - 1);
      assert listing[..hi][..hi - 1] == listing[..hi - 1];
      PlanPays(op, hi - 1);
    }
  }

  /** The rebuilt entries cost at most the live ones and the operation. */
  lemma RebuiltEntriesCost(log: seq<Item>, listing: seq<Slot>, op: WriteOp, n: nat)
    requires Reflects(log, listing) && AttrsBelow(log, n) && EmitRange(log, listing, op, 0, Total(op, listing)).Ok?
    ensures LogBytes(EmitRange(log, listing, op, 0, Total(op, listing)).value) <= ListBytes(listing, n) + OpDsize(op) - 8
  {
    var emit, cost := Emitter(log, listing, op), Costs(op, listing, n);
    var total := Total(op, listing);
    forall i: nat, id: nat | emit(i, id).Ok?
      ensures LogBytes(emit(i, id).value) <= cost(i)
    {
      EmitAtBytes(log, listing, op, n, i, id);
    }
    EmissionBytes(emit, Lister(op, listing), cost, 0, total);
    SlotsCost(op, listing, n, |listing|);
    assert listing[..|listing|] == listing;
    OpDsizeExact(op);
  }

  lemma StatesBytes(move: Option<seq<byte>>, relocate: Option<seq<byte>>, tail: Option<Thread>)
    requires (move.Some? ==> |move.value| == MOVE_SIZE) && (relocate.Some? ==> |relocate.value| == RELOCATE_SIZE)
    ensures LogBytes(States(move, relocate, tail)) ==
            (if move.Some? then 16 else 0) + (if relocate.Some? then 20 else 0) + (if tail.Some? then 12 else 0)
  {
    var m := if move.Some? then [Move(move.value)] else [];
    var r := if relocate.Some? then [Relocate(relocate.value)] else [];
    var t := if tail.Some? then [Tail(tail.value.pair, tail.value.hard)] else [];
    LogBytesConcat(m + r, t);
    LogBytesConcat(m, r);
    ShortBytes(m);
    ShortBytes(r);
    ShortBytes(t);
  }

  lemma ShortBytes(s: seq<Item>)
    requires |s| <= 1
    ensures LogBytes(s) == if s == [] then 0 else Bytes(s[0])
  {
    if s != [] {
      OneBytes(s[0]);
      assert s == [s[0]];
    }
  }

  /** The room `can_append` asks for: the operation, its state deltas and its tail. */
  function RequestDsize(q: Request): nat {
    OpDsize(q.op) + (if q.move.Some? then 16 else 0) + (if q.relocate.Some? then 20 else 0) + (if q.tail.Some? then 12 else 0)
  }

  /** `can_append`: the program unit's grid and the window behind the log allow it, the request has room and clears no tail. */
  predicate CanAppend(erased: bool, end: nat, prog: nat, size: nat, q: Request)
    requires prog > 0
  {
    erased && end % prog == 0 && end + RequestDsize(q) <= size && !(q.tail.Some? && q.tail.value.pair.IsNull())
  }

  /** The reservation is exactly the items an append of the request writes and a commit tag. */
  lemma RequestDsizeExact(v: View, q: Request)
    requires Sized(q) && |v.move| == MOVE_SIZE && |v.relocate| == RELOCATE_SIZE
    ensures RequestDsize(q) == LogBytes(AppendItems(v, q)) + 8
  {
    var m := if q.move.Some? then Some(Folded(v.move, q.move)) else None;
    var l := if q.relocate.Some? then Some(Folded(v.relocate, q.relocate)) else None;
    OpDsizeExact(q.op);
    StatesBytes(m, l, q.tail);
    LogBytesConcat(EmitOp(q.op), States(m, l, q.tail));
  }

  /** The rebuilt image: the merged entries, the folded move, any relocation state, the tail. */
  function Image(v: View, q: Request, items: seq<Item>, relocate: Option<seq<byte>>): seq<Item>
    requires Sized(q) && |v.move| == MOVE_SIZE
  {
    Tailed(items, NonZero(Folded(v.move, q.move)), relocate, KeptTail(v, q))
  }

  /**
   A rebuild forced by a failed append fits: if the append had room, the
   rebuilt image, even with a relocation state the log never held, leaves the
   eight bytes its commit tag needs.
   */
  lemma ForcedRebuildFits(cap: nat, log: seq<Item>, q: Request, relocate: Option<seq<byte>>, end: nat, size: nat)
    requires WellFormed(cap, log, 0) && Readable(cap, log) && Sized(q) && AttrsBelow(log, ATTRS)
    requires relocate.Some? ==> |relocate.value| == RELOCATE_SIZE
    requires end >= 4 + LogBytes(log) + 12 + 8 && end + RequestDsize(q) <= size
    requires EmitRange(log, ViewOf(cap, log).listing, q.op, 0, Total(q.op, ViewOf(cap, log).listing)).Ok?
    ensures var v := ViewOf(cap, log);
            var items := EmitRange(log, v.listing, q.op, 0, Total(q.op, v.listing)).value;
            4 + LogBytes(Image(v, q, items, relocate)) + 8 <= size
  {
    var v := ViewOf(cap, log);
    var items := EmitRange(log, v.listing, q.op, 0, Total(q.op, v.listing)).value;
    ListingReflects(cap, log, 0);
    RebuiltEntriesCost(log, v.listing, q.op, ATTRS);
    LogPays(cap, log, ATTRS);
    var m, t := NonZero(Folded(v.move, q.move)), KeptTail(v, q);
    StatesBytes(m, relocate, t);
    LogBytesConcat(items, States(m, relocate, t));
    assert m.Some? ==> q.move.Some? || Latest(MoveIn, log).Some?;
    assert t.Some? ==> q.tail.Some? || Latest(TailIn, log).Some?;
  }
}
