/**
 Directory write operations (`WriteOp`, `emit_op` in `src/fs.rs`): what each
 one means for the listing, and that appending its tags to the log means that.
 */
module Operations {
  import opened Words
  import opened Directory
  import opened Attributes

  /** Two words as a struct body: a chain head and size, or a pair address. */
  function TwoWords(a: nat, b: nat): seq<byte> {
    LeNat(a) + LeNat(b)
  }

  /** The body reads back as its two words, in order. */
  lemma TwoWordsRead(a: nat, b: nat)
    requires a < U32_RANGE && b < U32_RANGE
    ensures var body := TwoWords(a, b); |body| == 8 && FromLeNat(body[..4]) == a && FromLeNat(body[4..8]) == b
  {
    var body := TwoWords(a, b);
    assert body[..4] == LeNat(a) && body[4..8] == LeNat(b);
    LeNatRoundTrip(a);
    LeNatRoundTrip(b);
  }

  datatype WriteOp =
    | CreateFile(id: nat, name: seq<byte>, content: seq<byte>, moved: seq<Value>)
    | CreateCtz(id: nat, name: seq<byte>, head: nat, size: nat, moved: seq<Value>)
    | CreateDir(id: nat, name: seq<byte>, pair: BlockPair, moved: seq<Value>)
    | Update(id: nat, content: seq<byte>)
    | UpdateCtz(id: nat, head: nat, size: nat)
    | UpdateDirStruct(id: nat, pair: BlockPair)
    | Remove(id: nat)
    | Rename(id: nat, kind: NameKind, name: seq<byte>)
    | SetAttr(id: nat, attr: nat, value: seq<byte>)
    | RemoveAttr(id: nat, attr: nat)
    | Noop

  /** `op_adds_entry`. */
  predicate Adds(op: WriteOp) {
    op.CreateFile? || op.CreateCtz? || op.CreateDir?
  }

  function NewTitle(op: WriteOp): Title
    requires Adds(op)
  {
    Title(if op.CreateDir? then Folder else Regular, op.name)
  }

  function NewContent(op: WriteOp): Content
    requires Adds(op)
  {
    match op
    case CreateFile(_, _, content, _) => Content(Inline, content)
    case CreateCtz(_, _, head, size, _) => Content(Ctz, TwoWords(head, size))
    case CreateDir(_, _, pair, _) => Content(Pair, TwoWords(pair.a, pair.b))
  }

  /** The layout an update puts in place of the old one. */
  function Replacement(op: WriteOp): Option<Content> {
    match op
    case Update(_, content) => Some(Content(Inline, content))
    case UpdateCtz(_, head, size) => Some(Content(Ctz, TwoWords(head, size)))
    case UpdateDirStruct(_, pair) => Some(Content(Pair, TwoWords(pair.a, pair.b)))
    case _ => None
  }

  /** The id the operation names is one the listing offers. */
  predicate Fits(op: WriteOp, count: nat, cap: nat) {
    op.Noop? || (if Adds(op) then op.id == count < cap else op.id < count)
  }

  /** What the operation means: the listing after it. */
  function Effect(op: WriteOp, listing: seq<Slot>): seq<Slot>
    requires op.Noop? || Adds(op) || op.id < |listing|
  {
    if Adds(op) then listing + [Slot(Some(NewTitle(op)), Some(NewContent(op)), Collected(op.moved))]
    else if Replacement(op).Some? then listing[op.id := listing[op.id].(content := Replacement(op))]
    else
      match op
      case Remove(id) => listing[..id] + listing[id + 1..]
      case Rename(id, kind, name) => listing[id := listing[id].(title := Some(Title(kind, name)))]
      case SetAttr(id, a, v) => listing[id := listing[id].(attrs := listing[id].attrs[a := v])]
      case RemoveAttr(id, a) => listing[id := listing[id].(attrs := listing[id].attrs - {a})]
      case _ => listing
  }

  /** Attribute tags for entry `id`. */
  function AttrItems(id: nat, pairs: seq<Value>): (r: seq<Item>)
    ensures |r| == |pairs|
  {
    seq(|pairs|, i requires 0 <= i < |pairs| => Attr(id, pairs[i].attr, Some(pairs[i].value)))
  }

  /** The tags of a whole entry. */
  function EntryItems(id: nat, title: Title, content: Content, pairs: seq<Value>): seq<Item> {
    EntryHead(id, title, content) + AttrItems(id, pairs)
  }

  /** `emit_op`. */
  function EmitOp(op: WriteOp): seq<Item> {
    if Adds(op) then EntryItems(op.id, NewTitle(op), NewContent(op), op.moved)
    else if Replacement(op).Some? then [Struct(op.id, Replacement(op).value.layout, Replacement(op).value.body)]
    else
      match op
      case Remove(id) => [Delete(id)]
      case Rename(id, kind, name) => [Name(id, kind, name)]
      case SetAttr(id, a, v) => [Attr(id, a, Some(v))]
      case RemoveAttr(id, a) => [Attr(id, a, None)]
      case _ => []
  }

  // ---- Replaying tags ------------------------------------------------------------------

  lemma {:induction false} ReplayConcat(r: Roster, a: seq<Item>, b: seq<Item>)
    requires Sound(r)
    ensures Replay(r, a + b) == if Replay(r, a).Ok? then Replay(Replay(r, a).value, b) else Replay(r, a)
  {
    if b == [] {
      assert a + b == a;
    } else {
      ReplayConcat(r, a, b[..|b| - 1]);
      assert (a + b)[..|a + b| - 1] == a + b[..|b| - 1];
    }
  }

  lemma ReplayOne(r: Roster, item: Item)
    requires Sound(r)
    ensures Replay(r, [item]) == Apply(r, item)
  {
    assert [item][..0] == [];
    assert Replay(r, []) == Ok(r);
  }

  /** `r` with slot `id` replaced. */
  function WithSlot(r: Roster, id: nat, s: Slot): Roster
    requires id < |r.slots|
  {
    r.(slots := r.slots[id := s])
  }

  lemma {:induction false} ReplayAttrs(r: Roster, id: nat, pairs: seq<Value>)
    requires Sound(r) && id < |r.slots|
    ensures Replay(r, AttrItems(id, pairs)) == Ok(WithSlot(r, id, r.slots[id].(attrs := Merged(r.slots[id].attrs, pairs))))
  {
    var items := AttrItems(id, pairs);
    if pairs == [] {
      assert items == [];
      assert r.slots[id := r.slots[id].(attrs := r.slots[id].attrs)] == r.slots;
    } else {
      var init, last := pairs[..|pairs| - 1], pairs[|pairs| - 1];
      ReplayAttrs(r, id, init);
      assert items[..|items| - 1] == AttrItems(id, init) && items[|items| - 1] == Attr(id, last.attr, Some(last.value));
      var y := r.slots[id].(attrs := Merged(r.slots[id].attrs, pairs));
      var m := WithSlot(r, id, r.slots[id].(attrs := Merged(r.slots[id].attrs, init)));
      assert m.slots[id := y] == r.slots[id := y];
    }
  }

  /** The first three tags of an entry at the end of the listing. */
  lemma ReplayHead(r: Roster, title: Title, content: Content) returns (t: Roster)
    requires Sound(r) && r.count < |r.slots|
    ensures Replay(r, EntryHead(r.count, title, content)) == Ok(t) && t.count == r.count + 1 && |t.slots| == |r.slots|
    ensures t.slots[r.count] == Slot(Some(title), Some(content), map[]) && t.slots[..r.count] == r.slots[..r.count]
  {
    var id := r.count;
    var items := EntryHead(id, title, content);
    var a := Roster(Inserted(r.slots, id, id, EMPTY), id + 1);
    var b := WithSlot(a, id, EMPTY.(title := Some(title)));
    t := WithSlot(b, id, Slot(Some(title), Some(content), map[]));
    ReplayOne(r, items[0]);
    assert Apply(r, items[0]) == Ok(a) && Apply(a, items[1]) == Ok(b) && Apply(b, items[2]) == Ok(t);
    assert items[..2][..1] == [items[0]] && items[..2][1] == items[1];
    assert items[..3] == items;
  }

  function EntryHead(id: nat, title: Title, content: Content): seq<Item> {
    [Create(id), Name(id, title.kind, title.name), Struct(id, content.layout, content.body)]
  }

  /** A whole entry's tags at the end of the listing append that entry. */
  lemma ReplayEntry(r: Roster, title: Title, content: Content, pairs: seq<Value>)
    requires Sound(r) && r.count < |r.slots|
    ensures var t := Replay(r, EntryItems(r.count, title, content, pairs));
            && t.Ok? && t.value.count == r.count + 1
            && Live(t.value) == Live(r) + [Slot(Some(title), Some(content), Collected(pairs))]
  {
    var t := ReplayHead(r, title, content);
    ReplayAttrs(t, r.count, pairs);
    ReplayConcat(r, EntryHead(r.count, title, content), AttrItems(r.count, pairs));
  }

  lemma LiveWithSlot(r: Roster, id: nat, s: Slot)
    requires Sound(r) && id < r.count
    ensures Live(WithSlot(r, id, s)) == Live(r)[id := s]
  {
  }

  lemma LiveRemoved(r: Roster, id: nat)
    requires Sound(r) && id < r.count
    ensures Removed(r.slots, r.count, id, EMPTY)[..r.count - 1] == Live(r)[..id] + Live(r)[id + 1..]
  {
  }

  /** Appending an operation's tags to the log has the operation's effect on the listing. */
  lemma AppendMeansEffect(r: Roster, op: WriteOp)
    requires Sound(r) && Fits(op, r.count, |r.slots|)
    ensures Replay(r, EmitOp(op)).Ok? && Live(Replay(r, EmitOp(op)).value) == Effect(op, Live(r))
  {
    if Adds(op) {
      ReplayEntry(r, NewTitle(op), NewContent(op), op.moved);
    } else if !op.Noop? {
      ReplayOne(r, EmitOp(op)[0]);
      ApplyMeansEffect(r, op);
    }
  }

  lemma ApplyMeansEffect(r: Roster, op: WriteOp)
    requires Sound(r) && Fits(op, r.count, |r.slots|) && !Adds(op) && !op.Noop?
    ensures EmitOp(op) == [EmitOp(op)[0]] && Apply(r, EmitOp(op)[0]).Ok?
    ensures Live(Apply(r, EmitOp(op)[0]).value) == Effect(op, Live(r))
  {
    if op.Remove? {
      LiveRemoved(r, op.id);
    } else if Replacement(op).Some? {
      LiveWithSlot(r, op.id, r.slots[op.id].(content := Replacement(op)));
    } else {
      match op
      case Rename(id, kind, name) => LiveWithSlot(r, id, r.slots[id].(title := Some(Title(kind, name))));
      case SetAttr(id, a, v) => LiveWithSlot(r, id, r.slots[id].(attrs := WithAttr(r.slots[id].attrs, a, Some(v))));
      case RemoveAttr(id, a) => LiveWithSlot(r, id, r.slots[id].(attrs := WithAttr(r.slots[id].attrs, a, None)));
      case _ =>
    }
  }
}
