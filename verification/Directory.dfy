/**
 Replaying a directory's log (`src/dir.rs`, `gather_live_slots` in `src/fs.rs`).

 Create and Delete tags renumber the entries after them, so an entry's tags
 carry different ids at different points of the log. The forward replay keeps
 an array of slots; slots here also carry the attribute map each entry should
 have, which is what the backward lookup of `Attributes` is compared with.
 */
module Directory {
  import opened Words
  import opened Tags

  datatype NameKind = Regular | Folder | Super
  datatype StructKind = Inline | Ctz | Pair

  /** A committed tag, decoded. A removed attribute has no value. */
  datatype Item =
    | Create(id: nat)
    | Delete(id: nat)
    | Name(id: nat, kind: NameKind, name: seq<byte>)
    | Struct(id: nat, layout: StructKind, body: seq<byte>)
    | Attr(id: nat, attr: nat, value: Option<seq<byte>>)
    | Tail(pair: BlockPair, hard: bool)
    | Move(state: seq<byte>)
    | Relocate(state: seq<byte>)
    | Other

  /** The item a tag and its body spell. */
  function ItemOf(t: Tag, body: seq<byte>): Item {
    match TypeFromBits(t.kind)
    case Create => Item.Create(t.id)
    case Delete => Item.Delete(t.id)
    case RegularFile => Name(t.id, Regular, body)
    case Directory => Name(t.id, Folder, body)
    case Superblock => Name(t.id, Super, body)
    case InlineStruct => Struct(t.id, Inline, body)
    case CtzStruct => Struct(t.id, Ctz, body)
    case DirStruct => Struct(t.id, Pair, body)
    case UserAttr(a) => Attr(t.id, a, if t.length == LEN_SPECIAL then None else Some(body))
    case SoftTail => if |body| == 8 then Tail(BlockPair(FromLeNat(body[..4]), FromLeNat(body[4..8])), false) else Other
    case HardTail => if |body| == 8 then Tail(BlockPair(FromLeNat(body[..4]), FromLeNat(body[4..8])), true) else Other
    case MoveState => if |body| == 12 then Move(body) else Other
    case RelocateState => if |body| == 16 then Relocate(body) else Other
    case _ => Other
  }

  datatype Title = Title(kind: NameKind, name: seq<byte>)
  datatype Content = Content(layout: StructKind, body: seq<byte>)

  /** What is known of one entry: its latest name, its latest layout, its attributes. */
  datatype Slot = Slot(title: Option<Title>, content: Option<Content>, attrs: map<nat, seq<byte>>)

  const EMPTY: Slot := Slot(None, None, map[])

  /** A replay in progress: every slot, and how many of them are live entries. */
  datatype Roster = Roster(slots: seq<Slot>, count: nat)

  predicate Sound(r: Roster) {
    r.count <= |r.slots|
  }

  /** The live entries in id order. */
  function Live(r: Roster): seq<Slot>
    requires Sound(r)
  {
    r.slots[..r.count]
  }

  function Inserted<T>(slots: seq<T>, count: nat, id: nat, empty: T): (r: seq<T>)
    requires id <= count < |slots|
    ensures |r| == |slots|
  {
    seq(|slots|, i requires 0 <= i < |slots| =>
      if i < id || i > count then slots[i] else if i == id then empty else slots[i - 1])
  }

  function Removed<T>(slots: seq<T>, count: nat, id: nat, empty: T): (r: seq<T>)
    requires id < count <= |slots|
    ensures |r| == |slots|
  {
    seq(|slots|, i requires 0 <= i < |slots| =>
      if i < id || i >= count then slots[i] else if i == count - 1 then empty else slots[i + 1])
  }

  function WithAttr(attrs: map<nat, seq<byte>>, a: nat, value: Option<seq<byte>>): map<nat, seq<byte>> {
    if value.Some? then attrs[a := value.value] else attrs - {a}
  }

  /** One tag of the log, with the checks of `splice_step` and the stores of its callers. */
  function Apply(r: Roster, item: Item): (t: Result<Roster>)
    requires Sound(r)
    ensures t.Ok? ==> Sound(t.value) && |t.value.slots| == |r.slots|
  {
    match item
    case Create(id) =>
      if r.count >= |r.slots| then Err(OutOfRange)
      else if id > r.count then Err(Corrupt)
      else Ok(Roster(Inserted(r.slots, r.count, id, EMPTY), r.count + 1))
    case Delete(id) =>
      if id >= r.count then Err(Corrupt)
      else Ok(Roster(Removed(r.slots, r.count, id, EMPTY), r.count - 1))
    case Name(id, kind, name) =>
      if id >= |r.slots| then Err(OutOfRange)
      else Ok(Roster(r.slots[id := r.slots[id].(title := Some(Title(kind, name)))], if id >= r.count then id + 1 else r.count))
    case Struct(id, layout, body) =>
      if id >= |r.slots| then Ok(r) else Ok(r.(slots := r.slots[id := r.slots[id].(content := Some(Content(layout, body)))]))
    case Attr(id, a, value) =>
      if id >= |r.slots| then Ok(r) else Ok(r.(slots := r.slots[id := r.slots[id].(attrs := WithAttr(r.slots[id].attrs, a, value))]))
    case _ => Ok(r)
  }

  /** Replays a whole log from `r`. */
  function Replay(r: Roster, log: seq<Item>): (t: Result<Roster>)
    requires Sound(r)
    ensures t.Ok? ==> Sound(t.value) && |t.value.slots| == |r.slots|
  {
    if log == [] then Ok(r)
    else
      match Replay(r, log[..|log| - 1])
      case Err(e) => Err(e)
      case Ok(s) => Apply(s, log[|log| - 1])
  }

  /** No entry yet, room for `cap`. */
  function Fresh(cap: nat): (r: Roster)
    ensures Sound(r) && |r.slots| == cap && r.count == 0 && forall i :: 0 <= i < cap ==> r.slots[i] == EMPTY
  {
    Roster(seq(cap, i => EMPTY), 0)
  }

  // ---- splice_step and gather_live_slots in place ----------------------------------------

  /** What `splice_step` leaves to its caller. */
  datatype Step = Consumed | Named(id: nat) | Plain

  /** `splice_step`: shifts the slot array in place and returns the new count. */
  method SpliceStep<T>(slots: array<T>, count: nat, empty: T, item: Item) returns (r: Result<Step>, n: nat)
    requires count <= slots.Length
    modifies slots
    ensures r.Err? ==> slots[..] == old(slots[..]) && n == count
    ensures n <= slots.Length
    ensures match item
            case Create(id) =>
              if count >= slots.Length then r == Err(OutOfRange)
              else if id > count then r == Err(Corrupt)
              else r == Ok(Consumed) && n == count + 1 && slots[..] == Inserted(old(slots[..]), count, id, empty)
            case Delete(id) =>
              if id >= count then r == Err(Corrupt)
              else r == Ok(Consumed) && n == count - 1 && slots[..] == Removed(old(slots[..]), count, id, empty)
            case Name(id, _, _) =>
              if id >= slots.Length then r == Err(OutOfRange)
              else r == Ok(Named(id)) && n == (if id >= count then id + 1 else count) && slots[..] == old(slots[..])
            case _ => r == Ok(Plain) && n == count && slots[..] == old(slots[..])
  {
    n := count;
    match item {
      case Create(id) =>
        if count >= slots.Length {
          return Err(OutOfRange), n;
        }
        if id > count {
          return Err(Corrupt), n;
        }
        ShiftUp(slots, count, id, empty);
        return Ok(Consumed), count + 1;
      case Delete(id) =>
        if id >= count {
          return Err(Corrupt), n;
        }
        ShiftDown(slots, count, id, empty);
        return Ok(Consumed), count - 1;
      case Name(id, _, _) =>
        if id >= slots.Length {
          return Err(OutOfRange), n;
        }
        if id >= count {
          n := id + 1;
        }
        return Ok(Named(id)), n;
      case _ =>
        return Ok(Plain), n;
    }
  }

  method ShiftUp<T>(slots: array<T>, count: nat, id: nat, empty: T)
    requires id <= count < slots.Length
    modifies slots
    ensures slots[..] == Inserted(old(slots[..]), count, id, empty)
  {
    var i := count;
    while i > id
      invariant id <= i <= count
      invariant forall j :: 0 <= j < slots.Length ==> slots[j] == if i < j <= count then old(slots[j - 1]) else old(slots[j])
    {
      slots[i] := slots[i - 1];
      i := i - 1;
    }
    slots[id] := empty;
  }

  method ShiftDown<T>(slots: array<T>, count: nat, id: nat, empty: T)
    requires id < count <= slots.Length
    modifies slots
    ensures slots[..] == Removed(old(slots[..]), count, id, empty)
  {
    var i := id;
    while i + 1 < count
      invariant id <= i < count
      invariant forall j :: 0 <= j < slots.Length ==> slots[j] == if id <= j < i then old(slots[j + 1]) else old(slots[j])
    {
      slots[i] := slots[i + 1];
      i := i + 1;
    }
    slots[count - 1] := empty;
  }

  /** A slot as `gather_live_slots` keeps it: without attributes. */
  function Bare(s: Slot): Slot {
    s.(attrs := map[])
  }

  /** `slots` holds the names and layouts of `full`. */
  predicate BareOf(slots: seq<Slot>, full: seq<Slot>) {
    |slots| == |full| && forall i :: 0 <= i < |slots| ==> slots[i] == Bare(full[i])
  }

  lemma BareInserted(slots: seq<Slot>, full: seq<Slot>, count: nat, id: nat)
    requires BareOf(slots, full) && id <= count < |slots|
    ensures BareOf(Inserted(slots, count, id, EMPTY), Inserted(full, count, id, EMPTY))
  {
  }

  lemma BareRemoved(slots: seq<Slot>, full: seq<Slot>, count: nat, id: nat)
    requires BareOf(slots, full) && id < count <= |slots|
    ensures BareOf(Removed(slots, count, id, EMPTY), Removed(full, count, id, EMPTY))
  {
  }

  /** The body of the `gather_live_slots` loop: one tag spliced and stored. */
  method GatherStep(slots: array<Slot>, count: nat, item: Item, ghost r: Roster) returns (e: Option<Error>, n: nat)
    requires Sound(r) && r.count == count && BareOf(slots[..], r.slots)
    modifies slots
    ensures match Apply(r, item)
            case Err(x) => e == Some(x)
            case Ok(t) => e == None && n == t.count && BareOf(slots[..], t.slots)
  {
    ghost var before := slots[..];
    if item.Create? && item.id <= count < slots.Length {
      BareInserted(before, r.slots, count, item.id);
    }
    if item.Delete? && item.id < count {
      BareRemoved(before, r.slots, count, item.id);
    }
    var s;
    s, n := SpliceStep(slots, count, EMPTY, item);
    if s.Err? {
      return Some(s.error), n;
    }
    e := None;
    if s.value.Named? {
      slots[item.id] := slots[item.id].(title := Some(Title(item.kind, item.name)));
    } else if s.value.Plain? && item.Struct? && item.id < slots.Length {
      slots[item.id] := slots[item.id].(content := Some(Content(item.layout, item.body)));
    }
  }

  /** `gather_live_slots`: fills the slot array with the latest names and layouts. */
  method GatherLiveSlots(log: seq<Item>, slots: array<Slot>) returns (e: Option<Error>, count: nat)
    requires forall i :: 0 <= i < slots.Length ==> slots[i] == EMPTY
    modifies slots
    ensures match Replay(Fresh(slots.Length), log)
            case Err(x) => e == Some(x)
            case Ok(t) => e == None && count == t.count && BareOf(slots[..], t.slots)
  {
    count := 0;
    ghost var r := Fresh(slots.Length);
    for i := 0 to |log|
      invariant Sound(r) && Replay(Fresh(slots.Length), log[..i]) == Ok(r)
      invariant r.count == count && BareOf(slots[..], r.slots)
    {
      assert log[..i + 1][..i] == log[..i];
      e, count := GatherStep(slots, count, log[i], r);
      if e.Some? {
        StaysFailed(Fresh(slots.Length), log, i + 1);
        return;
      }
      r := Apply(r, log[i]).value;
    }
    e := None;
    assert log[..|log|] == log;
  }

  /** A replay that fails fails on every longer log, with the same error. */
  lemma {:induction false} StaysFailed(r: Roster, log: seq<Item>, n: nat)
    requires Sound(r) && n <= |log| && Replay(r, log[..n]).Err?
    ensures Replay(r, log) == Replay(r, log[..n])
  {
    if n == |log| {
      assert log[..n] == log;
    } else {
      assert log[..|log| - 1][..n] == log[..n];
      StaysFailed(r, log[..|log| - 1], n);
    }
  }
}
