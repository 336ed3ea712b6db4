/**
 What each `WriteOp` does to a directory (`emit_op` and `emit_compact_range` in
 `src/fs.rs`), entry by entry and read back from the stored bytes.
 */
module Effects {
  import opened Words
  import opened Directory
  import opened Attributes
  import opened Operations
  import opened Rebuild
  import opened Gstate

  // ---- What an entry says --------------------------------------------------------------

  predicate IsNamed(s: Slot, kind: NameKind, name: seq<byte>) {
    s.title == Some(Title(kind, name))
  }

  /** A file whose content stands in the entry. */
  predicate IsInline(s: Slot, content: seq<byte>) {
    s.content == Some(Content(Inline, content))
  }

  /** A file in a chain: the address of its last block in the first word, its size in the second. */
  predicate IsChained(s: Slot, head: nat, size: nat) {
    && s.content.Some? && s.content.value.layout.Ctz? && |s.content.value.body| == 8
    && FromLeNat(s.content.value.body[..4]) == head && FromLeNat(s.content.value.body[4..8]) == size
  }

  predicate IsDirectory(s: Slot, pair: BlockPair) {
    ChildOf(s) == Some(pair)
  }

  /** The entry has exactly the attributes of the list. */
  ghost predicate HasAttrs(s: Slot, moved: seq<Value>) {
    && (forall a :: a in s.attrs <==> exists i :: 0 <= i < |moved| && moved[i].attr == a)
    && (Apart(moved) ==> forall i :: 0 <= i < |moved| ==> Lookup(s.attrs, moved[i].attr) == Some(moved[i].value))
  }

  predicate Apart(moved: seq<Value>) {
    forall i, j :: 0 <= i < j < |moved| ==> moved[i].attr != moved[j].attr
  }

  /** All words of the operation fit a `u32`. */
  predicate Addressed(op: WriteOp) {
    match op
    case CreateCtz(_, _, head, size, _) => head < U32_RANGE && size < U32_RANGE
    case CreateDir(_, _, pair, _) => pair.a < U32_RANGE && pair.b < U32_RANGE
    case UpdateCtz(_, head, size) => head < U32_RANGE && size < U32_RANGE
    case UpdateDirStruct(_, pair) => pair.a < U32_RANGE && pair.b < U32_RANGE
    case _ => true
  }

  // ---- What an operation does ------------------------------------------------------------

  /** One entry more, at the end. */
  predicate Grown(before: seq<Slot>, after: seq<Slot>) {
    |after| == |before| + 1 && forall i :: 0 <= i < |before| ==> after[i] == before[i]
  }

  /** At most entry `id` has changed. */
  predicate OnlyAt(before: seq<Slot>, after: seq<Slot>, id: nat) {
    |after| == |before| && id < |before| && forall i :: 0 <= i < |before| && i != id ==> after[i] == before[i]
  }

  predicate SameBut(s: Slot, t: Slot, content: bool, title: bool, attrs: bool) {
    (content || t.content == s.content) && (title || t.title == s.title) && (attrs || t.attrs == s.attrs)
  }

  predicate SameAttrsBut(s: Slot, t: Slot, a: nat) {
    (forall b :: b in s.attrs && b != a ==> b in t.attrs && t.attrs[b] == s.attrs[b]) && forall b :: b in t.attrs && b != a ==> b in s.attrs
  }

  /** The operation, as its caller means it. */
  ghost predicate Means(op: WriteOp, before: seq<Slot>, after: seq<Slot>) {
    match op
    case CreateFile(_, name, content, moved) =>
      Grown(before, after) && IsNamed(after[|before|], Regular, name) && IsInline(after[|before|], content) && HasAttrs(after[|before|], moved)
    case CreateCtz(_, name, head, size, moved) =>
      Grown(before, after) && IsNamed(after[|before|], Regular, name) && IsChained(after[|before|], head, size) && HasAttrs(after[|before|], moved)
    case CreateDir(_, name, pair, moved) =>
      Grown(before, after) && IsNamed(after[|before|], Folder, name) && IsDirectory(after[|before|], pair) && HasAttrs(after[|before|], moved)
    case Update(id, content) =>
      OnlyAt(before, after, id) && SameBut(before[id], after[id], true, false, false) && IsInline(after[id], content)
    case UpdateCtz(id, head, size) =>
      OnlyAt(before, after, id) && SameBut(before[id], after[id], true, false, false) && IsChained(after[id], head, size)
    case UpdateDirStruct(id, pair) =>
      OnlyAt(before, after, id) && SameBut(before[id], after[id], true, false, false) && IsDirectory(after[id], pair)
    case Rename(id, kind, name) =>
      OnlyAt(before, after, id) && SameBut(before[id], after[id], false, true, false) && IsNamed(after[id], kind, name)
    case SetAttr(id, a, v) =>
      && OnlyAt(before, after, id) && SameBut(before[id], after[id], false, false, true)
      && SameAttrsBut(before[id], after[id], a) && Lookup(after[id].attrs, a) == Some(v)
    case RemoveAttr(id, a) =>
      && OnlyAt(before, after, id) && SameBut(before[id], after[id], false, false, true)
      && SameAttrsBut(before[id], after[id], a) && Lookup(after[id].attrs, a) == None
    case Remove(id) =>
      && |after| + 1 == |before| && id < |before|
      && (forall i :: 0 <= i < id ==> after[i] == before[i]) && forall i :: id <= i < |after| ==> after[i] == before[i + 1]
    case Noop => after == before
  }

  lemma TwoWordsParts(a: nat, b: nat)
    requires a < U32_RANGE && b < U32_RANGE
    ensures var w := TwoWords(a, b); |w| == 8 && FromLeNat(w[..4]) == a && FromLeNat(w[4..8]) == b
  {
    TwoWordsRead(a, b);
  }

  lemma CollectedHas(moved: seq<Value>, s: Slot)
    requires s.attrs == Collected(moved)
    ensures HasAttrs(s, moved)
  {
    forall a
      ensures a in s.attrs <==> exists i :: 0 <= i < |moved| && moved[i].attr == a
    {
      CollectedKeys(moved, a);
    }
    if Apart(moved) {
      forall i | 0 <= i < |moved|
        ensures Lookup(s.attrs, moved[i].attr) == Some(moved[i].value)
      {
        CollectedAt(moved, i);
      }
    }
  }

  lemma CreateMeans(op: WriteOp, listing: seq<Slot>)
    requires Adds(op) && Addressed(op)
    ensures Means(op, listing, Effect(op, listing))
  {
    CollectedHas(op.moved, Effect(op, listing)[|listing|]);
    match op
    case CreateFile(_, _, _, _) =>
    case CreateCtz(_, _, head, size, _) => TwoWordsParts(head, size);
    case CreateDir(_, _, pair, _) => TwoWordsParts(pair.a, pair.b);
  }

  lemma UpdateMeans(op: WriteOp, listing: seq<Slot>)
    requires Replacement(op).Some? && Addressed(op) && op.id < |listing|
    ensures Means(op, listing, Effect(op, listing))
  {
    match op
    case Update(_, _) =>
    case UpdateCtz(_, head, size) => TwoWordsParts(head, size);
    case UpdateDirStruct(_, pair) => TwoWordsParts(pair.a, pair.b);
  }

  lemma EditMeans(op: WriteOp, listing: seq<Slot>)
    requires !Adds(op) && Replacement(op).None? && (op.Noop? || op.id < |listing|)
    ensures Means(op, listing, Effect(op, listing))
  {
  }

  /** The listing function means what the caller does. */
  lemma EffectMeans(op: WriteOp, listing: seq<Slot>)
    requires Addressed(op) && (op.Noop? || Adds(op) || op.id < |listing|)
    ensures Means(op, listing, Effect(op, listing))
  {
    if Adds(op) {
      CreateMeans(op, listing);
    } else if Replacement(op).Some? {
      UpdateMeans(op, listing);
    } else {
      EditMeans(op, listing);
    }
  }

  /** Appending an operation's tags to any log does to the listing what the operation means. */
  lemma AppendMeans(r: Roster, op: WriteOp)
    requires Sound(r) && Fits(op, r.count, |r.slots|) && Addressed(op)
    ensures Replay(r, EmitOp(op)).Ok? && Means(op, Live(r), Live(Replay(r, EmitOp(op)).value))
  {
    AppendMeansEffect(r, op);
    EffectMeans(op, Live(r));
  }

  /** So does a rebuilt block. */
  lemma RebuildMeans(cap: nat, log: seq<Item>, k: nat, q: Request)
    requires WellFormed(cap, log, k) && Readable(cap, log) && Sized(q) && Fits(q.op, |ViewOf(cap, log).listing|, cap) && Addressed(q.op)
    requires RebuildItems(log, ViewOf(cap, log), q).Ok?
    ensures var all := RebuildItems(log, ViewOf(cap, log), q).value;
            Readable(cap, all) && Means(q.op, ViewOf(cap, log).listing, ViewOf(cap, all).listing)
  {
    RebuildMeansIntended(cap, log, k, q);
    EffectMeans(q.op, ViewOf(cap, log).listing);
  }
}
