/**
 What a log without splices lists, as the C writer's compaction leaves one
 (`gather_live_slots` in `src/fs.rs`): entry by entry, what was said of it last.
 */
module Prefixes {
  import opened Words
  import opened Directory
  import opened Attributes

  predicate Spliceless(log: seq<Item>) {
    forall i :: 0 <= i < |log| ==> !IsSplice(log[i])
  }

  function TitleAt(id: nat): Item -> Option<Title> {
    (item: Item) => if item.Name? && item.id == id then Some(Title(item.kind, item.name)) else None
  }

  function ContentAt(id: nat): Item -> Option<Content> {
    (item: Item) => if item.Struct? && item.id == id then Some(Content(item.layout, item.body)) else None
  }

  /** What is said of an attribute, which may be that it is removed. */
  function AttrAt(id: nat, a: nat): Item -> Option<Option<seq<byte>>> {
    (item: Item) => if item.Attr? && item.id == id && item.attr == a then Some(item.value) else None
  }

  /** The attribute's value as last said. */
  function Said(log: seq<Item>, id: nat, a: nat): Option<seq<byte>> {
    var last := Latest(AttrAt(id, a), log);
    if last.Some? then last.value else None
  }

  /** The slot holds what the log said last of its id. */
  ghost predicate SlotSays(s: Slot, log: seq<Item>, id: nat) {
    s.title == Latest(TitleAt(id), log) && s.content == Latest(ContentAt(id), log) && forall a :: Lookup(s.attrs, a) == Said(log, id, a)
  }

  predicate NamesAtLeast(log: seq<Item>, id: nat) {
    exists j :: 0 <= j < |log| && log[j].Name? && log[j].id >= id
  }

  lemma NamesAtLeastSnoc(log: seq<Item>, id: nat)
    requires log != []
    ensures var last := log[|log| - 1];
            NamesAtLeast(log, id) <==> NamesAtLeast(log[..|log| - 1], id) || (last.Name? && last.id >= id)
  {
    var init := log[..|log| - 1];
    if NamesAtLeast(init, id) {
      var j :| 0 <= j < |init| && init[j].Name? && init[j].id >= id;
      assert log[j] == init[j];
    }
    if NamesAtLeast(log, id) {
      var j :| 0 <= j < |log| && log[j].Name? && log[j].id >= id;
      assert j < |init| ==> init[j] == log[j];
    }
  }

  lemma OneSaid(r: Roster, t: Roster, log: seq<Item>, id: nat)
    requires log != [] && !IsSplice(log[|log| - 1]) && Sound(r) && Apply(r, log[|log| - 1]) == Ok(t) && id < |r.slots|
    requires SlotSays(r.slots[id], log[..|log| - 1], id)
    ensures SlotSays(t.slots[id], log, id)
  {
    forall a
      ensures Lookup(t.slots[id].attrs, a) == Said(log, id, a)
    {
      assert Lookup(r.slots[id].attrs, a) == Said(log[..|log| - 1], id, a);
    }
  }

  /**
   A log without splices is read exactly when no name is past the table; every slot then
   holds what was said last of its id, and the entries are those up to the highest name.
   */
  lemma {:induction false} LastSaid(cap: nat, log: seq<Item>)
    requires Spliceless(log)
    ensures Replay(Fresh(cap), log).Ok? <==> !NamesAtLeast(log, cap)
    ensures Replay(Fresh(cap), log).Ok? ==>
              var r := Replay(Fresh(cap), log).value;
              && (forall id :: 0 <= id < cap ==> SlotSays(r.slots[id], log, id))
              && (forall id :: 0 <= id < cap ==> (id < r.count <==> NamesAtLeast(log, id)))
  {
    if log != [] {
      var init := log[..|log| - 1];
      LastSaid(cap, init);
      NamesAtLeastSnoc(log, cap);
      if Replay(Fresh(cap), log).Ok? {
        var r, t := Replay(Fresh(cap), init).value, Replay(Fresh(cap), log).value;
        forall id | 0 <= id < cap
          ensures SlotSays(t.slots[id], log, id) && (id < t.count <==> NamesAtLeast(log, id))
        {
          OneSaid(r, t, log, id);
          NamesAtLeastSnoc(log, id);
        }
      }
    }
  }
}
