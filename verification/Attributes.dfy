/**
 Attribute lookup by a backward walk with a running splice difference
 (`attr_get` and `for_each_live_attr` in `src/dir.rs`), compared with the
 forward replay of `Directory`.
 */
module Attributes {
  import opened Words
  import opened Directory

  // ---- Well-formed logs ------------------------------------------------------------

  predicate IsSplice(item: Item) {
    item.Create? || item.Delete?
  }

  /** An entry's tag names an entry that exists. */
  predicate Within(item: Item, count: nat) {
    match item
    case Name(id, _, _) => id < count
    case Struct(id, _, _) => id < count
    case Attr(id, _, _) => id < count
    case _ => true
  }

  /**
   The log replays, and only its first `k` tags, a compacted prefix without
   splices, may name an id before the tag that establishes it.
   */
  predicate WellFormed(cap: nat, log: seq<Item>, k: nat) {
    log == [] ||
    (var init, last := log[..|log| - 1], log[|log| - 1];
     && WellFormed(cap, init, k)
     && Replay(Fresh(cap), init).Ok? && Apply(Replay(Fresh(cap), init).value, last).Ok?
     && (if |log| <= k then !IsSplice(last) else Within(last, Replay(Fresh(cap), init).value.count)))
  }

  // ---- The backward walk -------------------------------------------------------------

  /** The live value of attribute `a` of the entry that has id `adj` at the end of `log`. */
  function Find(log: seq<Item>, adj: int, a: nat): Option<seq<byte>> {
    if log == [] then None
    else
      var init := log[..|log| - 1];
      match log[|log| - 1]
      case Create(id) => if id == adj then None else Find(init, if id < adj then adj - 1 else adj, a)
      case Delete(id) => Find(init, if id <= adj then adj + 1 else adj, a)
      case Attr(id, b, value) => if id == adj && b == a then value else Find(init, adj, a)
      case _ => Find(init, adj, a)
  }

  function Lookup(attrs: map<nat, seq<byte>>, a: nat): Option<seq<byte>> {
    if a in attrs then Some(attrs[a]) else None
  }

  lemma FindStep(r: Roster, t: Roster, item: Item, adj: nat, a: nat) returns (prev: int)
    requires Sound(r) && Apply(r, item) == Ok(t) && adj < |r.slots|
    requires IsSplice(item) ==> adj < t.count
    ensures IsSplice(item) && !(item.Create? && item.id == adj) ==> 0 <= prev < r.count
    ensures !IsSplice(item) ==> prev == adj
    ensures 0 <= prev < |r.slots|
    ensures item.Create? ==> if item.id == adj then t.slots[adj] == EMPTY else prev == (if item.id < adj then adj - 1 else adj) && t.slots[adj] == r.slots[prev]
    ensures item.Delete? ==> prev == (if item.id <= adj then adj + 1 else adj) && t.slots[adj] == r.slots[prev]
    ensures item.Attr? ==> t.slots[adj].attrs == if item.id == adj then WithAttr(r.slots[adj].attrs, item.attr, item.value) else r.slots[adj].attrs
    ensures !IsSplice(item) && !item.Attr? ==> t.slots[adj].attrs == r.slots[adj].attrs
  {
    prev := match item
      case Create(id) => if id < adj then adj - 1 else adj
      case Delete(id) => if id <= adj then adj + 1 else adj
      case _ => adj;
  }

  /** On every well-formed log the backward walk finds what the forward replay holds. */
  lemma {:induction false} FindExact(cap: nat, log: seq<Item>, k: nat, adj: nat, a: nat)
    requires WellFormed(cap, log, k) && Replay(Fresh(cap), log).Ok?
    requires adj < (if |log| <= k then cap else Replay(Fresh(cap), log).value.count)
    ensures Find(log, adj, a) == Lookup(Replay(Fresh(cap), log).value.slots[adj].attrs, a)
  {
    if log != [] {
      var init, item := log[..|log| - 1], log[|log| - 1];
      var r, t := Replay(Fresh(cap), init).value, Replay(Fresh(cap), log).value;
      var prev := FindStep(r, t, item, adj, a);
      if !(item.Create? && item.id == adj) {
        FindExact(cap, init, k, prev, a);
      }
    }
  }

  /** `attr_get` on the entry whose current id is `live`. */
  method AttrGet(log: seq<Item>, live: nat, a: nat) returns (r: Option<seq<byte>>)
    ensures r == Find(log, live, a)
  {
    var gdiff: int := 0;
    var n := |log|;
    assert log[..n] == log;
    while n > 0
      invariant 0 <= n <= |log|
      invariant Find(log[..n], live - gdiff, a) == Find(log, live, a)
    {
      n := n - 1;
      var adj := live - gdiff;
      assert log[..n + 1][..n] == log[..n];
      match log[n] {
        case Create(id) =>
          if id <= adj {
            if id == adj {
              return None;
            }
            gdiff := gdiff + 1;
          }
        case Delete(id) =>
          if id <= adj {
            gdiff := gdiff - 1;
          }
        case Attr(id, b, value) =>
          if b == a && id == adj {
            return value;
          }
        case _ =>
      }
    }
    return None;
  }

  // ---- Enumerating the live attributes -----------------------------------------------

  /** An attribute id and its value. */
  datatype Value = Value(attr: nat, value: seq<byte>)

  /** What the enumeration yields, newest first, for ids not in `seen`. */
  function Emitted(log: seq<Item>, adj: int, seen: set<nat>): seq<Value> {
    if log == [] then []
    else
      var init := log[..|log| - 1];
      match log[|log| - 1]
      case Create(id) => if id == adj then [] else Emitted(init, if id < adj then adj - 1 else adj, seen)
      case Delete(id) => Emitted(init, if id <= adj then adj + 1 else adj, seen)
      case Attr(id, b, value) =>
        if id == adj && b !in seen then
          (if value.Some? then [Value(b, value.value)] else []) + Emitted(init, adj, seen + {b})
        else Emitted(init, adj, seen)
      case _ => Emitted(init, adj, seen)
  }

  /** No attribute twice, none that was seen, and each one found by the single lookup. */
  ghost predicate Faithful(pairs: seq<Value>, log: seq<Item>, adj: int, seen: set<nat>) {
    && (forall i, j :: 0 <= i < j < |pairs| ==> pairs[i].attr != pairs[j].attr)
    && (forall i :: 0 <= i < |pairs| ==> pairs[i].attr !in seen && Find(log, adj, pairs[i].attr) == Some(pairs[i].value))
    && (forall a :: a !in seen && Find(log, adj, a).Some? ==> Value(a, Find(log, adj, a).value) in pairs)
  }

  lemma {:induction false} EmittedFaithful(log: seq<Item>, adj: int, seen: set<nat>)
    ensures Faithful(Emitted(log, adj, seen), log, adj, seen)
  {
    if log != [] {
      var init := log[..|log| - 1];
      match log[|log| - 1]
      case Create(id) =>
        EmittedFaithful(init, if id < adj then adj - 1 else adj, seen);
      case Delete(id) =>
        EmittedFaithful(init, if id <= adj then adj + 1 else adj, seen);
      case Attr(id, b, value) =>
        EmittedFaithful(init, adj, if id == adj then seen + {b} else seen);
        if id == adj {
          if b !in seen {
            FaithfulCons(log, adj, seen, b, value);
          } else {
            assert seen + {b} == seen;
          }
        }
      case _ =>
        EmittedFaithful(init, adj, seen);
    }
  }

  lemma {:induction false} FaithfulCons(log: seq<Item>, adj: int, seen: set<nat>, b: nat, value: Option<seq<byte>>)
    requires log != [] && adj >= 0 && log[|log| - 1] == Attr(adj, b, value) && b !in seen
    requires Faithful(Emitted(log[..|log| - 1], adj, seen + {b}), log[..|log| - 1], adj, seen + {b})
    ensures Faithful(Emitted(log, adj, seen), log, adj, seen)
  {
    var rest := Emitted(log[..|log| - 1], adj, seen + {b});
    var all := Emitted(log, adj, seen);
    assert all == (if value.Some? then [Value(b, value.value)] else []) + rest;
    assert Find(log, adj, b) == value;
    forall a | a !in seen && Find(log, adj, a).Some?
      ensures Value(a, Find(log, adj, a).value) in all
    {
      if a == b {
        assert all[0] == Value(b, value.value);
      } else {
        assert Value(a, Find(log, adj, a).value) in rest;
      }
    }
  }

  /** `for_each_live_attr`, with the calls it makes collected in order. */
  method ForEachLiveAttr(log: seq<Item>, live: nat) returns (calls: seq<Value>)
    ensures calls == Emitted(log, live, {})
  {
    var seen: set<nat> := {};
    var gdiff: int := 0;
    var n := |log|;
    calls := [];
    assert log[..n] == log;
    while n > 0
      invariant 0 <= n <= |log|
      invariant calls + Emitted(log[..n], live - gdiff, seen) == Emitted(log, live, {})
    {
      n := n - 1;
      var adj := live - gdiff;
      assert log[..n + 1][..n] == log[..n];
      match log[n] {
        case Create(id) =>
          if id <= adj {
            if id == adj {
              return;
            }
            gdiff := gdiff + 1;
          }
        case Delete(id) =>
          if id <= adj {
            gdiff := gdiff - 1;
          }
        case Attr(id, b, value) =>
          if id == adj && b !in seen {
            seen := seen + {b};
            if value.Some? {
              calls := calls + [Value(b, value.value)];
            }
          }
        case _ =>
      }
    }
  }

  // ---- The enumeration is the replayed map -------------------------------------------

  /** `base` after a run of attribute tags. */
  function Merged(base: map<nat, seq<byte>>, pairs: seq<Value>): map<nat, seq<byte>> {
    if pairs == [] then base
    else Merged(base, pairs[..|pairs| - 1])[pairs[|pairs| - 1].attr := pairs[|pairs| - 1].value]
  }

  /** The map a run of attribute tags builds. */
  function Collected(pairs: seq<Value>): map<nat, seq<byte>> {
    Merged(map[], pairs)
  }

  lemma {:induction false} CollectedKeys(pairs: seq<Value>, a: nat)
    ensures a in Collected(pairs) <==> exists i :: 0 <= i < |pairs| && pairs[i].attr == a
  {
    if pairs != [] {
      var init := pairs[..|pairs| - 1];
      CollectedKeys(init, a);
      if a in Collected(init) {
        var i :| 0 <= i < |init| && init[i].attr == a;
        assert pairs[i].attr == a;
      }
    }
  }

  lemma {:induction false} CollectedAt(pairs: seq<Value>, k: nat)
    requires k < |pairs| && forall i, j :: 0 <= i < j < |pairs| ==> pairs[i].attr != pairs[j].attr
    ensures pairs[k].attr in Collected(pairs) && Collected(pairs)[pairs[k].attr] == pairs[k].value
  {
    if k < |pairs| - 1 {
      CollectedAt(pairs[..|pairs| - 1], k);
    }
  }

  /** The attributes enumerated for a live entry are exactly its replayed attribute map. */
  lemma EmittedExact(cap: nat, log: seq<Item>, k: nat, live: nat)
    requires WellFormed(cap, log, k) && Replay(Fresh(cap), log).Ok? && live < Replay(Fresh(cap), log).value.count
    ensures Collected(Emitted(log, live, {})) == Replay(Fresh(cap), log).value.slots[live].attrs
  {
    var pairs, attrs := Emitted(log, live, {}), Replay(Fresh(cap), log).value.slots[live].attrs;
    EmittedFaithful(log, live, {});
    forall a
      ensures Lookup(Collected(pairs), a) == Lookup(attrs, a)
    {
      FindExact(cap, log, k, live, a);
      CollectedKeys(pairs, a);
      if a in Collected(pairs) {
        var i :| 0 <= i < |pairs| && pairs[i].attr == a;
        CollectedAt(pairs, i);
      }
      if a in attrs {
        assert Value(a, attrs[a]) in pairs;
      }
    }
    SameLookups(Collected(pairs), attrs);
  }

  lemma SameLookups(m: map<nat, seq<byte>>, n: map<nat, seq<byte>>)
    requires forall a :: Lookup(m, a) == Lookup(n, a)
    ensures m == n
  {
    assert forall a :: a in m ==> Lookup(m, a) == Lookup(n, a);
    assert forall a :: a in n ==> Lookup(m, a) == Lookup(n, a);
  }
}
