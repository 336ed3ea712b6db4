/**
 The used-block scan (`scan_used_blocks` in `src/alloc.rs`): a worklist walk
 from the root that marks every pair it visits and every chain it finds, and
 takes "both blocks marked" for "visited".
 */
module Scan {
  import opened Words
  import opened Storage
  import opened CtzChain
  import opened Directory
  import opened Rebuild
  import opened Structs
  import opened Bitmaps
  import opened ChainScan

  /** The committed log of every pair. */
  type Logs = map<BlockPair, seq<Item>>

  function First(body: seq<byte>): nat
    requires |body| == 8
  {
    FromLeNat(body[..4])
  }

  function Second(body: seq<byte>): nat
    requires |body| == 8
  {
    FromLeNat(body[4..8])
  }

  function Blocks(p: BlockPair): set<nat> {
    {p.a, p.b}
  }

  /** The gathered layouts of a pair's entries. */
  function Layouts(cap: nat, log: seq<Item>): seq<Option<Content>>
    requires Gather(Nothing(cap), log).Ok?
  {
    Gather(Nothing(cap), log).value.slots[..Gather(Nothing(cap), log).value.count]
  }

  function TailOf(log: seq<Item>): Option<Thread> {
    Collapse(Latest(TailIn, log))
  }

  predicate IsChain(c: Option<Content>) {
    c.Some? && c.value.layout.Ctz? && |c.value.body| == 8
  }

  predicate IsFolder(c: Option<Content>) {
    c.Some? && c.value.layout.Pair? && |c.value.body| == 8
  }

  function FolderPair(c: Option<Content>): BlockPair
    requires IsFolder(c)
  {
    BlockPair(First(c.value.body), Second(c.value.body))
  }

  // ---- What the scan is run on ------------------------------------------------------------

  /** The blocks of each chain, by its head and size. */
  type ChainMap = (nat, nat) -> seq<nat>

  /** A gathered layout is sound: a folder's pair is known, a chain is well formed, and chains own no pair's block. */
  ghost predicate LayoutOk(disk: Disk, blockSize: nat, pairs: set<BlockPair>, chains: ChainMap, c: Option<Content>) {
    && (IsFolder(c) ==> FolderPair(c) in pairs)
    && (IsChain(c) ==>
          var head, size := First(c.value.body), Second(c.value.body);
          && size < U32_RANGE
          && (size > 0 ==> ChainOf(disk, blockSize, head, size, chains(head, size)))
          && (forall p :: p in pairs ==> Blocks(p) !! ChainBlocks(chains, c)))
  }

  /** The blocks a chain layout owns. */
  function ChainBlocks(chains: ChainMap, c: Option<Content>): set<nat>
    requires IsChain(c)
  {
    if Second(c.value.body) == 0 then {} else Members(chains(First(c.value.body), Second(c.value.body)))
  }

  /**
   The forest under scan: `pairs` holds every referenced pair, distinct pairs
   share no block, and every layout a log leaves in the slot array is sound, also
   one parked beyond the log's count, since a later pair may read it out.
   */
  ghost predicate Scannable(logs: Logs, cap: nat, disk: Disk, blockSize: nat, pairs: set<BlockPair>, chains: ChainMap) {
    && (forall p, q :: p in pairs && q in pairs && p != q ==> Blocks(p) !! Blocks(q))
    && (forall p :: p in pairs ==> PairOk(logs, cap, disk, blockSize, pairs, chains, p))
  }

  ghost predicate AllOk(disk: Disk, blockSize: nat, pairs: set<BlockPair>, chains: ChainMap, layouts: seq<Option<Content>>) {
    forall i :: 0 <= i < |layouts| ==> LayoutOk(disk, blockSize, pairs, chains, layouts[i])
  }

  ghost predicate PairOk(logs: Logs, cap: nat, disk: Disk, blockSize: nat, pairs: set<BlockPair>, chains: ChainMap, p: BlockPair) {
    && p in logs
    && (TailOf(logs[p]).Some? ==> TailOf(logs[p]).value.pair in pairs)
    && (Gather(Nothing(cap), logs[p]).Ok? ==> AllOk(disk, blockSize, pairs, chains, Gather(Nothing(cap), logs[p]).value.slots))
  }

  // ---- Progress ------------------------------------------------------------------------------

  /** The blocks of the chains among `layouts`. */
  function ChainsOf(chains: ChainMap, layouts: seq<Option<Content>>): set<nat> {
    if layouts == [] then {}
    else ChainsOf(chains, layouts[..|layouts| - 1]) + Added(chains, layouts[|layouts| - 1])
  }

  /** Everything the scan owes for one pair. */
  function Owned(logs: Logs, cap: nat, chains: ChainMap, p: BlockPair): set<nat>
    requires p in logs && Gather(Nothing(cap), logs[p]).Ok?
  {
    Blocks(p) + ChainsOf(chains, Layouts(cap, logs[p]))
  }

  /** Marked blocks are those of `visited` pairs and of chains, which belong to no pair. */
  ghost predicate Marks(pairs: set<BlockPair>, visited: seq<BlockPair>, marked: set<nat>) {
    && (forall p :: p in visited ==> Blocks(p) <= marked)
    && (forall p :: p in pairs && p !in visited ==> Blocks(p) !! marked)
  }

  lemma {:induction false} ChainsApart(disk: Disk, blockSize: nat, pairs: set<BlockPair>, chains: ChainMap, layouts: seq<Option<Content>>, p: BlockPair)
    requires p in pairs && AllOk(disk, blockSize, pairs, chains, layouts)
    ensures Blocks(p) !! ChainsOf(chains, layouts)
  {
    if layouts != [] {
      ChainsApart(disk, blockSize, pairs, chains, layouts[..|layouts| - 1], p);
      assert LayoutOk(disk, blockSize, pairs, chains, layouts[|layouts| - 1]);
    }
  }

  /** Visiting one more pair. */
  lemma MarksVisit(pairs: set<BlockPair>, visited: seq<BlockPair>, marked: set<nat>, p: BlockPair, more: set<nat>)
    requires Marks(pairs, visited, marked) && p in pairs
    requires forall q :: q in pairs && q != p ==> Blocks(p) !! Blocks(q)
    requires forall q :: q in pairs ==> Blocks(q) !! more
    ensures Marks(pairs, visited + [p], marked + Blocks(p) + more)
  {
  }

  /** Both blocks marked means visited. */
  lemma MarkedMeansVisited(pairs: set<BlockPair>, visited: seq<BlockPair>, marked: set<nat>, t: BlockPair)
    requires Marks(pairs, visited, marked) && t in pairs && t.a in marked
    ensures t in visited
  {
    assert t.a in Blocks(t);
  }

  // ---- The scan -------------------------------------------------------------------------------

  predicate InBounds(disk: Disk, p: BlockPair) {
    p.a < |disk| && p.b < |disk|
  }

  /** Every pair is on the device, and the walk's lists have room for all. */
  ghost predicate Roomy(disk: Disk, limit: nat, pairs: set<BlockPair>) {
    (forall p :: p in pairs ==> InBounds(disk, p)) && |pairs| <= limit
  }

  lemma {:induction false} ListWithin(list: seq<BlockPair>, pairs: set<BlockPair>)
    requires Distinct(list) && forall p :: p in list ==> p in pairs
    ensures |list| <= |pairs|
  {
    if list != [] {
      var init, last := list[..|list| - 1], list[|list| - 1];
      assert last in list;
      forall p | p in init
        ensures p in pairs - {last}
      {
        var i :| 0 <= i < |init| && init[i] == p;
        assert list[i] == p && p in list;
      }
      ListWithin(init, pairs - {last});
    }
  }

  /** A list that lacks a pair has room for it. */
  lemma ListHasRoom(list: seq<BlockPair>, p: BlockPair, pairs: set<BlockPair>, limit: nat)
    requires Distinct(list) && (forall q :: q in list ==> q in pairs) && p in pairs && p !in list && |pairs| <= limit
    ensures |list| < limit
  {
    ListWithin(list + [p], pairs);
  }

  /** A collected child is new: not listed yet, and not both its blocks were marked at `base`. */
  ghost predicate Children(pairs: set<BlockPair>, children: seq<BlockPair>, base: set<nat>) {
    Distinct(children) && forall c :: c in children ==> c in pairs && !(Blocks(c) <= base)
  }

  /** The pair is taken care of: collected, or marked. */
  ghost predicate Settled(children: seq<BlockPair>, marked: set<nat>, t: BlockPair) {
    t in children || Blocks(t) <= marked
  }

  /** Collects a link's target unless it is marked or collected already. */
  method Collect(disk: Disk, used: Bitmap, children: seq<BlockPair>, t: BlockPair, limit: nat, ghost pairs: set<BlockPair>, ghost base: set<nat>)
    returns (r: Result<seq<BlockPair>>)
    requires t in pairs && Children(pairs, children, base) && base <= used.marked && (forall b :: b in Blocks(t) ==> b < used.cap || b >= |disk|)
    ensures r.Ok? ==> children <= r.value && Children(pairs, r.value, base) && Settled(r.value, used.marked, t)
    ensures Roomy(disk, limit, pairs) ==> r.Ok?
  {
    if Roomy(disk, limit, pairs) && t !in children {
      ListHasRoom(children, t, pairs, limit);
    }
    if !InBounds(disk, t) {
      return Err(Corrupt);
    }
    if (!used.IsSet(t.a) || !used.IsSet(t.b)) && t !in children {
      if |children| >= limit {
        return Err(OutOfRange);
      }
      assert !(Blocks(t) <= base) by {
        assert t.a in Blocks(t) && t.b in Blocks(t);
      }
      var more := children + [t];
      return Ok(more);
    }
    return Ok(children);
  }

  /** All folders among the layouts are taken care of. */
  ghost predicate FoldersSettled(layouts: seq<Option<Content>>, children: seq<BlockPair>, marked: set<nat>) {
    forall i :: 0 <= i < |layouts| && IsFolder(layouts[i]) ==> Settled(children, marked, FolderPair(layouts[i]))
  }

  /** What one layout adds to the marks. */
  function Added(chains: ChainMap, c: Option<Content>): set<nat> {
    if IsChain(c) then ChainBlocks(chains, c) else {}
  }

  /** One entry: its chain walked, or its folder collected. */
  method VisitLayout(disk: Disk, unit: nat, blockSize: nat, c: Option<Content>, used: Bitmap, children: seq<BlockPair>, limit: nat,
                     ghost pairs: set<BlockPair>, ghost chains: ChainMap, ghost base: set<nat>) returns (r: Result<seq<BlockPair>>)
    requires Geometry(disk, unit, blockSize) && |disk| <= used.cap && LayoutOk(disk, blockSize, pairs, chains, c)
    requires Children(pairs, children, base) && base <= used.marked
    modifies used
    ensures old(used.marked) <= used.marked
    ensures r.Ok? ==> used.marked == old(used.marked) + Added(chains, c)
    ensures r.Ok? ==> children <= r.value && Children(pairs, r.value, base) && (IsFolder(c) ==> Settled(r.value, used.marked, FolderPair(c)))
    ensures Roomy(disk, limit, pairs) ==> r.Ok?
  {
    if IsChain(c) {
      var head, size := First(c.value.body), Second(c.value.body);
      var w := WalkChain(disk, unit, blockSize, head, size, used, chains(head, size));
      match w
      case Ok(_) => return Ok(children);
      case Err(e) => return Err(e);
    } else if IsFolder(c) {
      r := Collect(disk, used, children, FolderPair(c), limit, pairs, base);
    } else {
      return Ok(children);
    }
  }

  lemma SettledOnward(children: seq<BlockPair>, more: seq<BlockPair>, marked: set<nat>, marked': set<nat>, layouts: seq<Option<Content>>)
    requires children <= more && marked <= marked' && FoldersSettled(layouts, children, marked)
    ensures FoldersSettled(layouts, more, marked')
  {
  }

  lemma SettledSnoc(layouts: seq<Option<Content>>, c: Option<Content>, children: seq<BlockPair>, marked: set<nat>)
    requires FoldersSettled(layouts, children, marked) && (IsFolder(c) ==> Settled(children, marked, FolderPair(c)))
    ensures FoldersSettled(layouts + [c], children, marked)
  {
  }

  lemma ChainsSnoc(chains: ChainMap, layouts: seq<Option<Content>>, c: Option<Content>)
    ensures ChainsOf(chains, layouts + [c]) == ChainsOf(chains, layouts) + Added(chains, c)
  {
    assert (layouts + [c])[..|layouts|] == layouts;
  }

  /** The layouts are dealt with: their chains are added to the marks and their folders taken care of. */
  ghost predicate Visited(chains: ChainMap, layouts: seq<Option<Content>>, children: seq<BlockPair>, base: set<nat>, marked: set<nat>) {
    marked == base + ChainsOf(chains, layouts) && FoldersSettled(layouts, children, marked)
  }

  lemma VisitedStep(chains: ChainMap, layouts: seq<Option<Content>>, i: nat, children: seq<BlockPair>, more: seq<BlockPair>, base: set<nat>, marked: set<nat>, now: set<nat>)
    requires i < |layouts| && Visited(chains, layouts[..i], children, base, marked) && children <= more && now == marked + Added(chains, layouts[i])
    requires IsFolder(layouts[i]) ==> Settled(more, now, FolderPair(layouts[i]))
    ensures Visited(chains, layouts[..i + 1], more, base, now)
  {
    assert layouts[..i + 1] == layouts[..i] + [layouts[i]];
    SettledOnward(children, more, marked, now, layouts[..i]);
    SettledSnoc(layouts[..i], layouts[i], more, now);
    ChainsSnoc(chains, layouts[..i], layouts[i]);
  }

  /** The entries of one pair: every chain walked, every folder collected. */
  method VisitLayouts(disk: Disk, unit: nat, blockSize: nat, layouts: seq<Option<Content>>, used: Bitmap, limit: nat,
                      ghost pairs: set<BlockPair>, ghost chains: ChainMap) returns (r: Result<seq<BlockPair>>)
    requires Geometry(disk, unit, blockSize) && |disk| <= used.cap
    requires AllOk(disk, blockSize, pairs, chains, layouts)
    modifies used
    ensures old(used.marked) <= used.marked
    ensures r.Ok? ==> Children(pairs, r.value, old(used.marked)) && Visited(chains, layouts, r.value, old(used.marked), used.marked)
    ensures Roomy(disk, limit, pairs) ==> r.Ok?
  {
    r := Ok([]);
    assert layouts[..0] == [];
    for i := 0 to |layouts|
      invariant old(used.marked) <= used.marked && r.Ok?
      invariant Children(pairs, r.value, old(used.marked)) && Visited(chains, layouts[..i], r.value, old(used.marked), used.marked)
    {
      ghost var before, marked := r.value, used.marked;
      r := VisitLayout(disk, unit, blockSize, layouts[i], used, r.value, limit, pairs, chains, old(used.marked));
      if r.Err? {
        return;
      }
      VisitedStep(chains, layouts, i, before, r.value, old(used.marked), marked, used.marked);
    }
    assert layouts[..|layouts|] == layouts;
  }

  /** Appends the children that are not queued behind `head`. */
  method EnqueueAll(queue: seq<BlockPair>, head: nat, children: seq<BlockPair>, limit: nat, ghost pairs: set<BlockPair>) returns (r: Result<seq<BlockPair>>)
    requires head <= |queue| && Distinct(queue) && Distinct(children)
    requires forall c :: c in children ==> c !in queue[..head]
    ensures r.Ok? ==> queue <= r.value && Distinct(r.value) && |r.value| <= Max(|queue|, limit)
    ensures r.Ok? ==> forall c :: c in r.value <==> c in queue || c in children
    ensures (forall c :: c in queue || c in children ==> c in pairs) && |pairs| <= limit ==> r.Ok?
  {
    var q := queue;
    for i := 0 to |children|
      invariant queue <= q && Distinct(q) && |q| <= Max(|queue|, limit)
      invariant forall c :: c in q <==> c in queue || c in children[..i]
    {
      var c := children[i];
      assert children[..i + 1] == children[..i] + [c];
      if c !in queue[head..] {
        NotQueued(queue, head, children, i);
        if (forall c :: c in queue || c in children ==> c in pairs) && |pairs| <= limit {
          assert c in children;
          ListHasRoom(q, c, pairs, limit);
        }
        if |q| >= limit {
          return Err(OutOfRange);
        }
        q := q + [c];
      } else {
        assert c in queue;
      }
    }
    assert children[..|children|] == children;
    return Ok(q);
  }

  lemma NotQueued(queue: seq<BlockPair>, head: nat, children: seq<BlockPair>, i: nat)
    requires head <= |queue| && i < |children| && Distinct(children) && children[i] !in queue[..head] && children[i] !in queue[head..]
    ensures children[i] !in queue && children[i] !in children[..i]
  {
    assert queue == queue[..head] + queue[head..];
  }

  function Max(a: nat, b: nat): nat {
    if a >= b then a else b
  }

  /** Every link of `p` ends in the queue. */
  ghost predicate LinksQueued(logs: Logs, cap: nat, p: BlockPair, queue: seq<BlockPair>)
    requires p in logs && Gather(Nothing(cap), logs[p]).Ok?
  {
    && (TailOf(logs[p]).Some? ==> TailOf(logs[p]).value.pair in queue)
    && (forall i :: 0 <= i < |Layouts(cap, logs[p])| && IsFolder(Layouts(cap, logs[p])[i]) ==> FolderPair(Layouts(cap, logs[p])[i]) in queue)
  }

  /** `p` is done: its blocks and chains are marked and its links are queued. */
  ghost predicate Done(logs: Logs, cap: nat, chains: ChainMap, queue: seq<BlockPair>, marked: set<nat>, p: BlockPair) {
    p in logs && Gather(Nothing(cap), logs[p]).Ok? && Owned(logs, cap, chains, p) <= marked && LinksQueued(logs, cap, p, queue)
  }

  /** The state of the walk: `queue[..head]` is done. */
  ghost predicate Walking(logs: Logs, cap: nat, pairs: set<BlockPair>, chains: ChainMap, root: BlockPair, queue: seq<BlockPair>, head: nat, marked: set<nat>) {
    && head <= |queue| && 0 < |queue| && queue[0] == root && Distinct(queue)
    && (forall p :: p in queue ==> p in pairs)
    && Marks(pairs, queue[..head], marked)
    && (forall i :: 0 <= i < head ==> Done(logs, cap, chains, queue, marked, queue[i]))
  }

  lemma WalkingStep(logs: Logs, cap: nat, disk: Disk, blockSize: nat, pairs: set<BlockPair>, chains: ChainMap, root: BlockPair,
                    queue: seq<BlockPair>, head: nat, marked: set<nat>, extra: set<nat>, children: seq<BlockPair>, more: seq<BlockPair>)
    requires Scannable(logs, cap, disk, blockSize, pairs, chains) && Walking(logs, cap, pairs, chains, root, queue, head, marked) && head < |queue|
    requires PairOk(logs, cap, disk, blockSize, pairs, chains, queue[head]) && Gather(Nothing(cap), logs[queue[head]]).Ok?
    requires Apart(pairs, extra) && ChainsOf(chains, Layouts(cap, logs[queue[head]])) <= extra
    requires var p, now := queue[head], marked + Blocks(queue[head]) + extra;
             && FoldersSettled(Layouts(cap, logs[p]), children, now)
             && (TailOf(logs[p]).Some? ==> Settled(children, now, TailOf(logs[p]).value.pair))
             && (forall c :: c in children ==> c in pairs)
    requires queue <= more && Distinct(more) && forall c :: c in more <==> c in queue || c in children
    ensures Walking(logs, cap, pairs, chains, root, more, head + 1, marked + Blocks(queue[head]) + extra)
  {
    var p, now := queue[head], marked + Blocks(queue[head]) + extra;
    assert p in queue && p in pairs;
    assert queue[..head + 1] == queue[..head] + [p];
    MarksVisit(pairs, queue[..head], marked, p, extra);
    assert more[..head + 1] == queue[..head + 1];
    LinksOf(logs, cap, disk, blockSize, pairs, chains, p, more, head + 1, now, children);
    forall i | 0 <= i < head + 1
      ensures Done(logs, cap, chains, more, now, more[i])
    {
      if i < head {
        assert Done(logs, cap, chains, queue, marked, queue[i]);
      }
    }
  }

  /** The blocks are no pair's. */
  ghost predicate Apart(pairs: set<BlockPair>, blocks: set<nat>) {
    forall q :: q in pairs ==> Blocks(q) !! blocks
  }

  // ---- The shared array ----------------------------------------------------------------------

  /** `d` lists the layouts of `b`, and maybe leftovers where `b` has none. */
  predicate Includes(d: seq<Option<Content>>, b: seq<Option<Content>>) {
    |d| == |b| && forall i :: 0 <= i < |b| ==> b[i] == d[i] || b[i] == None
  }

  lemma {:induction false} IncludesChains(chains: ChainMap, d: seq<Option<Content>>, b: seq<Option<Content>>)
    requires Includes(d, b)
    ensures ChainsOf(chains, b) <= ChainsOf(chains, d)
  {
    if b != [] {
      IncludesChains(chains, d[..|d| - 1], b[..|b| - 1]);
    }
  }

  lemma IncludesFolders(d: seq<Option<Content>>, b: seq<Option<Content>>, children: seq<BlockPair>, marked: set<nat>)
    requires Includes(d, b) && FoldersSettled(d, children, marked)
    ensures FoldersSettled(b, children, marked)
  {
  }

  /** Read into an array of sound layouts, a sound log leaves sound layouts and all of its own. */
  lemma GatheredOk(logs: Logs, cap: nat, disk: Disk, blockSize: nat, pairs: set<BlockPair>, chains: ChainMap, p: BlockPair, start: seq<Option<Content>>)
    requires PairOk(logs, cap, disk, blockSize, pairs, chains, p) && |start| == cap && AllOk(disk, blockSize, pairs, chains, start)
    requires Gather(From(start), logs[p]).Ok?
    ensures Gather(Nothing(cap), logs[p]).Ok?
    ensures var d := Gather(From(start), logs[p]).value;
            && AllOk(disk, blockSize, pairs, chains, d.slots) && Includes(d.slots[..d.count], Layouts(cap, logs[p]))
  {
    GatherLeaves(start, logs[p]);
  }

  lemma LinksOf(logs: Logs, cap: nat, disk: Disk, blockSize: nat, pairs: set<BlockPair>, chains: ChainMap, p: BlockPair,
                queue: seq<BlockPair>, n: nat, marked: set<nat>, children: seq<BlockPair>)
    requires PairOk(logs, cap, disk, blockSize, pairs, chains, p) && Gather(Nothing(cap), logs[p]).Ok? && n <= |queue| && Marks(pairs, queue[..n], marked)
    requires FoldersSettled(Layouts(cap, logs[p]), children, marked) && (forall c :: c in children ==> c in queue)
    requires TailOf(logs[p]).Some? ==> Settled(children, marked, TailOf(logs[p]).value.pair)
    ensures LinksQueued(logs, cap, p, queue)
  {
    var layouts := Layouts(cap, logs[p]);
    if TailOf(logs[p]).Some? {
      SettledQueued(pairs, queue, n, marked, children, TailOf(logs[p]).value.pair);
    }
    forall i | 0 <= i < |layouts| && IsFolder(layouts[i])
      ensures FolderPair(layouts[i]) in queue
    {
      assert LayoutOk(disk, blockSize, pairs, chains, Gather(Nothing(cap), logs[p]).value.slots[i]);
      SettledQueued(pairs, queue, n, marked, children, FolderPair(layouts[i]));
    }
  }

  lemma SettledQueued(pairs: set<BlockPair>, queue: seq<BlockPair>, n: nat, marked: set<nat>, children: seq<BlockPair>, t: BlockPair)
    requires n <= |queue| && Marks(pairs, queue[..n], marked) && t in pairs && Settled(children, marked, t)
    requires forall c :: c in children ==> c in queue
    ensures t in queue
  {
    if t !in children {
      assert t.a in Blocks(t);
      MarkedMeansVisited(pairs, queue[..n], marked, t);
    }
  }

  /**
   One turn of the walk: marks the pair, visits its entries and collects its links.
   The entries are read into `slots`, where the earlier pairs left theirs.
   */
  method VisitPair(log: seq<Item>, slots: array<Option<Content>>, disk: Disk, unit: nat, blockSize: nat, p: BlockPair, used: Bitmap, limit: nat,
                   ghost logs: Logs, ghost pairs: set<BlockPair>, ghost chains: ChainMap) returns (r: Result<seq<BlockPair>>, ghost extra: set<nat>)
    requires Geometry(disk, unit, blockSize) && |disk| <= used.cap && AllOk(disk, blockSize, pairs, chains, slots[..])
    requires PairOk(logs, slots.Length, disk, blockSize, pairs, chains, p) && logs[p] == log
    modifies used, slots
    ensures r.Ok? ==> AllOk(disk, blockSize, pairs, chains, slots[..]) && Gather(Nothing(slots.Length), log).Ok?
    ensures r.Ok? ==> used.marked == old(used.marked) + Blocks(p) + extra && Apart(pairs, extra) && extra <= ChainsOf(chains, slots[..])
    ensures r.Ok? ==> Gather(From(old(slots[..])), log).Ok? && slots[..] == Gather(From(old(slots[..])), log).value.slots
    ensures r.Ok? ==> ChainsOf(chains, Layouts(slots.Length, log)) <= extra && FoldersSettled(Layouts(slots.Length, log), r.value, used.marked)
    ensures r.Ok? ==> Children(pairs, r.value, old(used.marked) + Blocks(p))
    ensures r.Ok? && TailOf(log).Some? ==> Settled(r.value, used.marked, TailOf(log).value.pair)
    ensures Roomy(disk, limit, pairs) && p in pairs && Gather(Nothing(slots.Length), log).Ok? ==> r.Ok?
  {
    extra := {};
    var m := used.Set(p.a);
    if m.Err? {
      return Err(m.error), extra;
    }
    m := used.Set(p.b);
    if m.Err? {
      return Err(m.error), extra;
    }
    var e, count := GatherLiveStructs(log, slots);
    GatherLeaves(old(slots[..]), log);
    if e.Some? {
      return Err(e.value), extra;
    }
    GatheredOk(logs, slots.Length, disk, blockSize, pairs, chains, p, old(slots[..]));
    ChainsPrefix(chains, slots[..], count);
    assert slots[..][..count] == slots[..count];
    r, extra := VisitSlots(slots[..count], disk, unit, blockSize, used, limit, pairs, chains, Layouts(slots.Length, log));
    if r.Err? {
      return;
    }
    var tail := TailOf(log);
    if tail.Some? {
      ghost var before := r.value;
      r := Collect(disk, used, r.value, tail.value.pair, limit, pairs, old(used.marked) + Blocks(p));
      if r.Ok? {
        SettledOnward(before, r.value, used.marked, used.marked, Layouts(slots.Length, log));
      }
    }
  }

  /** The slots read out for one pair: its own layouts, and maybe leftovers. */
  method VisitSlots(layouts: seq<Option<Content>>, disk: Disk, unit: nat, blockSize: nat, used: Bitmap, limit: nat,
                    ghost pairs: set<BlockPair>, ghost chains: ChainMap, ghost own: seq<Option<Content>>)
    returns (r: Result<seq<BlockPair>>, ghost extra: set<nat>)
    requires Geometry(disk, unit, blockSize) && |disk| <= used.cap
    requires AllOk(disk, blockSize, pairs, chains, layouts) && Includes(layouts, own)
    modifies used
    ensures r.Ok? ==> used.marked == old(used.marked) + extra && Apart(pairs, extra) && ChainsOf(chains, own) <= extra == ChainsOf(chains, layouts)
    ensures r.Ok? ==> Children(pairs, r.value, old(used.marked)) && FoldersSettled(own, r.value, used.marked)
    ensures Roomy(disk, limit, pairs) ==> r.Ok?
  {
    r := VisitLayouts(disk, unit, blockSize, layouts, used, limit, pairs, chains);
    extra := ChainsOf(chains, layouts);
    forall q | q in pairs
      ensures Blocks(q) !! extra
    {
      ChainsApart(disk, blockSize, pairs, chains, layouts, q);
    }
    IncludesChains(chains, layouts, own);
    if r.Ok? {
      IncludesFolders(layouts, own, r.value, used.marked);
    }
  }

  /** The walk ended: a queue that is done from end to end. */
  ghost predicate Finished(logs: Logs, cap: nat, chains: ChainMap, root: BlockPair, queue: seq<BlockPair>, marked: set<nat>) {
    root in queue && forall p :: p in queue ==> Done(logs, cap, chains, queue, marked, p)
  }

  // ---- Nothing else is marked -------------------------------------------------------------------

  /** The layout is one that a listed pair's log leaves in its slots, live or superseded. */
  ghost predicate LeftBy(logs: Logs, cap: nat, visited: seq<BlockPair>, c: Option<Content>) {
    exists p :: p in visited && p in logs && Gather(Nothing(cap), logs[p]).Ok? && c in Gather(Nothing(cap), logs[p]).value.slots
  }

  ghost predicate AllLeftBy(logs: Logs, cap: nat, visited: seq<BlockPair>, layouts: seq<Option<Content>>) {
    forall i :: 0 <= i < |layouts| && layouts[i].Some? ==> LeftBy(logs, cap, visited, layouts[i])
  }

  ghost predicate InChainOf(chains: ChainMap, c: Option<Content>, b: nat) {
    IsChain(c) && b in ChainBlocks(chains, c)
  }

  /** The block is a listed pair's, or in a chain that a listed pair's log names. */
  ghost predicate Accounted(logs: Logs, cap: nat, chains: ChainMap, visited: seq<BlockPair>, b: nat) {
    (exists p :: p in visited && b in Blocks(p)) || exists c :: LeftBy(logs, cap, visited, c) && InChainOf(chains, c, b)
  }

  ghost predicate AllAccounted(logs: Logs, cap: nat, chains: ChainMap, visited: seq<BlockPair>, marked: set<nat>) {
    forall b :: b in marked ==> Accounted(logs, cap, chains, visited, b)
  }

  lemma {:induction false} ChainsAccounted(chains: ChainMap, layouts: seq<Option<Content>>, b: nat) returns (i: nat)
    requires b in ChainsOf(chains, layouts)
    ensures i < |layouts| && InChainOf(chains, layouts[i], b)
  {
    if b in Added(chains, layouts[|layouts| - 1]) {
      i := |layouts| - 1;
    } else {
      i := ChainsAccounted(chains, layouts[..|layouts| - 1], b);
    }
  }

  /** After one more pair. */
  lemma AccountedStep(logs: Logs, cap: nat, chains: ChainMap, visited: seq<BlockPair>, p: BlockPair, marked: set<nat>, extra: set<nat>, layouts: seq<Option<Content>>)
    requires AllAccounted(logs, cap, chains, visited, marked) && AllLeftBy(logs, cap, visited + [p], layouts)
    requires extra <= ChainsOf(chains, layouts)
    ensures AllAccounted(logs, cap, chains, visited + [p], marked + Blocks(p) + extra)
  {
    forall b | b in marked + Blocks(p) + extra
      ensures Accounted(logs, cap, chains, visited + [p], b)
    {
      if b in Blocks(p) {
        assert p in visited + [p];
      } else if b in marked {
        AccountedOnward(logs, cap, chains, visited, p, b);
      } else {
        var i := ChainsAccounted(chains, layouts, b);
        assert LeftBy(logs, cap, visited + [p], layouts[i]);
      }
    }
  }

  lemma AccountedOnward(logs: Logs, cap: nat, chains: ChainMap, visited: seq<BlockPair>, p: BlockPair, b: nat)
    requires Accounted(logs, cap, chains, visited, b)
    ensures Accounted(logs, cap, chains, visited + [p], b)
  {
    forall q | q in visited
      ensures q in visited + [p]
    {
    }
    if c :| LeftBy(logs, cap, visited, c) && InChainOf(chains, c, b) {
      assert LeftBy(logs, cap, visited + [p], c);
    }
  }

  /** The array after a pair: its own layouts, and what was there. */
  lemma GatheredLeft(logs: Logs, cap: nat, visited: seq<BlockPair>, p: BlockPair, start: seq<Option<Content>>)
    requires |start| == cap && AllLeftBy(logs, cap, visited, start) && p in logs && Gather(From(start), logs[p]).Ok?
    ensures AllLeftBy(logs, cap, visited + [p], Gather(From(start), logs[p]).value.slots)
  {
    GatherLeaves(start, logs[p]);
    var d, b := Gather(From(start), logs[p]).value, Gather(Nothing(cap), logs[p]).value;
    forall i | 0 <= i < |d.slots| && d.slots[i].Some?
      ensures LeftBy(logs, cap, visited + [p], d.slots[i])
    {
      if d.slots[i] == b.slots[i] {
        assert p in visited + [p] && d.slots[i] in b.slots;
      } else {
        var j :| 0 <= j < |start| && start[j] == d.slots[i];
        assert LeftBy(logs, cap, visited, start[j]);
        var q :| q in visited && q in logs && Gather(Nothing(cap), logs[q]).Ok? && start[j] in Gather(Nothing(cap), logs[q]).value.slots;
        assert q in visited + [p];
      }
    }
  }

  lemma {:induction false} ChainsPrefix(chains: ChainMap, layouts: seq<Option<Content>>, n: nat)
    requires n <= |layouts|
    ensures ChainsOf(chains, layouts[..n]) <= ChainsOf(chains, layouts)
  {
    if n < |layouts| {
      assert layouts[..|layouts| - 1][..n] == layouts[..n];
      ChainsPrefix(chains, layouts[..|layouts| - 1], n);
    } else {
      assert layouts[..n] == layouts;
    }
  }

  /** Every log of the pairs can be read. */
  ghost predicate AllGather(logs: Logs, cap: nat, pairs: set<BlockPair>) {
    forall p :: p in pairs ==> p in logs && Gather(Nothing(cap), logs[p]).Ok?
  }

  /** The state of the walk and of the shared array. */
  ghost predicate Turning(logs: Logs, cap: nat, disk: Disk, blockSize: nat, pairs: set<BlockPair>, chains: ChainMap, root: BlockPair,
                          queue: seq<BlockPair>, head: nat, marked: set<nat>, slots: seq<Option<Content>>) {
    && Walking(logs, cap, pairs, chains, root, queue, head, marked) && AllOk(disk, blockSize, pairs, chains, slots)
    && AllLeftBy(logs, cap, queue[..head], slots) && AllAccounted(logs, cap, chains, queue[..head], marked)
  }

  /** One turn: a pair is visited and what it links to is queued. */
  method Turn(logs: Logs, slots: array<Option<Content>>, disk: Disk, unit: nat, blockSize: nat, queue: seq<BlockPair>, head: nat, limit: nat, used: Bitmap,
              ghost root: BlockPair, ghost pairs: set<BlockPair>, ghost chains: ChainMap) returns (r: Result<seq<BlockPair>>)
    requires Geometry(disk, unit, blockSize) && |disk| <= used.cap && Scannable(logs, slots.Length, disk, blockSize, pairs, chains)
    requires Turning(logs, slots.Length, disk, blockSize, pairs, chains, root, queue, head, used.marked, slots[..]) && head < |queue|
    modifies used, slots
    ensures r.Ok? ==> |r.value| <= Max(|queue|, limit)
    ensures r.Ok? ==> Turning(logs, slots.Length, disk, blockSize, pairs, chains, root, r.value, head + 1, used.marked, slots[..])
    ensures AllGather(logs, slots.Length, pairs) && Roomy(disk, limit, pairs) ==> r.Ok?
  {
    var p := queue[head];
    assert p in queue && PairOk(logs, slots.Length, disk, blockSize, pairs, chains, p);
    ghost var marked, start := used.marked, slots[..];
    var children, extra := VisitPair(logs[p], slots, disk, unit, blockSize, p, used, limit, logs, pairs, chains);
    if children.Err? {
      return Err(children.error);
    }
    ChildrenNew(pairs, queue, head, marked, children.value);
    r := EnqueueAll(queue, head + 1, children.value, limit, pairs);
    if r.Ok? {
      WalkingStep(logs, slots.Length, disk, blockSize, pairs, chains, root, queue, head, marked, extra, children.value, r.value);
      TurnAccounted(logs, slots.Length, chains, queue, head, r.value, marked, extra, start);
    }
  }

  lemma TurnAccounted(logs: Logs, cap: nat, chains: ChainMap, queue: seq<BlockPair>, head: nat, more: seq<BlockPair>, marked: set<nat>, extra: set<nat>,
                      start: seq<Option<Content>>)
    requires head < |queue| && queue <= more && |start| == cap && queue[head] in logs && Gather(From(start), logs[queue[head]]).Ok?
    requires AllLeftBy(logs, cap, queue[..head], start) && AllAccounted(logs, cap, chains, queue[..head], marked)
    requires extra <= ChainsOf(chains, Gather(From(start), logs[queue[head]]).value.slots)
    ensures AllLeftBy(logs, cap, more[..head + 1], Gather(From(start), logs[queue[head]]).value.slots)
    ensures AllAccounted(logs, cap, chains, more[..head + 1], marked + Blocks(queue[head]) + extra)
  {
    var p, layouts := queue[head], Gather(From(start), logs[queue[head]]).value.slots;
    GatheredLeft(logs, cap, queue[..head], p, start);
    AccountedStep(logs, cap, chains, queue[..head], p, marked, extra, layouts);
    assert more[..head + 1] == queue[..head] + [p];
  }

  /**
   `scan_used_blocks`, from an empty bitmap. It marks nothing but the visited pairs'
   blocks and the chains their logs name. On a forest whose logs can all be read, with
   pairs on the device and no more of them than the queue holds, it succeeds.
   */
  method ScanUsedBlocks(logs: Logs, cap: nat, disk: Disk, unit: nat, blockSize: nat, root: BlockPair, limit: nat, used: Bitmap,
                        ghost pairs: set<BlockPair>, ghost chains: ChainMap) returns (r: Result<()>, ghost visited: seq<BlockPair>)
    requires Geometry(disk, unit, blockSize) && |disk| <= used.cap
    requires Scannable(logs, cap, disk, blockSize, pairs, chains) && root in pairs && used.marked == {}
    modifies used
    ensures r.Ok? ==> Finished(logs, cap, chains, root, visited, used.marked) && AllAccounted(logs, cap, chains, visited, used.marked)
    ensures r.Ok? ==> forall p :: p in visited ==> p in pairs
    ensures AllGather(logs, cap, pairs) && Roomy(disk, limit, pairs) ==> r.Ok?
  {
    var queue, head := [root], 0;
    var slots := new Option<Content>[cap](_ => None);
    visited := [];
    while head < |queue|
      invariant Turning(logs, cap, disk, blockSize, pairs, chains, root, queue, head, used.marked, slots[..])
      invariant |queue| <= Max(1, limit)
      decreases Max(1, limit) - head
    {
      var more := Turn(logs, slots, disk, unit, blockSize, queue, head, limit, used, root, pairs, chains);
      if more.Err? {
        return Err(more.error), visited;
      }
      queue, head := more.value, head + 1;
    }
    visited := queue;
    assert queue[..head] == queue && queue[0] in queue;
    return Ok(()), visited;
  }

  lemma ChildrenNew(pairs: set<BlockPair>, queue: seq<BlockPair>, head: nat, marked: set<nat>, children: seq<BlockPair>)
    requires head < |queue| && Marks(pairs, queue[..head], marked) && Children(pairs, children, marked + Blocks(queue[head]))
    ensures forall c :: c in children ==> c !in queue[..head + 1]
  {
    assert queue[..head + 1] == queue[..head] + [queue[head]];
  }

  // ---- Completeness ------------------------------------------------------------------------------

  /** A live link: the pair's tail, or a folder among its live entries. */
  ghost predicate LiveLink(logs: Logs, cap: nat, p: BlockPair, t: BlockPair) {
    && p in logs && Replay(Fresh(cap), logs[p]).Ok?
    && ((TailOf(logs[p]).Some? && TailOf(logs[p]).value.pair == t) ||
        exists i :: 0 <= i < Replay(Fresh(cap), logs[p]).value.count && LiveFolder(Replay(Fresh(cap), logs[p]).value.slots[i], t))
  }

  predicate LiveFolder(s: Slot, t: BlockPair) {
    IsFolder(s.content) && FolderPair(s.content) == t
  }

  ghost predicate PathFrom(logs: Logs, cap: nat, root: BlockPair, path: seq<BlockPair>) {
    |path| > 0 && path[0] == root && forall i :: 0 < i < |path| ==> LiveLink(logs, cap, path[i - 1], path[i])
  }

  lemma LinkFollowed(logs: Logs, cap: nat, chains: ChainMap, root: BlockPair, visited: seq<BlockPair>, marked: set<nat>, p: BlockPair, t: BlockPair)
    requires Finished(logs, cap, chains, root, visited, marked) && p in visited && LiveLink(logs, cap, p, t)
    ensures t in visited
  {
    assert Done(logs, cap, chains, visited, marked, p);
    GatherCovers(Nothing(cap).slots, logs[p]);
    var r := Replay(Fresh(cap), logs[p]).value;
    if !(TailOf(logs[p]).Some? && TailOf(logs[p]).value.pair == t) {
      var i :| 0 <= i < r.count && LiveFolder(r.slots[i], t);
      assert Layouts(cap, logs[p])[i] == r.slots[i].content;
    }
  }

  /**
   The scan is complete: on success every pair reachable by live links has both
   blocks marked, and so has every block of each of its live chains.
   */
  lemma {:induction false} ScanComplete(logs: Logs, cap: nat, chains: ChainMap, root: BlockPair, visited: seq<BlockPair>, marked: set<nat>, path: seq<BlockPair>)
    requires Finished(logs, cap, chains, root, visited, marked) && PathFrom(logs, cap, root, path)
    ensures var p := path[|path| - 1];
            && p in visited && Blocks(p) <= marked && p in logs && Replay(Fresh(cap), logs[p]).Ok?
            && forall i :: 0 <= i < Replay(Fresh(cap), logs[p]).value.count && IsChain(Replay(Fresh(cap), logs[p]).value.slots[i].content)
                 ==> ChainBlocks(chains, Replay(Fresh(cap), logs[p]).value.slots[i].content) <= marked
  {
    var p := path[|path| - 1];
    if |path| > 1 {
      ScanComplete(logs, cap, chains, root, visited, marked, path[..|path| - 1]);
      LinkFollowed(logs, cap, chains, root, visited, marked, path[|path| - 2], p);
    }
    assert Done(logs, cap, chains, visited, marked, p);
    LiveChainsMarked(logs, cap, chains, p, marked);
  }

  lemma LiveChainsMarked(logs: Logs, cap: nat, chains: ChainMap, p: BlockPair, marked: set<nat>)
    requires p in logs && Gather(Nothing(cap), logs[p]).Ok? && Owned(logs, cap, chains, p) <= marked
    ensures Replay(Fresh(cap), logs[p]).Ok?
    ensures forall i :: 0 <= i < Replay(Fresh(cap), logs[p]).value.count && IsChain(Replay(Fresh(cap), logs[p]).value.slots[i].content)
              ==> ChainBlocks(chains, Replay(Fresh(cap), logs[p]).value.slots[i].content) <= marked
  {
    GatherCovers(Nothing(cap).slots, logs[p]);
    var r := Replay(Fresh(cap), logs[p]).value;
    forall i | 0 <= i < r.count && IsChain(r.slots[i].content)
      ensures ChainBlocks(chains, r.slots[i].content) <= marked
    {
      assert Layouts(cap, logs[p])[i] == r.slots[i].content;
      ChainAmong(chains, Layouts(cap, logs[p]), i);
    }
  }

  lemma {:induction false} ChainAmong(chains: ChainMap, layouts: seq<Option<Content>>, i: nat)
    requires i < |layouts| && IsChain(layouts[i])
    ensures ChainBlocks(chains, layouts[i]) <= ChainsOf(chains, layouts)
  {
    if i < |layouts| - 1 {
      ChainAmong(chains, layouts[..|layouts| - 1], i);
    }
  }
}
