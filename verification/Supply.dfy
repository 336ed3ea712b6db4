/**
 The allocator end to end (`alloc_blocks_cached` in `src/alloc.rs`): what the
 scan marks covers every reachable block, so what the lookahead cache hands out
 is spare for an open file.
 */
module Supply {
  import opened Words
  import opened CtzChain
  import opened CtzStream
  import opened CtzWrite
  import Directory
  import opened Structs
  import opened Bitmaps
  import opened Scan
  import opened Liveness

  /** The block is one of the pairs', or in a chain that some pair's log names. */
  ghost predicate OwedTo(logs: Logs, cap: nat, chains: ChainMap, pairs: set<BlockPair>, b: nat) {
    (exists p :: p in pairs && b in Blocks(p)) || exists p, c :: p in pairs && NamesIn(logs, cap, p, c) && InChainOf(chains, c, b)
  }

  ghost predicate NamesIn(logs: Logs, cap: nat, p: BlockPair, c: Option<Directory.Content>) {
    p in logs && Gather(Nothing(cap), logs[p]).Ok? && c in Gather(Nothing(cap), logs[p]).value.slots
  }

  ghost function Owed(logs: Logs, cap: nat, chains: ChainMap, pairs: set<BlockPair>, blocks: nat): set<nat> {
    set b | 0 <= b < blocks && OwedTo(logs, cap, chains, pairs, b)
  }

  /** The scan leaves free whatever nothing is owed. */
  lemma OwedEnough(logs: Logs, cap: nat, chains: ChainMap, pairs: set<BlockPair>, visited: seq<BlockPair>, marked: set<nat>,
                   count: nat, blocks: nat, others: set<nat>)
    requires AllAccounted(logs, cap, chains, visited, marked) && forall p :: p in visited ==> p in pairs
    ensures |Free(count, blocks, Owed(logs, cap, chains, pairs, blocks) + others)| <= |Free(count, blocks, marked + others)|
  {
    forall b | b in marked
      ensures OwedTo(logs, cap, chains, pairs, b)
    {
      assert Accounted(logs, cap, chains, visited, b);
      if c :| LeftBy(logs, cap, visited, c) && InChainOf(chains, c, b) {
        var p :| p in visited && p in logs && Gather(Nothing(cap), logs[p]).Ok? && c in Gather(Nothing(cap), logs[p]).value.slots;
        assert NamesIn(logs, cap, p, c);
      }
    }
    SubsetCount(Free(count, blocks, Owed(logs, cap, chains, pairs, blocks) + others), Free(count, blocks, marked + others));
  }

  /**
   Blocks for an open file. The synced file is reachable, the staged one is
   reachable or in flight, and the caller names every block in flight: then the
   blocks handed out belong to neither, whether they come from the cache or from
   a rescan. As long as logs can be read and enough blocks are owed to nobody, there
   are some.
   */
  method Supply(look: Lookahead, n: nat, excluded: seq<nat>, inflight: set<nat>, logs: Logs, entries: nat, f: Flash, unit: nat,
                blockSize: nat, root: BlockPair, limit: nat, ghost pairs: set<BlockPair>, ghost chains: ChainMap,
                ghost mem: CtzFile, ghost synced: CtzFile)
    returns (r: Result<seq<nat>>)
    requires Geometry(f.disk, unit, blockSize) && look.count <= |f.disk| <= look.cap
    requires Scannable(logs, entries, f.disk, blockSize, pairs, chains) && root in pairs
    requires look.Valid() && forall b :: b in look.live ==> Reachable(logs, entries, chains, root, b)
    requires look.inflight <= Bitmaps.Named(excluded) + inflight
    requires Members(synced.chain) <= look.live && Members(mem.chain) <= look.live + look.inflight
    modifies look, if look.cache != null then {look.cache} else {}
    ensures look.Valid() && look.live == old(look.live)
    ensures r.Ok? ==> |r.value| == n && Spare(f, r.value, mem, synced)
    ensures r.Ok? ==> look.inflight == old(look.inflight) + Members(r.value)
    ensures AllGather(logs, entries, pairs) && Roomy(f.disk, limit, pairs) && Within(Bitmaps.Named(excluded), look.cap) &&
            |Free(look.count, look.cap, Owed(logs, entries, chains, pairs, look.cap) + inflight + Bitmaps.Named(excluded))| >= n
            ==> r.Ok?
  {
    var used := new Bitmap(look.cap);
    var scanned, visited := ScanUsedBlocks(logs, entries, f.disk, unit, blockSize, root, limit, used, pairs, chains);
    if scanned.Ok? {
      AllMarked(logs, entries, chains, root, visited, used.marked, look.live);
    }
    var marks: Result<set<nat>> := if scanned.Ok? then Ok(used.marked) else Err(scanned.error);
    if scanned.Ok? {
      OwedEnough(logs, entries, chains, pairs, visited, used.marked, look.count, look.cap, inflight + Bitmaps.Named(excluded));
      assert used.marked + (inflight + Bitmaps.Named(excluded)) == used.marked + inflight + Bitmaps.Named(excluded);
      assert Owed(logs, entries, chains, pairs, look.cap) + (inflight + Bitmaps.Named(excluded))
          == Owed(logs, entries, chains, pairs, look.cap) + inflight + Bitmaps.Named(excluded);
    }
    r := look.Alloc(n, excluded, inflight, marks);
    if r.Ok? {
      SpareFrom(f, r.value, mem, synced);
    }
  }

  lemma SpareFrom(f: Flash, blocks: seq<nat>, mem: CtzFile, synced: CtzFile)
    requires Distinct(blocks) && forall i :: 0 <= i < |blocks| ==> blocks[i] < |f.disk|
    requires Members(blocks) !! Members(mem.chain) + Members(synced.chain)
    ensures Spare(f, blocks, mem, synced)
  {
    forall i | 0 <= i < |blocks|
      ensures blocks[i] !in mem.chain && blocks[i] !in synced.chain
    {
      assert blocks[i] in Members(blocks);
    }
  }
}
