/**
 Which blocks are live, by what the pairs read as, and that the scan marks them all
 (`scan_used_blocks` in `src/alloc.rs`).
 */
module Liveness {
  import opened Words
  import opened Directory
  import opened Rebuild
  import opened Effects
  import opened Bitmaps
  import opened Scan

  // ---- What is live, by what the pairs read as -------------------------------------------

  /** The pair reads as a view that names `t`: by its tail, hard or soft, or by a directory entry. */
  ghost predicate Links(logs: Logs, cap: nat, p: BlockPair, t: BlockPair) {
    && p in logs && Readable(cap, logs[p])
    && var v := ViewOf(cap, logs[p]);
       (v.tail.Some? && v.tail.value.pair == t) || exists n :: 0 <= n < |v.listing| && IsDirectory(v.listing[n], t)
  }

  /** Block `b` is one of pair `p`'s, or in the chain of one of the files it lists. */
  ghost predicate Holds(logs: Logs, cap: nat, chains: ChainMap, p: BlockPair, b: nat) {
    b == p.a || b == p.b ||
    (p in logs && Readable(cap, logs[p]) && exists n, head, size :: InFile(chains, ViewOf(cap, logs[p]), n, head, size, b))
  }

  predicate InFile(chains: ChainMap, v: View, n: nat, head: nat, size: nat, b: nat) {
    n < |v.listing| && IsChained(v.listing[n], head, size) && size > 0 && b in chains(head, size)
  }

  ghost predicate Path(logs: Logs, cap: nat, root: BlockPair, path: seq<BlockPair>) {
    |path| > 0 && path[0] == root && forall i :: 0 < i < |path| ==> Links(logs, cap, path[i - 1], path[i])
  }

  /** Some path of links leads from the root to a pair that holds `b`. */
  ghost predicate Reachable(logs: Logs, cap: nat, chains: ChainMap, root: BlockPair, b: nat) {
    exists path: seq<BlockPair> :: Path(logs, cap, root, path) && Holds(logs, cap, chains, path[|path| - 1], b)
  }

  /** The links the scan follows are those of the views. */
  lemma LinksLive(logs: Logs, cap: nat, p: BlockPair, t: BlockPair)
    ensures Links(logs, cap, p, t) <==> LiveLink(logs, cap, p, t)
  {
    if p in logs && Readable(cap, logs[p]) {
      var v, r := ViewOf(cap, logs[p]), Replay(Fresh(cap), logs[p]).value;
      assert v.tail == TailOf(logs[p]);
      forall n | 0 <= n < r.count
        ensures IsDirectory(v.listing[n], t) <==> LiveFolder(r.slots[n], t)
      {
        assert v.listing[n] == r.slots[n];
      }
      assert LiveLink(logs, cap, p, t) ==> Links(logs, cap, p, t) by {
        if LiveLink(logs, cap, p, t) && !(v.tail.Some? && v.tail.value.pair == t) {
          var n :| 0 <= n < r.count && LiveFolder(r.slots[n], t);
          assert IsDirectory(v.listing[n], t);
        }
      }
    }
  }

  lemma PathLive(logs: Logs, cap: nat, root: BlockPair, path: seq<BlockPair>)
    requires Path(logs, cap, root, path)
    ensures PathFrom(logs, cap, root, path)
  {
    forall i | 0 < i < |path|
      ensures LiveLink(logs, cap, path[i - 1], path[i])
    {
      LinksLive(logs, cap, path[i - 1], path[i]);
    }
  }

  /** The chain of a listed file is one the scan has marked. */
  lemma FileMarked(logs: Logs, cap: nat, chains: ChainMap, p: BlockPair, n: nat, head: nat, size: nat, b: nat, marked: set<nat>)
    requires p in logs && Readable(cap, logs[p]) && InFile(chains, ViewOf(cap, logs[p]), n, head, size, b)
    requires forall i :: 0 <= i < Replay(Fresh(cap), logs[p]).value.count && IsChain(Replay(Fresh(cap), logs[p]).value.slots[i].content)
               ==> ChainBlocks(chains, Replay(Fresh(cap), logs[p]).value.slots[i].content) <= marked
    ensures b in marked
  {
    var v, r := ViewOf(cap, logs[p]), Replay(Fresh(cap), logs[p]).value;
    assert v.listing[n] == r.slots[n] && IsChain(r.slots[n].content);
    var c := r.slots[n].content;
    assert First(c.value.body) == head && Second(c.value.body) == size;
    assert b in Members(chains(head, size)) && b in ChainBlocks(chains, c);
    assert n < r.count && ChainBlocks(chains, r.slots[n].content) <= marked;
  }

  /** The scan is complete: every block that links reach is marked. */
  lemma ReachableMarked(logs: Logs, cap: nat, chains: ChainMap, root: BlockPair, visited: seq<BlockPair>, marked: set<nat>, b: nat)
    requires Finished(logs, cap, chains, root, visited, marked) && Reachable(logs, cap, chains, root, b)
    ensures b in marked
  {
    var path: seq<BlockPair> :| Path(logs, cap, root, path) && Holds(logs, cap, chains, path[|path| - 1], b);
    var p := path[|path| - 1];
    PathLive(logs, cap, root, path);
    ScanComplete(logs, cap, chains, root, visited, marked, path);
    assert p.a in Blocks(p) && p.b in Blocks(p);
    if b != p.a && b != p.b {
      var n, head, size :| InFile(chains, ViewOf(cap, logs[p]), n, head, size, b);
      FileMarked(logs, cap, chains, p, n, head, size, b, marked);
    }
  }

  lemma AllMarked(logs: Logs, cap: nat, chains: ChainMap, root: BlockPair, visited: seq<BlockPair>, marked: set<nat>, live: set<nat>)
    requires Finished(logs, cap, chains, root, visited, marked) && forall b :: b in live ==> Reachable(logs, cap, chains, root, b)
    ensures live <= marked
  {
    forall b | b in live
      ensures b in marked
    {
      ReachableMarked(logs, cap, chains, root, visited, marked, b);
    }
  }
}
