/**
 What directories read as after a relocation (`propagate_relocation` in `src/fs.rs`):
 the same entries under the new address, nothing joined and nothing cut.
 */
module Addresses {
  import opened Words
  import opened Directory
  import opened Operations
  import opened Rebuild
  import opened Split
  import opened Gstate
  import opened Protocol
  import opened Rename
  import opened Conservation
  import opened Landings
  import opened Relocation
  import opened Twins

  predicate Hard(v: View) {
    v.tail.Some? && v.tail.value.hard
  }

  function Renamed(d: Dir, from: BlockPair, to: BlockPair): Dir {
    if d.head == from then Dir(to, d.listing) else d
  }

  /** The directories with one head's address changed. */
  function AllRenamed(dirs: seq<Dir>, from: BlockPair, to: BlockPair): (r: seq<Dir>)
    ensures |r| == |dirs|
  {
    seq(|dirs|, i requires 0 <= i < |dirs| => Renamed(dirs[i], from, to))
  }

  /** The entry that names the pair is given the new address. */
  function Relisted(g: Forest, p: BlockPair, entry: Option<nat>, to: BlockPair): Forest
    requires p in g && (entry.Some? ==> entry.value < |g[p].listing|)
  {
    if entry.None? then g else g[p := g[p].(listing := Effect(UpdateDirStruct(entry.value, to), g[p].listing))]
  }

  /** Step by step the same entries and the same kind of link, under the new address. */
  predicate ReadsAt(f: Forest, t: seq<BlockPair>, g: Forest, u: seq<BlockPair>, from: BlockPair, to: BlockPair, i: nat)
    requires i < |t| == |u|
  {
    && t[i] in f && u[i] in g && u[i] == (if t[i] == from then to else t[i])
    && g[u[i]].listing == f[t[i]].listing && Hard(g[u[i]]) == Hard(f[t[i]])
  }

  lemma FirstRenamed(d: Dir, rest: seq<Dir>, from: BlockPair, to: BlockPair)
    ensures AllRenamed([d] + rest, from, to) == [Renamed(d, from, to)] + AllRenamed(rest, from, to)
  {
  }

  lemma BegunRenamed(p: BlockPair, x: BlockPair, listing: seq<Slot>, s: Option<Thread>, t: Option<Thread>, rest: seq<Dir>, from: BlockPair, to: BlockPair)
    requires x == (if p == from then to else p) && (s.Some? && s.value.hard) == (t.Some? && t.value.hard)
    ensures Begun(x, listing, t, AllRenamed(rest, from, to)) == AllRenamed(Begun(p, listing, s, rest), from, to)
  {
    if s.Some? && s.value.hard && rest != [] {
      FirstRenamed(Dir(p, listing + rest[0].listing), rest[1..], from, to);
      FirstRenamed(rest[0], rest[1..], from, to);
      assert rest == [rest[0]] + rest[1..];
    } else {
      FirstRenamed(Dir(p, listing), rest, from, to);
    }
  }

  lemma {:induction false} DirsRenamed(f: Forest, t: seq<BlockPair>, g: Forest, u: seq<BlockPair>, from: BlockPair, to: BlockPair)
    requires |t| == |u| && AllIn(f, t) && AllIn(g, u) && forall i :: 0 <= i < |t| ==> ReadsAt(f, t, g, u, from, to, i)
    ensures Dirs(g, u) == AllRenamed(Dirs(f, t), from, to)
  {
    if t != [] {
      forall i | 0 <= i < |t| - 1
        ensures ReadsAt(f, t[1..], g, u[1..], from, to, i)
      {
        assert ReadsAt(f, t, g, u, from, to, i + 1);
      }
      DirsRenamed(f, t[1..], g, u[1..], from, to);
      assert ReadsAt(f, t, g, u, from, to, 0);
      BegunRenamed(t[0], u[0], f[t[0]].listing, f[t[0]].tail, g[u[0]].tail, Dirs(f, t[1..]), from, to);
    }
  }

  lemma RepointedAt(h: Forest, g: Forest, r: Plan, i: nat)
    requires Prepared(h, g, r) && r.parent in h && h[r.parent] == g[r.parent] && i < |ThreadNew(r)|
    ensures |ThreadOld(r)| == |ThreadNew(r)| && ReadsAt(Relisted(g, r.parent, r.entry, r.to), ThreadOld(r), Repointed(h, r), ThreadNew(r), r.from, r.to, i)
  {
    var t, u := ThreadOld(r), ThreadNew(r);
    PlanDistinct(g, r);
    assert t[i] in g;
    if i == |r.before| {
      assert t[i] == r.parent == u[i];
    } else if i == |r.before| + 1 {
      assert t[i] == r.from && u[i] == r.to;
    } else {
      assert t[i] == u[i] && t[i] != r.parent && t[i] != r.from;
    }
  }

  /** The repoint leaves the directories as they were, one head and the entry that names it readdressed. */
  lemma RepointedDirs(h: Forest, g: Forest, r: Plan)
    requires Prepared(h, g, r) && r.parent in h && h[r.parent] == g[r.parent]
    ensures Threaded(Repointed(h, r), ThreadNew(r)) && AllIn(Relisted(g, r.parent, r.entry, r.to), ThreadOld(r))
    ensures Dirs(Repointed(h, r), ThreadNew(r)) == AllRenamed(Dirs(Relisted(g, r.parent, r.entry, r.to), ThreadOld(r)), r.from, r.to)
  {
    RepointedThread(h, g, r);
    forall i | 0 <= i < |ThreadNew(r)|
      ensures ReadsAt(Relisted(g, r.parent, r.entry, r.to), ThreadOld(r), Repointed(h, r), ThreadNew(r), r.from, r.to, i)
    {
      RepointedAt(h, g, r, i);
    }
    DirsRenamed(Relisted(g, r.parent, r.entry, r.to), ThreadOld(r), Repointed(h, r), ThreadNew(r), r.from, r.to);
  }

  /** After a wear relocation, however the repoint lands. */
  lemma WearDirs(f: Forest, r: Plan, q: Request, m: Landing)
    requires Sane(f) && r.from in f && Applies(f[r.from], q)
    requires Movable(Committed(f, r, q), r) && Quiet(Committed(f, r, q), ThreadOld(r))
    requires Repoints(Copied(Committed(f, r, q), r), r, m)
    ensures var g := Committed(f, r, q);
            && Threaded(m.forest, ThreadDone(r, m)) && AllIn(Relisted(g, r.parent, r.entry, r.to), ThreadOld(r))
            && Dirs(m.forest, ThreadDone(r, m)) == AllRenamed(Dirs(Relisted(g, r.parent, r.entry, r.to), ThreadOld(r)), r.from, r.to)
  {
    var g := Committed(f, r, q);
    PlainlyHonest();
    WearRelocationCrashPoints(Plainly, f, r, q, m, f);
    CopiedPrepared(g, r);
    RepointedDirs(Copied(g, r), g, r);
  }

  /** After a move off a worn block, also when the pair splits on the way. */
  lemma FreshDirs(f: Forest, r: Plan, q: Request, prior: seq<BlockPair>, l: Landing, m: Landing)
    requires Threaded(f, prior) && Quiet(f, prior) && r.from in f && Applies(f[r.from], q)
    requires Movable(Committed(f, r, q), r) && Quiet(Committed(f, r, q), ThreadOld(r))
    requires LandsFresh(f, r, q, l) && Repoints(l.forest, r, m)
    ensures var g := Committed(f, r, q);
            && Threaded(m.forest, ThreadFresh(r, l, m)) && AllIn(Relisted(g, r.parent, r.entry, r.to), ThreadOld(r))
            && Dirs(m.forest, ThreadFresh(r, l, m)) == AllRenamed(Dirs(Relisted(g, r.parent, r.entry, r.to), ThreadOld(r)), r.from, r.to)
  {
    var g := Committed(f, r, q);
    FreshRelocationCrashPoints(f, r, q, prior, l, m);
    FreshSettles(f, r, q, prior);
    CopiedPrepared(g, r);
    RepointedDirs(Copied(g, r), g, r);
  }

  // ---- Two commits ---------------------------------------------------------------------------

  lemma RethreadedReads(k: Forest, g: Forest, w: Twin, i: nat)
    requires Windowed(k, g, w) && w.plan.parent in k && i < |ThreadNew(w.plan)|
    ensures var r := w.plan;
            && |ThreadOld(r)| == |ThreadNew(r)|
            && ReadsAt(Relisted(g, w.parent, Some(w.entry), r.to), ThreadOld(r), Rethreaded(k, w), ThreadNew(r), r.from, r.to, i)
  {
    var r, t, u := w.plan, ThreadOld(w.plan), ThreadNew(w.plan);
    TwinDistinct(g, w);
    assert t[i] in g;
    if i == |r.before| {
      assert t[i] == r.parent == u[i];
    } else if i == |r.before| + 1 {
      assert t[i] == r.from && u[i] == r.to;
    } else {
      assert t[i] == u[i] && t[i] != r.parent && t[i] != r.from;
    }
  }

  /** The same after the commit that repoints the predecessor, the relocation's or the sweep's. */
  lemma RethreadedDirs(k: Forest, g: Forest, w: Twin)
    requires Windowed(k, g, w)
    ensures var r := w.plan;
            && w.plan.parent in k && Threaded(Rethreaded(k, w), ThreadNew(r)) && AllIn(Relisted(g, w.parent, Some(w.entry), r.to), ThreadOld(r))
            && Dirs(Rethreaded(k, w), ThreadNew(r)) == AllRenamed(Dirs(Relisted(g, w.parent, Some(w.entry), r.to), ThreadOld(r)), r.from, r.to)
  {
    var r := w.plan;
    RethreadedThread(k, g, w);
    forall i | 0 <= i < |ThreadNew(r)|
      ensures ReadsAt(Relisted(g, w.parent, Some(w.entry), r.to), ThreadOld(r), Rethreaded(k, w), ThreadNew(r), r.from, r.to, i)
    {
      RethreadedReads(k, g, w, i);
    }
    DirsRenamed(Relisted(g, w.parent, Some(w.entry), r.to), ThreadOld(r), Rethreaded(k, w), ThreadNew(r), r.from, r.to);
  }
}
