/**
 Cycle detection on tail chains (`BrentTailWalk` and `list_pair_chain` in
 `src/fs.rs`): Brent's algorithm with one saved node.
 */
module Brent {
  import opened Words

  /** The largest value of the stride counter. */
  const SATURATED: nat := 0xFFFF_FFFF

  class BrentTailWalk<T(==)> {
    var saved: T
    var power: nat
    var steps: nat
    /** The nodes seen so far, the index of the saved one, that of the one saved before it and the steps between. */
    ghost var path: seq<T>
    ghost var anchor: nat
    ghost var previous: nat
    ghost var stride: nat

    ghost predicate Valid()
      reads this
    {
      && anchor < |path| && saved == path[anchor] && anchor + steps == |path| - 1 && steps < power
      && Silent(path, anchor, |path| - 1)
      && Doubled(power, anchor)
      && (anchor > 0 ==> anchor == previous + stride && Doubled(stride, previous) && Silent(path, previous, anchor))
    }

    constructor (start: T)
      ensures Valid() && path == [start]
    {
      saved, power, steps := start, 1, 0;
      path, anchor, previous, stride := [start], 0, 0, 0;
    }

    /** `advance`: corrupt exactly when the next node is the saved one, which the walk has visited. */
    method Advance(next: T) returns (r: Result<()>)
      requires Valid()
      modifies this
      ensures r == if next == old(saved) then Err(Corrupt) else Ok(())
      ensures r.Err? ==> next in old(path) && unchanged(this)
      ensures r.Ok? ==> Valid() && path == old(path) + [next]
      ensures r.Ok? ==> if old(steps) + 1 < old(power) then saved == old(saved) && steps == old(steps) + 1 && power == old(power)
                        else saved == next && steps == 0 && power == Min(2 * old(power), 0xFFFF_FFFF)
    {
      if next == saved {
        return Err(Corrupt);
      }
      path := path + [next];
      steps := steps + 1;
      if steps == power {
        previous, stride, anchor := anchor, power, anchor + power;
        saved := next;
        power := if 2 * power > SATURATED then SATURATED else 2 * power;
        steps := 0;
      }
      return Ok(());
    }

    /**
     A chain with a tail of `mu` nodes and a cycle of `lambda` is not walked
     undetected for `3 * (mu + lambda)` steps, also after the counter saturates,
     unless the cycle is longer than the counter can count.
     */
    lemma DetectedWithin(mu: nat, lambda: nat)
      requires Valid() && 0 < lambda <= SATURATED && Periodic(path, mu, lambda)
      ensures |path| - 1 < 3 * (mu + lambda)
    {
      if anchor >= mu && power >= lambda {
        CaughtBy(path, anchor, |path| - 1, mu, lambda);
        if anchor > 0 && previous >= mu && stride >= lambda {
          CaughtBy(path, previous, anchor, mu, lambda);
        }
      }
    }
  }

  /** The stride from the saved node is one more than its index, until the counter saturates. */
  predicate Doubled(power: nat, anchor: nat) {
    power <= SATURATED && power <= anchor + 1 && (power < SATURATED ==> power == anchor + 1)
  }

  /** No node after `i` up to `n` equals node `i`. */
  ghost predicate Silent<T>(path: seq<T>, i: nat, n: nat) {
    i <= n < |path| && forall m :: i < m <= n ==> path[m] != path[i]
  }

  /** From index `mu` on the path repeats every `lambda` nodes. */
  ghost predicate Periodic<T>(path: seq<T>, mu: nat, lambda: nat) {
    forall i, j :: mu <= i < j < |path| && j == i + lambda ==> path[j] == path[i]
  }

  /** An anchor in the cycle is met again one period later. */
  lemma CaughtBy<T>(path: seq<T>, i: nat, n: nat, mu: nat, lambda: nat)
    requires Periodic(path, mu, lambda) && Silent(path, i, n) && mu <= i && lambda > 0
    ensures n < i + lambda
  {
    assert i + lambda < |path| ==> path[i + lambda] == path[i];
  }

  // ---- Walking a chain -------------------------------------------------------------------

  /** Each node's tail is the next node. */
  ghost predicate Chain<T>(tails: map<T, T>, path: seq<T>) {
    |path| > 0 && forall i :: 0 <= i < |path| - 1 ==> Follows(tails, path, i)
  }

  ghost predicate Follows<T>(tails: map<T, T>, path: seq<T>, i: nat)
    requires i + 1 < |path|
  {
    path[i] in tails && path[i + 1] == tails[path[i]]
  }

  lemma {:induction false} DistinctBound<T>(path: seq<T>, nodes: set<T>)
    requires Distinct(path) && forall i :: 0 <= i < |path| ==> path[i] in nodes
    ensures |path| <= |nodes|
  {
    if path != [] {
      var last := path[|path| - 1];
      DistinctBound(path[..|path| - 1], nodes - {last});
    }
  }

  /** A deterministic walk that meets a node again repeats from there on. */
  lemma {:induction false} RepeatsFrom<T>(tails: map<T, T>, path: seq<T>, i: nat, j: nat, k: nat)
    requires Chain(tails, path) && i < j && j + k < |path| && path[i] == path[j]
    ensures path[i + k] == path[j + k]
  {
    if k > 0 {
      RepeatsFrom(tails, path, i, j, k - 1);
      assert Follows(tails, path, i + k - 1) && Follows(tails, path, j + k - 1);
    }
  }

  lemma RepeatIsPeriod<T>(tails: map<T, T>, path: seq<T>, i: nat, j: nat)
    requires Chain(tails, path) && i < j < |path| && path[i] == path[j]
    ensures Periodic(path, i, j - i)
  {
    forall a, b | i <= a < b < |path| && b == a + (j - i)
      ensures path[b] == path[a]
    {
      RepeatsFrom(tails, path, i, j, a - i);
    }
  }

  /** An undetected walk stays within three times the number of nodes that have tails. */
  lemma WalkBound<T>(tails: map<T, T>, walk: BrentTailWalk<T>)
    requires walk.Valid() && Chain(tails, walk.path) && |tails.Keys| <= SATURATED
    ensures |walk.path| - 1 <= 3 * |tails.Keys|
  {
    var path, n := walk.path, |tails.Keys|;
    if |path| - 1 > n {
      var front := path[..n + 1];
      forall i | 0 <= i < |front|
        ensures front[i] in tails.Keys
      {
        assert Follows(tails, path, i);
      }
      if Distinct(front) {
        DistinctBound(front, tails.Keys);
      }
      var i, j :| 0 <= i < j < |front| && front[i] == front[j];
      RepeatIsPeriod(tails, path, i, j);
      walk.DetectedWithin(i, j - i);
    }
  }

  /** A walk that leads back into itself never ends. */
  lemma {:induction false} StaysInside<T>(tails: map<T, T>, walked: seq<T>, path: seq<T>, k: nat)
    requires Chain(tails, walked) && walked[|walked| - 1] in tails && tails[walked[|walked| - 1]] in walked
    requires Chain(tails, path) && path[0] == walked[0] && k < |path|
    ensures path[k] in walked && path[k] in tails
  {
    if k > 0 {
      StaysInside(tails, walked, path, k - 1);
      var m :| 0 <= m < |walked| && walked[m] == path[k - 1];
      assert Follows(tails, path, k - 1);
      if m < |walked| - 1 {
        assert Follows(tails, walked, m);
      }
    }
    var m :| 0 <= m < |walked| && walked[m] == path[k];
    if m < |walked| - 1 {
      assert Follows(tails, walked, m);
    }
  }

  lemma PrefixChain<T>(tails: map<T, T>, path: seq<T>, n: nat)
    requires Chain(tails, path) && 0 < n <= |path|
    ensures Chain(tails, path[..n])
  {
    forall i | 0 <= i < n - 1
      ensures Follows(tails, path[..n], i)
    {
      assert Follows(tails, path, i);
    }
  }

  lemma SnocChain<T>(tails: map<T, T>, path: seq<T>)
    requires Chain(tails, path) && path[|path| - 1] in tails
    ensures Chain(tails, path + [tails[path[|path| - 1]]])
  {
    var more := path + [tails[path[|path| - 1]]];
    forall i | 0 <= i < |more| - 1
      ensures Follows(tails, more, i)
    {
      if i < |path| - 1 {
        assert Follows(tails, path, i);
      }
    }
  }

  /** A chain that ends has no repeated node. */
  lemma EndingIsAcyclic<T>(tails: map<T, T>, path: seq<T>)
    requires Chain(tails, path) && path[|path| - 1] !in tails
    ensures Distinct(path)
  {
    forall i, j | 0 <= i < j < |path|
      ensures path[i] != path[j]
    {
      if path[i] == path[j] {
        var walked := path[..j];
        assert Follows(tails, path, j - 1) && walked[|walked| - 1] == path[j - 1] && walked[i] == path[i];
        PrefixChain(tails, path, j);
        StaysInside(tails, walked, path, |path| - 1);
      }
    }
  }

  /**
   `list_pair_chain`: lists the chain from `start`, or reports corruption. It
   lists every chain that ends, of any length, and rejects exactly the others. The
   pairs of a device are fewer than its 32 bit block addresses.
   */
  method ListChain<T(==)>(tails: map<T, T>, start: T) returns (r: Result<seq<T>>, ghost walked: seq<T>)
    requires |tails.Keys| <= SATURATED
    ensures r.Ok? ==> Chain(tails, r.value) && r.value[0] == start && r.value[|r.value| - 1] !in tails && Distinct(r.value)
    ensures r.Err? ==> r.error == Corrupt && Chain(tails, walked) && walked[0] == start
    ensures r.Err? ==> walked[|walked| - 1] in tails && tails[walked[|walked| - 1]] in walked
  {
    var walk := new BrentTailWalk(start);
    var listed, current := [start], start;
    walked := listed;
    while current in tails
      invariant walk.Valid() && walk.path == listed == walked && Chain(tails, listed) && fresh(walk)
      invariant listed[0] == start && current == listed[|listed| - 1] && |listed| - 1 <= 3 * |tails.Keys|
      decreases 3 * |tails.Keys| + 1 - |listed|
    {
      var next := tails[current];
      var a := walk.Advance(next);
      if a.Err? {
        return Err(Corrupt), walked;
      }
      SnocChain(tails, listed);
      listed, current := listed + [next], next;
      walked := listed;
      WalkBound(tails, walk);
    }
    EndingIsAcyclic(tails, listed);
    return Ok(listed), walked;
  }

  /** What `ListChain` rejects has no end. */
  lemma RejectedNeverEnds<T>(tails: map<T, T>, walked: seq<T>, path: seq<T>)
    requires Chain(tails, walked) && walked[|walked| - 1] in tails && tails[walked[|walked| - 1]] in walked
    requires Chain(tails, path) && path[0] == walked[0]
    ensures path[|path| - 1] in tails
  {
    StaysInside(tails, walked, path, |path| - 1);
  }
}
