/**
 Runs of everything that commits: renames, writes, drops and relocations in any
 order, each of their commits landing in one block or split, with a crash between
 any two device writes of any of them.
 */
module Runs {
  import opened Words
  import opened Rebuild
  import opened Split
  import opened Gstate
  import opened Protocol
  import opened Rename
  import opened Conservation
  import opened Landings
  import opened Unthread
  import opened Relocation

  /** What the device holds: every pair's view, and the thread through the reachable ones. */
  datatype State = State(forest: Forest, thread: seq<BlockPair>)

  ghost predicate Settled(s: State) {
    Threaded(s.forest, s.thread) && Quiet(s.forest, s.thread)
  }

  /** Where on the thread a commit lands, and the new pairs without state that its tail brings onto it. */
  datatype Site = Site(before: seq<BlockPair>, pair: BlockPair, added: seq<BlockPair>, after: seq<BlockPair>)

  function Grown(at: Site): seq<BlockPair> {
    (at.before + [at.pair]) + (at.added + at.after)
  }

  /** The directory that goes, and the pair before it. */
  datatype Gap = Gap(before: seq<BlockPair>, pred: BlockPair, dropped: seq<BlockPair>, after: seq<BlockPair>)

  function Kept(gap: Gap): seq<BlockPair> {
    (gap.before + [gap.pred]) + gap.after
  }

  /**
   What happens, with how each commit lands. `Wear` and `Worn` carry a request; the
   first programs the pair's alternate and a fresh block, the second only the fresh
   one. `Forget` changes anything off the thread: what nobody names may be reused.
   */
  datatype Event =
    | Move(job: Job, first: Landing, second: Landing)
    | Write(at: Site, q: Request, landed: Landing)
    | Drop(gap: Gap, landed: Landing)
    | Wear(at: Site, q: Request, plan: Plan, repoint: Landing)
    | Worn(at: Site, q: Request, plan: Plan, landed: Landing, repoint: Landing)
    | Forget(kept: Forest)

  /** A request without a state delta on a pair of the thread; directories it brings in are on the thread afterwards. */
  ghost predicate Writes(s: State, at: Site, q: Request) {
    && s.thread == (at.before + [at.pair]) + at.after && at.pair in s.forest && Sane(s.forest)
    && Applies(s.forest[at.pair], q) && q.move == None && q.relocate == None
    && Stateless(s.forest, at.added) && Threaded(Commit(s.forest, at.pair, q), Grown(at))
  }

  ghost predicate Goes(s: State, gap: Gap) {
    && s.thread == (gap.before + [gap.pred]) + (gap.dropped + gap.after)
    && Droppable(s.forest, gap.before, gap.pred, gap.dropped, gap.after) && Unnamed(s.forest, gap.before, gap.pred, gap.after)
  }

  ghost predicate Relocates(s: State, at: Site, q: Request, plan: Plan) {
    && Writes(s, at, q) && plan.from == at.pair && ThreadOld(plan) == Grown(at)
    && Movable(Commit(s.forest, at.pair, q), plan)
  }

  ghost predicate Enabled(s: State, e: Event)
    requires Settled(s)
  {
    match e
    case Move(job, first, second) => Ready(s.forest, s.thread, job) && Renames(s.forest, s.thread, job, first, second)
    case Write(at, q, l) => Writes(s, at, q) && Lands(s.forest, at.pair, q, l)
    case Drop(gap, l) => Goes(s, gap) && Drops(s.forest, gap.pred, gap.dropped, gap.after, l)
    case Wear(at, q, plan, m) => Relocates(s, at, q, plan) && Repoints(Copied(Committed(s.forest, plan, q), plan), plan, m)
    case Worn(at, q, plan, l, m) => Relocates(s, at, q, plan) && LandsFresh(s.forest, plan, q, l) && Repoints(l.forest, plan, m)
    case Forget(kept) => Along(kept, s.forest, s.thread)
  }

  ghost function Next(s: State, e: Event): State
    requires Settled(s) && Enabled(s, e)
  {
    match e
    case Move(job, first, second) => State(second.forest, Finally(s.thread, job, first, second))
    case Write(at, q, l) => State(l.forest, Insert(Grown(at), at.pair, l.conts))
    case Drop(gap, l) => State(l.forest, Insert(Kept(gap), gap.pred, l.conts))
    case Wear(at, q, plan, m) => State(m.forest, ThreadDone(plan, m))
    case Worn(at, q, plan, l, m) => State(m.forest, ThreadFresh(plan, l, m))
    case Forget(kept) => State(kept, s.thread)
  }

  /** What the event means: the same with plain commits, none of which splits. */
  ghost function Meant(s: State, e: Event): State
    requires Settled(s) && Enabled(s, e)
  {
    match e
    case Move(job, _, _) => State(Moved(s.forest, s.thread, job), s.thread)
    case Write(at, q, _) => State(Commit(s.forest, at.pair, q), Grown(at))
    case Drop(gap, _) => State(Dropped(s.forest, gap.pred, gap.dropped, gap.after), Kept(gap))
    case Wear(at, q, plan, _) =>
      PlanDistinct(Committed(s.forest, plan, q), plan);
      State(Repointed(Copied(Committed(s.forest, plan, q), plan), plan), ThreadNew(plan))
    case Worn(at, q, plan, _, _) =>
      FreshParent(s.forest, plan, q);
      State(Repointed(FreshOnly(s.forest, plan, q), plan), ThreadNew(plan))
    case Forget(_) => s
  }

  lemma FreshParent(f: Forest, r: Plan, q: Request)
    requires Sane(f) && r.from in f && Applies(f[r.from], q) && Movable(Committed(f, r, q), r)
    ensures r.parent in FreshOnly(f, r, q) && FreshOnly(f, r, q)[r.parent] == Committed(f, r, q)[r.parent]
  {
    PlanDistinct(Committed(f, r, q), r);
  }

  // ---- Every event keeps a settled state settled -------------------------------------------

  lemma NoDelta(k: Kind, q: Request, sum: seq<byte>)
    requires Sized(q) && q.move == None && q.relocate == None && |sum| == Width(k)
    ensures XorBytes(sum, Delta(k, q)) == sum
  {
    XorZeros(sum);
  }

  lemma SiteApart(s: State, at: Site)
    requires Settled(s) && s.thread == (at.before + [at.pair]) + at.after
    ensures at.pair in s.forest && at.pair !in at.before && at.pair !in at.after
    ensures AllIn(s.forest, at.before) && AllIn(s.forest, at.after)
  {
    var t, b := s.thread, |at.before|;
    assert t[b] == at.pair;
    assert forall i :: 0 <= i < b ==> t[i] == at.before[i];
    assert forall i :: 0 <= i < |at.after| ==> t[b + 1 + i] == at.after[i];
  }

  lemma AddedApart(at: Site)
    requires Distinct(Grown(at))
    ensures forall i :: 0 <= i < |at.added| ==> at.added[i] != at.pair
  {
    var u, b := Grown(at), |at.before|;
    assert u[b] == at.pair;
    forall i | 0 <= i < |at.added|
      ensures at.added[i] != at.pair
    {
      assert u[b + 1 + i] == at.added[i];
    }
  }

  /** New pairs on the thread, and nothing else new: the aggregate stays zero. */
  lemma WriteQuiet(s: State, at: Site, q: Request)
    requires Settled(s) && Writes(s, at, q)
    ensures Quiet(Commit(s.forest, at.pair, q), Grown(at))
  {
    var g := Commit(s.forest, at.pair, q);
    SiteApart(s, at);
    AddedApart(at);
    assert Grown(at) == (at.before + ([at.pair] + at.added)) + at.after;
    GrownConserves(Moves, s.forest, g, at.before, at.pair, at.after, at.added, q);
    GrownConserves(Relocations, s.forest, g, at.before, at.pair, at.after, at.added, q);
    NoDelta(Moves, q, Sum(Moves, s.forest, s.thread));
    NoDelta(Relocations, q, Sum(Relocations, s.forest, s.thread));
  }

  lemma WriteSettled(s: State, at: Site, q: Request, l: Landing)
    requires Settled(s) && Writes(s, at, q) && Lands(s.forest, at.pair, q, l)
    ensures Settles(Commit(s.forest, at.pair, q), Grown(at), l.forest, Insert(Grown(at), at.pair, l.conts))
  {
    WriteQuiet(s, at, q);
    assert Grown(at)[|at.before|] == at.pair;
    LandingReads(s.forest, Grown(at), at.pair, q, l);
  }

  lemma DropSettled(s: State, gap: Gap, l: Landing)
    requires Settled(s) && Goes(s, gap) && Drops(s.forest, gap.pred, gap.dropped, gap.after, l)
    ensures Settles(Dropped(s.forest, gap.pred, gap.dropped, gap.after), Kept(gap), l.forest, Insert(Kept(gap), gap.pred, l.conts))
  {
    DropSettles(s.forest, gap.before, gap.pred, gap.dropped, gap.after, l);
  }

  ghost predicate Reads(s: State, o: State) {
    Settled(s) && Settled(o) && Dirs(s.forest, s.thread) == Dirs(o.forest, o.thread)
  }

  /** After every event nothing is in flight, and the directories are those the plain commits leave. */
  lemma NextSettled(s: State, e: Event)
    requires Settled(s) && Enabled(s, e)
    ensures Reads(Next(s, e), Meant(s, e))
  {
    match e
    case Move(job, first, second) =>
      MovedAggregate(s.forest, s.thread, job);
      FinallySettled(s.forest, s.thread, job, first, second);
    case Write(at, q, l) => WriteSettled(s, at, q, l);
    case Drop(gap, l) => DropSettled(s, gap, l);
    case Wear(at, q, plan, m) =>
      WriteQuiet(s, at, q);
      WearRelocationCrashPoints(Plainly, s.forest, plan, q, m, s.forest) by { PlainlyHonest(); }
    case Worn(at, q, plan, l, m) =>
      WriteQuiet(s, at, q);
      FreshRelocationCrashPoints(s.forest, plan, q, s.thread, l, m);
    case Forget(kept) => OffThread(s.forest, kept, s.thread);
  }

  // ---- Crashes -----------------------------------------------------------------------------

  /** The commit that carries both the request and the relocation's body has been made. */
  ghost predicate Pending(s: State, e: Event, c: State)
    requires Settled(s) && Enabled(s, e)
  {
    e.Wear? && c.thread == ThreadOld(e.plan) && Along(c.forest, Anchored(Committed(s.forest, e.plan, e.q), e.plan), c.thread)
  }

  /** The first commit of a rename has been made. */
  ghost predicate HalfMoved(s: State, e: Event, c: State)
    requires Settled(s) && Enabled(s, e)
  {
    e.Move? && c.thread == Midway(s.thread, e.job, e.first) && Along(c.forest, e.first.forest, c.thread)
  }

  ghost predicate Shows(c: State, o: State) {
    c.thread == o.thread && Along(c.forest, o.forest, o.thread)
  }

  /**
   A state that a crash before, inside or after the event can leave: what its
   commits so far have made, with anything at all off the thread, where blocks are
   programmed before a commit names them.
   */
  ghost predicate CrashPoint(s: State, e: Event, c: State)
    requires Settled(s) && Enabled(s, e)
  {
    Shows(c, s) || Shows(c, Next(s, e)) || HalfMoved(s, e, c) || Pending(s, e, c)
  }

  /** What the event may turn out to have done: nothing, everything, or the request without the relocation. */
  ghost predicate Outcome(s: State, e: Event, o: State)
    requires Settled(s) && Enabled(s, e)
  {
    o == s || o == Meant(s, e) || (e.Wear? && o == State(Committed(s.forest, e.plan, e.q), ThreadOld(e.plan)))
  }

  /** Mounting `c`, where its commits land as `land` says, leaves the settled state `h`, whose directories read as `o`'s. */
  ghost predicate MountsTo(land: Lander, c: State, h: State, o: State)
    requires Honest(land)
  {
    Mounts(land, c.forest, c.thread, h.forest, h.thread) && Reads(h, o)
  }

  /** Mounting `c` leaves some settled state that reads as some outcome of the event. */
  ghost predicate Recovers(land: Lander, s: State, e: Event, c: State)
    requires Honest(land) && Settled(s) && Enabled(s, e)
  {
    exists h, o :: Outcome(s, e, o) && MountsTo(land, c, h, o)
  }

  lemma ShownMounts(land: Lander, c: State, t: State, o: State)
    requires Honest(land) && Settled(t) && Shows(c, t) && Reads(t, o)
    ensures MountsTo(land, c, c, o)
  {
    QuietAlong(land, t.forest, c.forest, t.thread);
  }

  lemma HalfMovedMounts(land: Lander, s: State, e: Event, c: State)
    requires Honest(land) && Settled(s) && Enabled(s, e) && HalfMoved(s, e, c)
    ensures Recovers(land, s, e, c)
  {
    var done := Completed(land, c.forest, s.thread, e.job);
    MidwayMounts(land, s.forest, s.thread, e.job, e.first, c.forest);
    MovedAggregate(s.forest, s.thread, e.job);
    assert MountsTo(land, c, State(done.forest, Insert(c.thread, s.thread[e.job.src], done.conts)), Meant(s, e));
  }

  lemma PendingMounts(land: Lander, s: State, e: Event, c: State)
    requires Honest(land) && Settled(s) && Enabled(s, e) && Pending(s, e, c)
    ensures Recovers(land, s, e, c)
  {
    var o := State(Committed(s.forest, e.plan, e.q), ThreadOld(e.plan));
    WriteQuiet(s, e.at, e.q);
    WearGivesUp(land, o.forest, e.plan, c.forest);
    var done := land(c.forest, e.plan.from, Balance(e.plan));
    assert MountsTo(land, c, State(done.forest, Insert(c.thread, e.plan.from, done.conts)), o);
  }

  /**
   A crash anywhere in an event mounts to a settled state that reads as before the
   event, as after it, or, for a relocation, as after the request it carried.
   */
  lemma CrashRecovers(land: Lander, s: State, e: Event, c: State)
    requires Honest(land) && Settled(s) && Enabled(s, e) && CrashPoint(s, e, c)
    ensures Recovers(land, s, e, c)
  {
    NextSettled(s, e);
    if Shows(c, s) {
      ShownMounts(land, c, s, s);
    } else if Shows(c, Next(s, e)) {
      ShownMounts(land, c, Next(s, e), Meant(s, e));
    } else if HalfMoved(s, e, c) {
      HalfMovedMounts(land, s, e, c);
    } else {
      PendingMounts(land, s, e, c);
    }
  }

  /**
   The mount itself, run from the root of whatever the crash left: it succeeds, unless
   there are more pairs than its queue holds, and leaves one of the outcomes.
   */
  method Restart(land: Lander, f: Forest, root: BlockPair, limit: nat, ghost s: State, ghost e: Event, ghost thread: seq<BlockPair>)
    returns (r: Result<Forest>)
    requires Honest(land) && Settled(s) && Enabled(s, e) && CrashPoint(s, e, State(f, thread)) && thread != [] && thread[0] == root && limit > 0
    ensures r.Ok? ==> exists t, o :: Outcome(s, e, o) && Reads(State(r.value, t), o)
    ensures if |thread| > limit then r == Err(OutOfRange) else r.Ok?
  {
    CrashRecovers(land, s, e, State(f, thread));
    ghost var h, o :| Outcome(s, e, o) && MountsTo(land, State(f, thread), h, o);
    ThreadSpans(f, thread);
    r := Mount(land, f, root, limit, thread);
    assert r.Ok? ==> Reads(State(r.value, h.thread), o);
  }

  // ---- Runs ----------------------------------------------------------------------------------

  /** Each event is enabled where the one before it led. */
  ghost predicate IsRun(states: seq<State>, events: seq<Event>) {
    && |states| == |events| + 1 && Settled(states[0])
    && forall i :: 0 <= i < |events| ==> Leads(states[i], events[i], states[i + 1])
  }

  ghost predicate Leads(s: State, e: Event, t: State) {
    Settled(s) ==> Enabled(s, e) && t == Next(s, e)
  }

  lemma {:induction false} RunSettled(states: seq<State>, events: seq<Event>, n: nat)
    requires IsRun(states, events) && n <= |events|
    ensures Settled(states[n])
  {
    if n > 0 {
      RunSettled(states, events, n - 1);
      assert Leads(states[n - 1], events[n - 1], states[n]);
      NextSettled(states[n - 1], events[n - 1]);
    }
  }

  /**
   Over any run, wherever the power fails and however the mount's own commits land,
   mounting leaves a settled state that reads as some outcome of the event it failed
   in, ready for the next run.
   */
  lemma RunRecovers(land: Lander, states: seq<State>, events: seq<Event>, n: nat, c: State)
    requires Honest(land) && IsRun(states, events) && n < |events|
    ensures Settled(states[n]) && Enabled(states[n], events[n])
    ensures CrashPoint(states[n], events[n], c) ==> Recovers(land, states[n], events[n], c)
  {
    RunSettled(states, events, n);
    assert Leads(states[n], events[n], states[n + 1]);
    if CrashPoint(states[n], events[n], c) {
      CrashRecovers(land, states[n], events[n], c);
    }
  }
}
