/**
 Mutual exclusion over whole histories: the intervals in which one job was leased, from the
 recorded `claimed_at` to the expiry, or to the `now` of the submit or defer that released it.

 A takeover and a claim after completion are always safe.  A defer is not: its `now` may be older
 than the lease it releases, so its recheck time may lie inside an earlier lease.  `SafeDefer` is
 the exact condition.
 */
module LeaseHistory {
  import opened WorkflowTables
  import opened WorkflowInvariants

  /** Half open; a release that is dated before the claim leaves an empty interval. */
  datatype Interval = Interval(start: int, end: int)

  predicate Within(a: Interval, x: int) {
    a.start <= x < a.end
  }

  ghost predicate Disjoint(a: Interval, b: Interval) {
    forall x: int :: !(Within(a, x) && Within(b, x))
  }

  ghost predicate PairwiseDisjoint(holds: seq<Interval>) {
    forall i, j :: 0 <= i < j < |holds| ==> Disjoint(holds[i], holds[j])
  }

  /** The tables, together with the lease intervals of one job up to now. */
  datatype Watch = Watch(t: Tables, holds: seq<Interval>)

  const Start := Watch(Empty, [])

  function Record(t: Tables, u: Tables, holds: seq<Interval>, job: string, now: int): seq<Interval> {
    if job in u.leases && (job in t.leases ==> t.leases[job] != u.leases[job]) then
      holds + [Interval(u.leases[job].claimedAt, u.leases[job].expiresAt)]
    else if job in t.leases && job !in u.leases && holds != [] then
      holds[..|holds| - 1] + [Interval(holds[|holds| - 1].start, now)]
    else holds
  }

  function Observe(w: Watch, op: Op, job: string): Watch {
    var u := Step(w.t, op);
    Watch(u, Record(w.t, u, w.holds, job, op.now))
  }

  function History(w: Watch, ops: seq<Op>, job: string): Watch
    decreases ops
  {
    if ops == [] then w else History(Observe(w, ops[0], job), ops[1..], job)
  }

  lemma {:induction false} HistoryIsRun(w: Watch, ops: seq<Op>, job: string)
    ensures History(w, ops, job).t == Run(w.t, ops)
    decreases ops
  {
    if ops != [] {
      HistoryIsRun(Observe(w, ops[0], job), ops[1..], job);
    }
  }

  // ----- the invariant

  /** The intervals before the current lease, or all of them when there is none. */
  function Earlier(w: Watch, job: string): seq<Interval> {
    if job in w.t.leases && w.holds != [] then w.holds[..|w.holds| - 1] else w.holds
  }

  ghost predicate OverBy(holds: seq<Interval>, time: int) {
    forall i :: 0 <= i < |holds| && holds[i].start < holds[i].end ==> holds[i].end <= time
  }

  ghost predicate WatchInv(w: Watch, job: string) {
    && Inv(w.t)
    && PairwiseDisjoint(w.holds)
    && (if job in w.t.leases then
          var lease := w.t.leases[job];
          && w.holds != []
          && w.holds[|w.holds| - 1] == Interval(lease.claimedAt, lease.expiresAt)
          && OverBy(Earlier(w, job), lease.claimedAt)
        else if job in w.t.terminals then true
        else if job in w.t.deferrals then OverBy(w.holds, w.t.deferrals[job].recheckAt)
        else w.holds == [])
  }

  /** The gate a defer writes lies behind every earlier lease of the job. */
  ghost predicate SafeDefer(w: Watch, op: Op, job: string) {
    op.DeferOp? && op.job == job && Valid(w.t, op)
    && DeferCommits(w.t, job, op.caller, op.generation, op.key, op.now)
    ==> OverBy(Earlier(w, job), op.recheckAt)
  }

  ghost predicate AllDefersSafe(w: Watch, ops: seq<Op>, job: string)
    decreases ops
  {
    ops == [] || (SafeDefer(w, ops[0], job) && AllDefersSafe(Observe(w, ops[0], job), ops[1..], job))
  }

  lemma ObserveKeeps(w: Watch, op: Op, job: string)
    requires WatchInv(w, job) && SafeDefer(w, op, job)
    ensures WatchInv(Observe(w, op, job), job)
  {
    StepInv(w.t, op);
    var v := Observe(w, op, job);
    assert JobInv(w.t, job) && JobInv(v.t, job);
    var change := LeaseStep(w.t, op, job);
    match change
    case Kept =>
      assert v.holds == w.holds;
    case Taken =>
      var taken := Interval(op.now, op.now + LEASE_TTL_MS);
      assert v.holds == w.holds + [taken];
      assert Earlier(v, job) == w.holds;
      AppendDisjoint(w.holds, taken);
    case Finished =>
      ShortenedDisjoint(w.holds, op.now);
    case Released =>
      ShortenedDisjoint(w.holds, op.now);
  }

  lemma AppendDisjoint(holds: seq<Interval>, last: Interval)
    requires PairwiseDisjoint(holds) && OverBy(holds, last.start)
    ensures PairwiseDisjoint(holds + [last])
  {
    forall i, x | 0 <= i < |holds| ensures !(Within(holds[i], x) && Within(last, x)) {
    }
  }

  lemma ShortenedDisjoint(holds: seq<Interval>, end: int)
    requires holds != [] && PairwiseDisjoint(holds) && end <= holds[|holds| - 1].end
    ensures PairwiseDisjoint(holds[..|holds| - 1] + [Interval(holds[|holds| - 1].start, end)])
  {
    var n := |holds| - 1;
    forall i, x | 0 <= i < n ensures !(Within(holds[i], x) && Within(Interval(holds[n].start, end), x)) {
      assert Disjoint(holds[i], holds[n]);
      assert Within(Interval(holds[n].start, end), x) ==> Within(holds[n], x);
    }
  }

  lemma {:induction false} HistoryKeeps(w: Watch, ops: seq<Op>, job: string)
    requires WatchInv(w, job) && AllDefersSafe(w, ops, job)
    ensures WatchInv(History(w, ops, job), job)
    decreases ops
  {
    if ops != [] {
      ObserveKeeps(w, ops[0], job);
      HistoryKeeps(Observe(w, ops[0], job), ops[1..], job);
    }
  }

  lemma StartInv(job: string)
    ensures WatchInv(Start, job)
  {
    EmptyInv();
  }

  /** Over every interleaving whose defers are safe, the leases of a job are pairwise disjoint. */
  lemma MutualExclusion(ops: seq<Op>, job: string)
    requires AllDefersSafe(Start, ops, job)
    ensures PairwiseDisjoint(History(Start, ops, job).holds)
    ensures History(Start, ops, job).t == Run(Empty, ops)
  {
    StartInv(job);
    HistoryKeeps(Start, ops, job);
    HistoryIsRun(Start, ops, job);
  }

  // ----- when a defer is safe

  /** A caller that read its `now` after the claim it was answered with defers safely. */
  lemma CausalDeferIsSafe(w: Watch, op: Op, job: string)
    requires WatchInv(w, job) && op.DeferOp?
    requires job in w.t.leases && w.t.leases[job].claimedAt <= op.now
    ensures SafeDefer(w, op, job)
  {
  }

  /**
   Exactly the safe defers keep exclusion: after an effective defer, no claim whatever can produce
   overlapping leases if and only if the recheck time is behind every earlier lease.
   */
  lemma DeferIsSafeIffNoOverlap(w: Watch, op: Op, job: string, token: string)
    requires WatchInv(w, job) && op.DeferOp? && op.job == job && Valid(w.t, op)
    requires DeferCommits(w.t, job, op.caller, op.generation, op.key, op.now)
    requires FreshToken(Step(w.t, op), token)
    ensures SafeDefer(w, op, job)
            <==> forall claim: Op :: claim.ClaimOp? && claim.job == job && claim.token == token ==>
                   PairwiseDisjoint(Observe(Observe(w, op, job), claim, job).holds)
  {
    var v := Observe(w, op, job);
    if SafeDefer(w, op, job) {
      ObserveKeeps(w, op, job);
      forall claim: Op | claim.ClaimOp? ensures PairwiseDisjoint(Observe(v, claim, job).holds) {
        ObserveKeeps(v, claim, job);
      }
    } else {
      var n := |w.holds| - 1;
      var i :| 0 <= i < n && w.holds[i].start < w.holds[i].end && w.holds[i].end > op.recheckAt;
      var x := if op.recheckAt < w.holds[i].start then w.holds[i].start else op.recheckAt;
      var claim := ClaimOp(job, "other", token, x);
      var z := Observe(v, claim, job);
      assert JobInv(w.t, job);
      assert Claimable(v.t, job, x);
      assert z.holds == v.holds + [Interval(x, x + LEASE_TTL_MS)];
      assert z.holds[i] == w.holds[i];
      assert Within(z.holds[i], x) && Within(z.holds[n + 1], x);
      assert !Disjoint(z.holds[i], z.holds[n + 1]);
      assert !PairwiseDisjoint(z.holds);
    }
  }

  /** A history whose leases overlap: a defer dated before the lease it releases. */
  function StaleDeferHistory(): seq<Op> {
    [ClaimOp("j", "a", "t1", 0),
     ClaimOp("j", "b", "t2", LEASE_TTL_MS),
     DeferOp("j", "b", 2, "key-0001", 6, "h", 5),
     ClaimOp("j", "c", "t3", 7)]
  }

  lemma StaleDeferOverlaps()
    ensures History(Start, StaleDeferHistory(), "j").holds
            == [Interval(0, LEASE_TTL_MS), Interval(LEASE_TTL_MS, 5), Interval(7, 7 + LEASE_TTL_MS)]
    ensures !PairwiseDisjoint(History(Start, StaleDeferHistory(), "j").holds)
  {
    var ops := StaleDeferHistory();
    var w1 := Observe(Start, ops[0], "j");
    assert w1.t.leases == map["j" := Lease("a", "t1", 0, LEASE_TTL_MS, 1)];
    var w2 := Observe(w1, ops[1], "j");
    assert w2.t.leases == map["j" := Lease("b", "t2", LEASE_TTL_MS, 2 * LEASE_TTL_MS, 2)];
    var w3 := Observe(w2, ops[2], "j");
    assert w3.t.deferrals == map["j" := Deferral("key-0001", 6, "h")];
    var w4 := Observe(w3, ops[3], "j");
    assert w4.holds == [Interval(0, LEASE_TTL_MS), Interval(LEASE_TTL_MS, 5), Interval(7, 7 + LEASE_TTL_MS)];
    assert History(Start, ops, "j") == w4 by {
      assert ops[1..][0] == ops[1] && ops[1..][1..][0] == ops[2] && ops[1..][1..][1..][0] == ops[3];
      assert ops[1..][1..][1..][1..] == [];
    }
    var h := w4.holds;
    assert Within(h[0], 7) && Within(h[2], 7);
    assert !Disjoint(h[0], h[2]);
  }
}
