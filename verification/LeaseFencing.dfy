/**
 Fencing: `claim_count` is a generation within the lifetime of one lease row.  A row's lifetime
 ends when a submit (after which there is never another) or a defer deletes it, and a job is
 deferred at most once, so the deferral row tells the two possible lifetimes apart.
 */
module LeaseFencing {
  import opened Options
  import opened WorkflowTables
  import opened WorkflowInvariants

  /** No lease row of `job` was deleted by a defer between `t` and `u`. */
  predicate SameLifetime(t: Tables, u: Tables, job: string) {
    job in t.deferrals <==> job in u.deferrals
  }

  /** Each takeover raises the generation, and nothing else touches the row. */
  lemma {:induction false} GenerationsGrow(t: Tables, ops: seq<Op>, job: string)
    requires Inv(t) && job in t.leases && job in Run(t, ops).leases && SameLifetime(t, Run(t, ops), job)
    ensures var before := t.leases[job]; var after := Run(t, ops).leases[job];
            before == after || (before.count < after.count && before.expiresAt <= after.claimedAt)
    decreases ops
  {
    if ops != [] {
      var u := Step(t, ops[0]);
      StepInv(t, ops[0]);
      RunInv(u, ops[1..]);
      RunExtends(u, ops[1..]);
      assert JobInv(t, job) && JobInv(Run(t, ops), job);
      var change := LeaseStep(t, ops[0], job);
      GenerationsGrow(u, ops[1..], job);
    }
  }

  /**
   A caller that was answered with row `t.leases[job]` and submits or defers with that owner and
   generation at any later state: if anything commits, the row is still the very one it holds, or
   a defer ended that row's lifetime in between.
   */
  lemma FencedWrites(t: Tables, ops: seq<Op>, job: string, key: string, id: string, hash: string, recheckAt: int,
                     now: int)
    requires Inv(t) && job in t.leases
    ensures var u := Run(t, ops); var held := t.leases[job];
            (Accept(u, job, held.owner, held.count, key, id, hash, now) != u
             || Defer(u, job, held.owner, held.count, key, recheckAt, hash, now) != u)
            ==> job in u.leases && (u.leases[job] == held || (job !in t.deferrals && job in u.deferrals))
  {
    var u := Run(t, ops);
    RunExtends(t, ops);
    if job in u.leases && SameLifetime(t, u, job) {
      GenerationsGrow(t, ops, job);
    }
  }

  /** Within a lifetime a superseded generation commits nothing, whatever `now` it carries. */
  lemma SupersededCommitsNothing(t: Tables, ops: seq<Op>, job: string, key: string, id: string, hash: string,
                                 recheckAt: int, now: int)
    requires Inv(t) && job in t.leases && SameLifetime(t, Run(t, ops), job)
    requires var u := Run(t, ops); job in u.leases ==> u.leases[job] != t.leases[job]
    ensures var u := Run(t, ops); var held := t.leases[job];
            && Accept(u, job, held.owner, held.count, key, id, hash, now) == u
            && Defer(u, job, held.owner, held.count, key, recheckAt, hash, now) == u
  {
    FencedWrites(t, ops, job, key, id, hash, recheckAt, now);
  }

  /**
   In every reachable state the fence alone decides: a submit with an unused key, and a defer of a
   job that was never deferred, commit everything they write exactly when their owner and generation
   are the current unexpired lease, and otherwise nothing.  The lease is released in the same step.
   */
  lemma FenceDecides(ops: seq<Op>, job: string, caller: string, gen: int, key: string, id: string, hash: string,
                     recheckAt: int, now: int)
    ensures var t := Run(Empty, ops); var u := Accept(t, job, caller, gen, key, id, hash, now);
            if Holds(t, job, caller, gen, now) && key !in t.proposals then
              && job !in u.leases
              && job in u.terminals && u.terminals[job].proposalId == id
              && u.proposals.Keys == t.proposals.Keys + {key} && IsFormal(u.proposals[key], job)
              && Count(u.events, job, SubmitReceived) == 1 && Count(u.events, job, Completed) == 1
            else u == t
    ensures var t := Run(Empty, ops); var u := Defer(t, job, caller, gen, key, recheckAt, hash, now);
            if Holds(t, job, caller, gen, now) && job !in t.deferrals && !DeferralKeyUsed(t, key) then
              && job !in u.leases && job in u.deferrals && u.deferrals[job].recheckAt == recheckAt
              && u.events == t.events
            else u == t
  {
    EmptyInv();
    RunInv(Empty, ops);
    var t := Run(Empty, ops);
    assert JobInv(t, job);
    var u := Accept(t, job, caller, gen, key, id, hash, now);
    if u != t {
      var received := Event(job, SubmitReceived, caller, Some(id), Some(ChatGpt), now);
      var completed := Event(job, Completed, caller, Some(id), Some(ChatGpt), now);
      CountTwo(t.events, received, completed, job, SubmitReceived);
      CountTwo(t.events, received, completed, job, Completed);
    }
  }

  datatype ServerStatus = JobCompleted | JobClaimed | JobQueued

  /** `jobServerState`, the status the read plane shows: terminal, then unexpired lease, then queued. */
  function ShownStatus(t: Tables, job: string, now: int): ServerStatus {
    if job in t.terminals then JobCompleted
    else if job in t.leases && t.leases[job].expiresAt > now then JobClaimed
    else JobQueued
  }

  /** The status leaves deferrals out: a job shown as queued can be claimed exactly when it is not deferred. */
  lemma QueuedIsClaimableUnlessDeferred(t: Tables, job: string, owner: string, token: string, now: int)
    requires FreshToken(t, token)
    ensures Claim(t, job, owner, token, now) != t
            <==> ShownStatus(t, job, now) == JobQueued && !DeferredAt(t, job, now)
    ensures Claim(t, job, owner, token, now) != t ==>
              ShownStatus(Claim(t, job, owner, token, now), job, now) == JobClaimed
    ensures ShownStatus(t, job, now) == JobCompleted <==> job in t.terminals
    ensures ShownStatus(t, job, now) == JobClaimed
            <==> job !in t.terminals && job in t.leases && t.leases[job].expiresAt > now
    ensures DeferredAt(t, job, now) && job !in t.terminals && job !in t.leases ==>
              ShownStatus(t, job, now) == JobQueued && Claim(t, job, owner, token, now) == t
  {
    if Claimable(t, job, now) {
      assert Claim(t, job, owner, token, now).leases[job].token == token;
    }
  }

  /** The other case of `FencedWrites` occurs: the counter restarts, and an old fence opens the new row. */
  lemma FenceReopensAfterDefer()
    ensures var t := Run(Empty, [ClaimOp("j", "a", "t1", 0)]);
            var u := Run(t, [DeferOp("j", "a", 1, "key-0001", 20, "h", 10), ClaimOp("j", "a", "t2", 30)]);
            && Leased(t) && Leased(u) && t.leases["j"] != u.leases["j"]
            && "j" in Accept(u, "j", t.leases["j"].owner, t.leases["j"].count, "key-0002", "p", "h", 40).terminals
  {
    var claim := ClaimOp("j", "a", "t1", 0);
    var t := Run(Empty, [claim]);
    RunOne(Empty, claim);
    assert t.leases == map["j" := Lease("a", "t1", 0, LEASE_TTL_MS, 1)];
    var defer := DeferOp("j", "a", 1, "key-0001", 20, "h", 10);
    var again := ClaimOp("j", "a", "t2", 30);
    var s := Step(t, defer);
    assert s.leases == map[];
    var u := Run(t, [defer, again]);
    assert [defer, again][1..] == [again];
    assert u == Run(s, [again]);
    RunOne(s, again);
    assert u.leases == map["j" := Lease("a", "t2", 30, 30 + LEASE_TTL_MS, 1)];
    assert u.proposals == map[];
    assert !FormalExists(u, "j");
  }

  predicate Leased(t: Tables) { "j" in t.leases }
}
