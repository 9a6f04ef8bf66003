/**
 What every transaction of the work queue keeps, hence what holds in every state that any
 interleaving of formal claims, submits and defers can reach.
 */
module WorkflowInvariants {
  import opened Options
  import opened WorkflowTables

  // ----- counting receipts

  /** A COMPLETED or SUBMIT_RECEIVED receipt is formal: only origin CHATGPT writes them here. */
  function Count(events: seq<Event>, job: string, kind: EventKind): nat {
    if events == [] then 0
    else
      var last := events[|events| - 1];
      Count(events[..|events| - 1], job, kind) + if last.jobId == job && last.kind == kind then 1 else 0
  }

  function Hit(e: Event, job: string, kind: EventKind): nat {
    if e.jobId == job && e.kind == kind then 1 else 0
  }

  lemma CountOne(events: seq<Event>, e: Event, job: string, kind: EventKind)
    ensures Count(events + [e], job, kind) == Count(events, job, kind) + Hit(e, job, kind)
  {
    assert (events + [e])[..|events|] == events;
  }

  lemma CountTwo(events: seq<Event>, e: Event, f: Event, job: string, kind: EventKind)
    ensures Count(events + [e, f], job, kind) == Count(events, job, kind) + Hit(e, job, kind) + Hit(f, job, kind)
  {
    CountOne(events, e, job, kind);
    CountOne(events + [e], f, job, kind);
    assert events + [e, f] == events + [e] + [f];
  }

  // ----- the invariant

  function One(b: bool): nat { if b then 1 else 0 }

  /** `key` is where the job's one formal result is stored. */
  ghost predicate OnlyFormal(t: Tables, job: string, key: string) {
    && key in t.proposals
    && IsFormal(t.proposals[key], job)
    && forall k :: k in t.proposals && IsFormal(t.proposals[k], job) ==> k == key
  }

  ghost predicate TerminalConsistent(t: Tables, job: string) {
    if job in t.terminals then
      && job !in t.leases
      && exists key :: OnlyFormal(t, job, key) && t.proposals[key].id == t.terminals[job].proposalId
    else
      !FormalExists(t, job)
  }

  /** Every claim ends in exactly one of: an expiry, the result, the deferral, or it is still there. */
  ghost predicate EventsConserved(t: Tables, job: string) {
    && Count(t.events, job, Claimed)
       == Count(t.events, job, LeaseExpired) + One(job in t.terminals) + One(job in t.deferrals) + One(job in t.leases)
    && Count(t.events, job, Completed) == One(job in t.terminals)
    && Count(t.events, job, SubmitReceived) == One(job in t.terminals)
  }

  ghost predicate LeaseShaped(t: Tables, job: string) {
    job in t.leases ==>
      && t.leases[job].count >= 1
      && t.leases[job].expiresAt == t.leases[job].claimedAt + LEASE_TTL_MS
  }

  ghost predicate JobInv(t: Tables, job: string) {
    TerminalConsistent(t, job) && EventsConserved(t, job) && LeaseShaped(t, job)
  }

  ghost predicate ProposalIdsUnique(t: Tables) {
    forall k, l :: k in t.proposals && l in t.proposals && t.proposals[k].id == t.proposals[l].id ==> k == l
  }

  ghost predicate ProposalsShaped(t: Tables) {
    forall k :: k in t.proposals ==>
      var p := t.proposals[k];
      if p.status == Received then p.origin == ChatGpt && p.jobId in t.terminals
      else p.reason.Some? && p.reason.value != Conflict
  }

  ghost predicate DeferralKeysUnique(t: Tables) {
    forall i, j :: i in t.deferrals && j in t.deferrals && t.deferrals[i].key == t.deferrals[j].key ==> i == j
  }

  ghost predicate Inv(t: Tables) {
    && ProposalIdsUnique(t) && ProposalsShaped(t) && DeferralKeysUnique(t)
    && forall job: string :: JobInv(t, job)
  }

  lemma EmptyInv()
    ensures Inv(Empty)
  {
    forall job: string ensures JobInv(Empty, job) {
      assert !FormalExists(Empty, job);
    }
  }

  // ----- one transaction at a time

  lemma ClaimCounts(t: Tables, job: string, owner: string, token: string, now: int, j: string, kind: EventKind)
    requires Claimable(t, job, now)
    ensures Count(Claim(t, job, owner, token, now).events, j, kind)
            == Count(t.events, j, kind)
               + if j != job then 0 else if kind == Claimed then 1 else One(kind == LeaseExpired && job in t.leases)
  {
    var claimed := Event(job, Claimed, owner, None, None, now);
    if job in t.leases {
      CountTwo(t.events, Event(job, LeaseExpired, t.leases[job].owner, None, None, now), claimed, j, kind);
    } else {
      CountOne(t.events, claimed, j, kind);
    }
  }

  lemma ClaimJobInv(t: Tables, job: string, owner: string, token: string, now: int, j: string)
    requires JobInv(t, j) && Claimable(t, job, now)
    ensures JobInv(Claim(t, job, owner, token, now), j)
  {
    SameFormals(t, Claim(t, job, owner, token, now), j);
    ClaimCounts(t, job, owner, token, now, j, Claimed);
    ClaimCounts(t, job, owner, token, now, j, LeaseExpired);
    ClaimCounts(t, job, owner, token, now, j, Completed);
    ClaimCounts(t, job, owner, token, now, j, SubmitReceived);
  }

  lemma ClaimInv(t: Tables, job: string, owner: string, token: string, now: int)
    requires Inv(t)
    ensures Inv(Claim(t, job, owner, token, now))
  {
    var u := Claim(t, job, owner, token, now);
    if Claimable(t, job, now) {
      forall j: string ensures JobInv(u, j) {
        ClaimJobInv(t, job, owner, token, now, j);
      }
    }
  }

  /** A transaction that stores no formal proposal of `job` keeps which ones there are. */
  lemma SameFormals(t: Tables, u: Tables, job: string)
    requires forall k :: k in t.proposals ==> k in u.proposals && u.proposals[k] == t.proposals[k]
    requires forall k :: k in u.proposals && k !in t.proposals ==> !IsFormal(u.proposals[k], job)
    ensures FormalExists(t, job) <==> FormalExists(u, job)
    ensures forall key :: OnlyFormal(t, job, key) ==> OnlyFormal(u, job, key)
  {
    if FormalExists(t, job) {
      var k :| k in t.proposals && IsFormal(t.proposals[k], job);
      assert k in u.proposals && IsFormal(u.proposals[k], job);
    }
  }

  lemma AcceptJobInv(t: Tables, job: string, caller: string, gen: int, key: string, id: string, hash: string,
                     now: int, j: string)
    requires JobInv(t, j) && AcceptCommits(t, job, caller, gen, key, now)
    ensures JobInv(Accept(t, job, caller, gen, key, id, hash, now), j)
  {
    var u := Accept(t, job, caller, gen, key, id, hash, now);
    var received := Event(job, SubmitReceived, caller, Some(id), Some(ChatGpt), now);
    var completed := Event(job, Completed, caller, Some(id), Some(ChatGpt), now);
    forall kind { CountTwo(t.events, received, completed, j, kind); }
    if j == job {
      assert OnlyFormal(u, job, key);
    } else {
      SameFormals(t, u, j);
    }
  }

  lemma AcceptInv(t: Tables, job: string, caller: string, gen: int, key: string, id: string, hash: string, now: int)
    requires Inv(t) && FreshProposalId(t, id)
    ensures Inv(Accept(t, job, caller, gen, key, id, hash, now))
  {
    var u := Accept(t, job, caller, gen, key, id, hash, now);
    if AcceptCommits(t, job, caller, gen, key, now) {
      forall j: string ensures JobInv(u, j) {
        AcceptJobInv(t, job, caller, gen, key, id, hash, now, j);
      }
    }
  }

  lemma RejectInv(t: Tables, job: string, caller: string, key: string, id: string, origin: Origin, reason: Reason,
                  hash: string, now: int)
    requires Inv(t) && FreshProposalId(t, id) && reason != Conflict
    ensures Inv(Reject(t, job, caller, key, id, origin, reason, hash, now))
  {
    var u := Reject(t, job, caller, key, id, origin, reason, hash, now);
    if u != t {
      var rejected := Event(job, SubmitRejected, caller, Some(id), Some(origin), now);
      forall j: string ensures JobInv(u, j) {
        assert JobInv(t, j);
        forall kind { CountOne(t.events, rejected, j, kind); }
        SameFormals(t, u, j);
      }
    }
  }

  lemma DeferInv(t: Tables, job: string, caller: string, gen: int, key: string, recheckAt: int, hash: string, now: int)
    requires Inv(t)
    ensures Inv(Defer(t, job, caller, gen, key, recheckAt, hash, now))
  {
    var u := Defer(t, job, caller, gen, key, recheckAt, hash, now);
    forall j: string ensures JobInv(u, j) {
      assert JobInv(t, j);
      SameFormals(t, u, j);
    }
  }

  lemma AuditInv(t: Tables, e: Event)
    requires Inv(t) && (e.kind == ClaimDenied || e.kind == SubmitConflict)
    ensures Inv(t.(events := t.events + [e]))
  {
    var u := t.(events := t.events + [e]);
    forall j: string ensures JobInv(u, j) {
      assert JobInv(t, j);
      forall kind { CountOne(t.events, e, j, kind); }
      SameFormals(t, u, j);
    }
  }

  lemma StepInv(t: Tables, op: Op)
    requires Inv(t)
    ensures Inv(Step(t, op))
  {
    if Valid(t, op) {
      match op
      case ClaimOp(job, owner, token, now) => ClaimInv(t, job, owner, token, now);
      case AcceptOp(job, caller, gen, key, id, hash, now) => AcceptInv(t, job, caller, gen, key, id, hash, now);
      case RejectOp(job, caller, key, id, origin, reason, hash, now) =>
        RejectInv(t, job, caller, key, id, origin, reason, hash, now);
      case DeferOp(job, caller, gen, key, recheckAt, hash, now) =>
        DeferInv(t, job, caller, gen, key, recheckAt, hash, now);
      case DenyOp(job, actor, now) => AuditInv(t, Event(job, ClaimDenied, actor, None, None, now));
      case ConflictOp(job, actor, id, now) => AuditInv(t, Event(job, SubmitConflict, actor, Some(id), None, now));
    }
  }

  /** The four things a transaction can do to a job's lease row. */
  datatype LeaseChange = Kept | Taken | Finished | Released

  ghost predicate IsChange(change: LeaseChange, t: Tables, u: Tables, op: Op, job: string) {
    match change
    case Kept =>
      && (job in u.leases <==> job in t.leases) && (job in t.leases ==> u.leases[job] == t.leases[job])
      && (job in u.terminals <==> job in t.terminals)
      && (job in u.deferrals <==> job in t.deferrals) && (job in t.deferrals ==> u.deferrals[job] == t.deferrals[job])
    case Taken =>
      && op.ClaimOp? && op.job == job && Claimable(t, job, op.now) && job in u.leases
      && u.leases[job] == Lease(op.owner, op.token, op.now, op.now + LEASE_TTL_MS,
                                if job in t.leases then t.leases[job].count + 1 else 1)
      && (job in t.leases ==> u.leases[job] != t.leases[job])
      && u.terminals == t.terminals && u.deferrals == t.deferrals
    case Finished =>
      && job in t.leases && op.now < t.leases[job].expiresAt
      && job !in u.leases && job in u.terminals && u.deferrals == t.deferrals
    case Released =>
      && job in t.leases && op.now < t.leases[job].expiresAt
      && op.DeferOp? && op.job == job && Valid(t, op)
      && DeferCommits(t, job, op.caller, op.generation, op.key, op.now)
      && job !in u.leases && job !in t.deferrals && u.terminals == t.terminals
      && job in u.deferrals && u.deferrals[job].recheckAt == op.recheckAt > op.now
  }

  lemma ClaimChange(t: Tables, op: Op)
    requires Inv(t) && op.ClaimOp? && Valid(t, op)
    ensures IsChange(if Claimable(t, op.job, op.now) then Taken else Kept, t, Step(t, op), op, op.job)
  {
  }

  lemma AcceptChange(t: Tables, op: Op)
    requires Inv(t) && op.AcceptOp? && Valid(t, op)
    ensures IsChange(if AcceptCommits(t, op.job, op.caller, op.generation, op.key, op.now) then Finished else Kept,
                     t, Step(t, op), op, op.job)
  {
    assert JobInv(t, op.job);
  }

  lemma DeferChange(t: Tables, op: Op)
    requires Inv(t) && op.DeferOp? && Valid(t, op)
    ensures IsChange(if DeferCommits(t, op.job, op.caller, op.generation, op.key, op.now) then Released else Kept,
                     t, Step(t, op), op, op.job)
  {
    assert JobInv(t, op.job);
  }

  lemma NoChange(t: Tables, op: Op, job: string)
    requires op.job != job || !Valid(t, op) || op.RejectOp? || op.DenyOp? || op.ConflictOp?
    ensures IsChange(Kept, t, Step(t, op), op, job)
  {
  }

  lemma LeaseStep(t: Tables, op: Op, job: string) returns (change: LeaseChange)
    requires Inv(t)
    ensures IsChange(change, t, Step(t, op), op, job)
  {
    if op.job != job || !Valid(t, op) || op.RejectOp? || op.DenyOp? || op.ConflictOp? {
      NoChange(t, op, job);
      change := Kept;
    } else if op.ClaimOp? {
      ClaimChange(t, op);
      change := if Claimable(t, job, op.now) then Taken else Kept;
    } else if op.AcceptOp? {
      AcceptChange(t, op);
      change := if AcceptCommits(t, job, op.caller, op.generation, op.key, op.now) then Finished else Kept;
    } else {
      DeferChange(t, op);
      change := if DeferCommits(t, job, op.caller, op.generation, op.key, op.now) then Released else Kept;
    }
  }

  // ----- whole runs

  lemma {:induction false} RunInv(t: Tables, ops: seq<Op>)
    requires Inv(t)
    ensures Inv(Run(t, ops))
    decreases ops
  {
    if ops != [] {
      StepInv(t, ops[0]);
      RunInv(Step(t, ops[0]), ops[1..]);
    }
  }

  /** Nothing recorded is ever taken back: terminals, deferrals and proposals stay as they are, receipts only grow. */
  ghost predicate Extends(t: Tables, u: Tables) {
    && (forall j :: j in t.terminals ==> j in u.terminals && u.terminals[j] == t.terminals[j])
    && (forall j :: j in t.deferrals ==> j in u.deferrals && u.deferrals[j] == t.deferrals[j])
    && (forall k :: k in t.proposals ==> k in u.proposals && u.proposals[k] == t.proposals[k])
    && t.events <= u.events
  }

  lemma StepExtends(t: Tables, op: Op)
    ensures Extends(t, Step(t, op))
  {
  }

  lemma {:induction false} RunExtends(t: Tables, ops: seq<Op>)
    ensures Extends(t, Run(t, ops))
    decreases ops
  {
    if ops != [] {
      StepExtends(t, ops[0]);
      RunExtends(Step(t, ops[0]), ops[1..]);
    }
  }

  /**
   In every reachable state and for every continuation: a terminal job has no lease, one formal
   proposal (the one the terminal names), one COMPLETED and one formal SUBMIT_RECEIVED receipt,
   and that is so for good: the terminal and its proposal never change and no claim ever commits.
   */
  lemma TerminalIsFinal(before: seq<Op>, after: seq<Op>, job: string)
    requires job in Run(Empty, before).terminals
    ensures var t := Run(Empty, before); var u := Run(t, after);
            && job !in u.leases
            && job in u.terminals && u.terminals[job] == t.terminals[job]
            && (exists key :: OnlyFormal(t, job, key) && OnlyFormal(u, job, key)
                              && t.proposals[key] == u.proposals[key]
                              && u.proposals[key].id == u.terminals[job].proposalId)
            && Count(u.events, job, Completed) == 1 && Count(u.events, job, SubmitReceived) == 1
            && Count(u.events, job, Claimed) == Count(t.events, job, Claimed)
  {
    var t := Run(Empty, before);
    EmptyInv();
    RunInv(Empty, before);
    RunInv(t, after);
    RunExtends(t, after);
    var u := Run(t, after);
    assert JobInv(t, job) && JobInv(u, job);
    var key :| OnlyFormal(t, job, key) && t.proposals[key].id == t.terminals[job].proposalId;
    assert OnlyFormal(u, job, key);
    NoClaimAfterTerminal(t, after, job);
  }

  lemma {:induction false} NoClaimAfterTerminal(t: Tables, ops: seq<Op>, job: string)
    requires Inv(t) && job in t.terminals
    ensures Count(Run(t, ops).events, job, Claimed) == Count(t.events, job, Claimed)
    decreases ops
  {
    if ops != [] {
      var u := Step(t, ops[0]);
      StepInv(t, ops[0]);
      RunExtends(t, [ops[0]]);
      RunOne(t, ops[0]);
      assert Count(u.events, job, Claimed) == Count(t.events, job, Claimed) by {
        AppendedReceipts(t, ops[0], job);
      }
      NoClaimAfterTerminal(u, ops[1..], job);
    }
  }

  /** A transaction that is not an effective claim of `job` adds no CLAIMED receipt of it. */
  lemma AppendedReceipts(t: Tables, op: Op, job: string)
    requires !(op.ClaimOp? && op.job == job && Claimable(t, job, op.now))
    ensures Count(Step(t, op).events, job, Claimed) == Count(t.events, job, Claimed)
  {
    var u := Step(t, op);
    var n := |t.events|;
    if |u.events| == n + 1 {
      assert u.events == t.events + [u.events[n]];
      CountOne(t.events, u.events[n], job, Claimed);
    } else if |u.events| == n + 2 {
      assert u.events == t.events + [u.events[n], u.events[n + 1]];
      CountTwo(t.events, u.events[n], u.events[n + 1], job, Claimed);
    }
  }

  /** In every reachable state, for every job: #CLAIMED = #LEASE_EXPIRED + [terminal] + [deferred] + [lease row]. */
  lemma ClaimsAreConserved(ops: seq<Op>, job: string)
    ensures var t := Run(Empty, ops);
            Count(t.events, job, Claimed)
            == Count(t.events, job, LeaseExpired)
               + One(job in t.terminals) + One(job in t.deferrals) + One(job in t.leases)
  {
    EmptyInv();
    RunInv(Empty, ops);
    assert JobInv(Run(Empty, ops), job);
  }
}
