/**
 The five D1 tables of the research work queue and the transactions that change them.

 A transaction is written here as what it does to the tables as a whole; module
 `WorkflowDatabase` has the statements that implement each one.  Times are milliseconds
 (the source compares normalized ISO strings, which order like the instants they name).
 */
module WorkflowTables {
  import opened Options

  const LEASE_TTL_MS := 3600 * 1000

  datatype Origin = ChatGpt | Synthetic | Replay
  datatype ProposalStatus = Received | Rejected
  datatype Reason = Conflict | SecondResult | LeaseInvalid | ValidationFailed
  datatype EventKind =
    Claimed | ClaimDenied | LeaseExpired | SubmitReceived | SubmitRejected | SubmitConflict | Completed

  datatype Lease = Lease(owner: string, token: string, claimedAt: int, expiresAt: int, count: nat)
  datatype Terminal = Terminal(proposalId: string, completedAt: int)
  datatype Deferral = Deferral(key: string, recheckAt: int, payloadHash: string)
  datatype Proposal = Proposal(
    id: string, jobId: string, caller: string, origin: Origin, status: ProposalStatus,
    reason: Option<Reason>, payloadHash: string, createdAt: int)
  datatype Event = Event(
    jobId: string, kind: EventKind, actor: string, proposalId: Option<string>, origin: Option<Origin>, createdAt: int)

  /** Leases, terminals and deferrals by job id; proposals by their UNIQUE idempotency key. */
  datatype Tables = Tables(
    leases: map<string, Lease>,
    terminals: map<string, Terminal>,
    deferrals: map<string, Deferral>,
    proposals: map<string, Proposal>,
    events: seq<Event>)

  const Empty := Tables(map[], map[], map[], map[], [])

  /** One transaction of one caller, with the `now` that caller read when its call began. */
  datatype Op =
    | ClaimOp(job: string, owner: string, token: string, now: int)
    | AcceptOp(job: string, caller: string, generation: int, key: string, proposalId: string, payloadHash: string,
               now: int)
    | RejectOp(job: string, caller: string, key: string, proposalId: string, origin: Origin, reason: Reason,
               payloadHash: string, now: int)
    | DeferOp(job: string, caller: string, generation: int, key: string, recheckAt: int, payloadHash: string, now: int)
    | DenyOp(job: string, actor: string, now: int)
    | ConflictOp(job: string, actor: string, proposalId: string, now: int)

  // ----- guards

  predicate DeferredAt(t: Tables, job: string, now: int) {
    job in t.deferrals && t.deferrals[job].recheckAt > now
  }

  predicate Claimable(t: Tables, job: string, now: int) {
    && job !in t.terminals
    && !DeferredAt(t, job, now)
    && (job in t.leases ==> t.leases[job].expiresAt <= now)
  }

  /** The fence: this owner holds this generation of an unexpired lease. */
  predicate Holds(t: Tables, job: string, caller: string, generation: int, now: int) {
    && job in t.leases
    && t.leases[job].owner == caller
    && t.leases[job].count == generation
    && t.leases[job].expiresAt > now
  }

  predicate IsFormal(p: Proposal, job: string) {
    p.jobId == job && p.origin == ChatGpt && p.status == Received
  }

  predicate FormalExists(t: Tables, job: string) {
    exists k :: k in t.proposals && IsFormal(t.proposals[k], job)
  }

  predicate DeferralKeyUsed(t: Tables, key: string) {
    exists j :: j in t.deferrals && t.deferrals[j].key == key
  }

  predicate FreshToken(t: Tables, token: string) {
    forall j :: j in t.leases ==> t.leases[j].token != token
  }

  predicate FreshProposalId(t: Tables, id: string) {
    forall k :: k in t.proposals ==> t.proposals[k].id != id
  }

  // ----- transactions

  function Claim(t: Tables, job: string, owner: string, token: string, now: int): Tables {
    if !Claimable(t, job, now) then t
    else if job in t.leases then
      t.(leases := t.leases[job := Lease(owner, token, now, now + LEASE_TTL_MS, t.leases[job].count + 1)],
         events := t.events + [Event(job, LeaseExpired, t.leases[job].owner, None, None, now),
                               Event(job, Claimed, owner, None, None, now)])
    else
      t.(leases := t.leases[job := Lease(owner, token, now, now + LEASE_TTL_MS, 1)],
         events := t.events + [Event(job, Claimed, owner, None, None, now)])
  }

  /** A formal accept runs into a UNIQUE index: the key, or the job's one formal result. */
  predicate AcceptAborts(t: Tables, job: string, caller: string, generation: int, key: string, now: int) {
    && Holds(t, job, caller, generation, now) && job !in t.terminals
    && (key in t.proposals || FormalExists(t, job))
  }

  predicate AcceptCommits(t: Tables, job: string, caller: string, generation: int, key: string, now: int) {
    && Holds(t, job, caller, generation, now) && job !in t.terminals
    && key !in t.proposals && !FormalExists(t, job)
  }

  function Accept(t: Tables, job: string, caller: string, generation: int, key: string, id: string, hash: string,
                  now: int): Tables {
    if !AcceptCommits(t, job, caller, generation, key, now) then t
    else
      Tables(
        t.leases - {job},
        t.terminals[job := Terminal(id, now)],
        t.deferrals,
        t.proposals[key := Proposal(id, job, caller, ChatGpt, Received, None, hash, now)],
        t.events + [Event(job, SubmitReceived, caller, Some(id), Some(ChatGpt), now),
                    Event(job, Completed, caller, Some(id), Some(ChatGpt), now)])
  }

  function Reject(t: Tables, job: string, caller: string, key: string, id: string, origin: Origin, reason: Reason,
                  hash: string, now: int): Tables {
    if key in t.proposals then t
    else
      t.(proposals := t.proposals[key := Proposal(id, job, caller, origin, Rejected, Some(reason), hash, now)],
         events := t.events + [Event(job, SubmitRejected, caller, Some(id), Some(origin), now)])
  }

  predicate DeferAborts(t: Tables, job: string, caller: string, generation: int, key: string, now: int) {
    && Holds(t, job, caller, generation, now) && job !in t.terminals
    && (job in t.deferrals || DeferralKeyUsed(t, key))
  }

  predicate DeferCommits(t: Tables, job: string, caller: string, generation: int, key: string, now: int) {
    && Holds(t, job, caller, generation, now) && job !in t.terminals
    && job !in t.deferrals && !DeferralKeyUsed(t, key)
  }

  function Defer(t: Tables, job: string, caller: string, generation: int, key: string, recheckAt: int, hash: string,
                 now: int): Tables {
    if !DeferCommits(t, job, caller, generation, key, now) then t
    else t.(leases := t.leases - {job}, deferrals := t.deferrals[job := Deferral(key, recheckAt, hash)])
  }

  // ----- steps and runs

  /**
   What every call guarantees of its transactions: a freshly drawn random id, a stored reject reason
   that is one of the three the source stores, a recheck time later than its `now`.
   */
  predicate Valid(t: Tables, op: Op) {
    match op
    case ClaimOp(_, _, token, _) => FreshToken(t, token)
    case AcceptOp(_, _, _, _, id, _, _) => FreshProposalId(t, id)
    case RejectOp(_, _, _, id, _, reason, _, _) => FreshProposalId(t, id) && reason != Conflict
    case DeferOp(_, _, _, _, recheckAt, _, now) => recheckAt > now
    case DenyOp(_, _, _) => true
    case ConflictOp(_, _, _, _) => true
  }

  function Step(t: Tables, op: Op): Tables {
    if !Valid(t, op) then t
    else
      match op
      case ClaimOp(job, owner, token, now) => Claim(t, job, owner, token, now)
      case AcceptOp(job, caller, gen, key, id, hash, now) => Accept(t, job, caller, gen, key, id, hash, now)
      case RejectOp(job, caller, key, id, origin, reason, hash, now) =>
        Reject(t, job, caller, key, id, origin, reason, hash, now)
      case DeferOp(job, caller, gen, key, recheckAt, hash, now) => Defer(t, job, caller, gen, key, recheckAt, hash, now)
      case DenyOp(job, actor, now) => t.(events := t.events + [Event(job, ClaimDenied, actor, None, None, now)])
      case ConflictOp(job, actor, id, now) =>
        t.(events := t.events + [Event(job, SubmitConflict, actor, Some(id), None, now)])
  }

  /**
   Any interleaving of any number of calls is a run: every access of a call that changes the
   tables is one transaction, guarded by the tables it meets and not by what the call read before.
   */
  function Run(t: Tables, ops: seq<Op>): Tables
    decreases ops
  {
    if ops == [] then t else Run(Step(t, ops[0]), ops[1..])
  }

  lemma {:induction false} RunConcat(t: Tables, a: seq<Op>, b: seq<Op>)
    ensures Run(t, a + b) == Run(Run(t, a), b)
    decreases a
  {
    if a == [] {
      assert a + b == b;
    } else {
      assert (a + b)[0] == a[0] && (a + b)[1..] == a[1..] + b;
      RunConcat(Step(t, a[0]), a[1..], b);
    }
  }

  lemma RunOne(t: Tables, op: Op)
    ensures Run(t, [op]) == Step(t, op)
  {
    assert Run(t, [op]) == Run(Step(t, op), [op][1..]);
  }

  lemma RunSnoc(t: Tables, a: seq<Op>, op: Op)
    ensures Run(t, a + [op]) == Step(Run(t, a), op)
  {
    RunConcat(t, a, [op]);
    RunOne(Run(t, a), op);
  }
}
