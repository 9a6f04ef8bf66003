/**
 The three calls on the work queue, access by access.  Before each access the transactions
 `env(n)` of other calls commit, for every possible `env`, so whatever a call has read may be
 stale when it acts.  Every outcome is stated about the tables at the moment the call returns.
 */
module WorkflowCalls {
  import opened Options
  import opened WorkflowTables
  import opened WorkflowInvariants
  import opened WorkflowDatabase

  datatype SubReason = NoLease | Expired | OwnerMismatch | GenerationStale

  // ----- claim

  datatype Denial = NotFound | AlreadyTerminal | StillDeferred
  datatype ClaimOutcome =
    | ClaimGranted(lease: Lease)
    | AlreadyClaimed(owner: string, expiresAt: int)
    | NotClaimable(denial: Denial)
    | ClaimUnavailable

  /** No other call commits anything while this one runs. */
  ghost predicate Alone(env: nat -> seq<Op>) {
    forall n :: env(n) == []
  }

  /** What an answer says about the tables `t` at the moment it is given. */
  ghost predicate ClaimAnswer(t: Tables, outcome: ClaimOutcome, job: string, owner: string, tokens: set<string>,
                              now: int) {
    match outcome
    case ClaimGranted(lease) =>
      && job in t.leases && t.leases[job] == lease && lease.owner == owner && job !in t.terminals
      && (lease.token in tokens || lease.expiresAt > now)
    case AlreadyClaimed(holder, expiresAt) =>
      && job in t.leases && t.leases[job].owner == holder != owner
      && t.leases[job].expiresAt == expiresAt > now
    case NotClaimable(NotFound) => true
    case NotClaimable(AlreadyTerminal) =>
      && job in t.terminals
      && t.events != [] && t.events[|t.events| - 1] == Event(job, ClaimDenied, owner, None, None, now)
    case NotClaimable(StillDeferred) => DeferredAt(t, job, now)
    case ClaimUnavailable => true
  }

  /** The answer and the new tables of a claim of a visible job that meets no interference. */
  function LoneClaim(t: Tables, job: string, owner: string, token: string, now: int): (ClaimOutcome, Tables) {
    if Claimable(t, job, now) then
      var u := Claim(t, job, owner, token, now);
      (ClaimGranted(u.leases[job]), u)
    else if job in t.terminals then
      (NotClaimable(AlreadyTerminal), t.(events := t.events + [Event(job, ClaimDenied, owner, None, None, now)]))
    else if DeferredAt(t, job, now) then (NotClaimable(StillDeferred), t)
    else if t.leases[job].owner == owner then (ClaimGranted(t.leases[job]), t)
    else (AlreadyClaimed(t.leases[job].owner, t.leases[job].expiresAt), t)
  }

  /** What that is: each answer with its cause, and what it leaves in the tables. */
  lemma LoneClaimMeaning(t: Tables, job: string, owner: string, token: string, now: int)
    ensures var (answer, u) := LoneClaim(t, job, owner, token, now);
      if job in t.terminals then
        && answer == NotClaimable(AlreadyTerminal)
        && u == t.(events := t.events + [Event(job, ClaimDenied, owner, None, None, now)])
      else if job in t.deferrals && t.deferrals[job].recheckAt > now then
        answer == NotClaimable(StillDeferred) && u == t
      else if job in t.leases && t.leases[job].expiresAt > now then
        && u == t
        && answer == (if t.leases[job].owner == owner then ClaimGranted(t.leases[job])
                      else AlreadyClaimed(t.leases[job].owner, t.leases[job].expiresAt))
      else
        var taken := Event(job, Claimed, owner, None, None, now);
        && answer.ClaimGranted? && answer.lease.owner == owner && answer.lease.token == token
        && answer.lease.claimedAt == now && answer.lease.expiresAt == now + 3_600_000
        && answer.lease.count == (if job in t.leases then t.leases[job].count + 1 else 1)
        && u == t.(leases := t.leases[job := answer.lease],
                   events := t.events + if job in t.leases
                             then [Event(job, LeaseExpired, t.leases[job].owner, None, None, now), taken] else [taken])
  {
  }

  /** The reads that classify a claim whose batch did not create the lease; `None` means retry. */
  method ClassifyClaim(db: Database, job: string, owner: string, token: string, now: int, env: nat -> seq<Op>, n: nat)
    returns (outcome: Option<ClaimOutcome>)
    requires db.Valid()
    modifies db
    ensures db.Valid() && old(db.log) <= db.log
    ensures outcome.Some? ==>
      outcome.value != NotClaimable(NotFound) && ClaimAnswer(db.Contents(), outcome.value, job, owner, {}, now)
    ensures Alone(env) && !Claimable(old(db.Contents()), job, now) ==>
      outcome.Some? && (outcome.value, db.Contents()) == LoneClaim(old(db.Contents()), job, owner, token, now)
  {
    db.Others(env(n));
    if job in db.terminals {
      db.Others(env(n + 1));
      var _, _ := db.Transact(DenyOp(job, owner, now));
      return Some(NotClaimable(AlreadyTerminal));
    }
    db.Others(env(n + 2));
    if DeferredAt(db.Contents(), job, now) {
      return Some(NotClaimable(StillDeferred));
    }
    db.Others(env(n + 3));
    if job !in db.leases || db.leases[job].expiresAt <= now {
      return None;
    }
    TerminalHasNoLease(db.log, job);
    outcome := Some(if db.leases[job].owner == owner then ClaimGranted(db.leases[job])
                    else AlreadyClaimed(db.leases[job].owner, db.leases[job].expiresAt));
  }

  /** One of the two attempts: the batch, the read of the lease by its token, the classification. */
  method ClaimAttempt(db: Database, job: string, owner: string, token: string, now: int, env: nat -> seq<Op>, n: nat)
    returns (outcome: Option<ClaimOutcome>)
    requires db.Valid()
    modifies db
    ensures db.Valid() && old(db.log) <= db.log
    ensures outcome.Some? ==>
      outcome.value != NotClaimable(NotFound) && ClaimAnswer(db.Contents(), outcome.value, job, owner, {token}, now)
    ensures Alone(env) && FreshToken(old(db.Contents()), token) ==>
      outcome.Some? && (outcome.value, db.Contents()) == LoneClaim(old(db.Contents()), job, owner, token, now)
  {
    db.Others(env(n));
    var _, _ := db.Transact(ClaimOp(job, owner, token, now));
    db.Others(env(n + 1));
    TerminalHasNoLease(db.log, job);
    if job in db.leases && db.leases[job].owner == owner && db.leases[job].token == token {
      return Some(ClaimGranted(db.leases[job]));
    }
    outcome := ClassifyClaim(db, job, owner, token, now, env, n + 2);
  }

  lemma TerminalHasNoLease(log: seq<Op>, job: string)
    ensures !(job in Run(Empty, log).leases && job in Run(Empty, log).terminals)
  {
    EmptyInv();
    RunInv(Empty, log);
    assert JobInv(Run(Empty, log), job);
  }

  method ClaimJob(db: Database, job: string, owner: string, visible: bool, tokens: (string, string), now: int,
                  env: nat -> seq<Op>) returns (outcome: ClaimOutcome)
    requires db.Valid()
    modifies db
    ensures db.Valid() && old(db.log) <= db.log
    ensures ClaimAnswer(db.Contents(), outcome, job, owner, {tokens.0, tokens.1}, now)
    ensures outcome == NotClaimable(NotFound) <==> !visible
    ensures !visible ==> db.log == old(db.log)
    ensures Alone(env) && visible && FreshToken(old(db.Contents()), tokens.0) ==>
      (outcome, db.Contents()) == LoneClaim(old(db.Contents()), job, owner, tokens.0, now)
  {
    if !visible {
      return NotClaimable(NotFound);
    }
    db.Others(env(0));
    if job in db.terminals {
      db.Others(env(1));
      var _, _ := db.Transact(DenyOp(job, owner, now));
      return NotClaimable(AlreadyTerminal);
    }
    db.Others(env(2));
    if DeferredAt(db.Contents(), job, now) {
      return NotClaimable(StillDeferred);
    }
    for attempt := 0 to 2
      invariant db.Valid() && old(db.log) <= db.log
      invariant Alone(env) && FreshToken(old(db.Contents()), tokens.0) ==>
          attempt == 0 && db.Contents() == old(db.Contents())
    {
      var token := if attempt == 0 then tokens.0 else tokens.1;
      var result := ClaimAttempt(db, job, owner, token, now, env, 10 * attempt + 3);
      if result.Some? {
        return result.value;
      }
    }
    return ClaimUnavailable;
  }

  // ----- submit

  /** A proposal after validation: the hash of what is stored for it, and whether it may be accepted. */
  datatype Prepared = Prepared(hash: string, acceptable: bool)
  datatype DeclaredOrigin = Undeclared | Declared(origin: Origin) | Unrecognized

  datatype SubmitOutcome =
    | Accepted(id: string)
    | Replayed(id: string, createdAt: int)
    | Refused(reason: Reason, sub: Option<SubReason>)

  /** What a stored row answers to a submit that reuses its key. */
  function Verdict(row: Proposal, hash: string): SubmitOutcome {
    if row.payloadHash != hash then Refused(Conflict, None)
    else if row.status == Received then Replayed(row.id, row.createdAt)
    else Refused(match row.reason case Some(r) => r case None => ValidationFailed, None)
  }

  /** A stored row answers a reuse of its key: another payload conflicts, the same one gets the row's own verdict. */
  ghost predicate AnswersReuse(row: Proposal, hash: string, outcome: SubmitOutcome) {
    && (outcome == Refused(Conflict, None) <==> row.payloadHash != hash)
    && (row.payloadHash == hash && row.status == Received ==> outcome == Replayed(row.id, row.createdAt))
    && (row.payloadHash == hash && row.status == Rejected ==>
          row.reason.Some? && outcome == Refused(row.reason.value, None))
  }

  lemma StoredRowAnswers(t: Tables, key: string, hash: string)
    requires Inv(t) && key in t.proposals
    ensures AnswersReuse(t.proposals[key], hash, Verdict(t.proposals[key], hash))
  {
  }

  /** A refusal is replayed, whatever happens in between, with the reason it was first answered with. */
  lemma RefusalIsReplayed(before: seq<Op>, after: seq<Op>, job: string, key: string, id: string, hash: string,
                          reason: Reason)
    requires OwnRow(Run(Empty, before), job, key, id, hash, reason)
    ensures var u := Run(Run(Empty, before), after);
      && key in u.proposals && u.proposals[key] == Run(Empty, before).proposals[key]
      && Verdict(u.proposals[key], hash) == Refused(reason, None)
      && forall other: string :: other != hash ==> Verdict(u.proposals[key], other) == Refused(Conflict, None)
  {
    RunExtends(Run(Empty, before), after);
  }

  function LeaseProblem(t: Tables, job: string, caller: string, generation: int, now: int): Option<SubReason> {
    if job !in t.leases then Some(NoLease)
    else if t.leases[job].expiresAt <= now then Some(Expired)
    else if t.leases[job].owner != caller then Some(OwnerMismatch)
    else if t.leases[job].count != generation then Some(GenerationStale)
    else None
  }

  /** The four refusals of a caller without a current lease, in the order of the checks. */
  lemma LeaseProblemMeaning(t: Tables, job: string, caller: string, generation: int, now: int)
    ensures var problem := LeaseProblem(t, job, caller, generation, now);
      && (problem == Some(NoLease) <==> job !in t.leases)
      && (problem == Some(Expired) <==> job in t.leases && t.leases[job].expiresAt <= now)
      && (problem == Some(OwnerMismatch)
          <==> job in t.leases && t.leases[job].expiresAt > now && t.leases[job].owner != caller)
      && (problem == Some(GenerationStale)
          <==> job in t.leases && t.leases[job].expiresAt > now && t.leases[job].owner == caller
               && t.leases[job].count != generation)
      && (problem == None
          <==> job in t.leases && t.leases[job].expiresAt > now && t.leases[job].owner == caller
               && t.leases[job].count == generation)
      && (problem == None <==> Holds(t, job, caller, generation, now))
  {
  }

  /** The random id is drawn by nobody else. */
  predicate Draws(op: Op, id: string) {
    (op.AcceptOp? || op.RejectOp?) && op.proposalId == id
  }

  ghost predicate NeverDrawn(env: nat -> seq<Op>, id: string) {
    forall n, op :: op in env(n) ==> !Draws(op, id)
  }

  lemma {:induction false} StaysFresh(t: Tables, ops: seq<Op>, id: string)
    requires FreshProposalId(t, id) && forall op :: op in ops ==> !Draws(op, id)
    ensures FreshProposalId(Run(t, ops), id)
    decreases ops
  {
    if ops != [] {
      var u := Step(t, ops[0]);
      forall k | k in u.proposals ensures u.proposals[k].id != id {
        if k !in t.proposals {
          assert ops[0] in ops;
        }
      }
      StaysFresh(u, ops[1..], id);
    }
  }

  /** A reused key adds no row; a different payload adds one SUBMIT_CONFLICT receipt. */
  function AfterReuse(t: Tables, job: string, caller: string, key: string, hash: string, now: int): Tables
    requires key in t.proposals
  {
    if t.proposals[key].payloadHash == hash then t
    else t.(events := t.events + [Event(job, SubmitConflict, caller, Some(t.proposals[key].id), None, now)])
  }

  /** Re-read the key after a batch that did not commit; a stored row decides, and a mismatch is receipted. */
  method ResolveRace(db: Database, job: string, key: string, hash: string, caller: string, now: int,
                     before: seq<Op>, conflictBefore: seq<Op>, ghost id: string)
    returns (outcome: Option<SubmitOutcome>)
    requires db.Valid() && FreshProposalId(db.Contents(), id)
    requires forall op :: op in before + conflictBefore ==> !Draws(op, id)
    modifies db
    ensures db.Valid() && old(db.log) <= db.log && Extends(old(db.Contents()), db.Contents())
    ensures FreshProposalId(db.Contents(), id)
    ensures match outcome
      case None => key !in db.proposals && db.Contents() == Run(old(db.Contents()), before)
      case Some(verdict) =>
        && key in Run(old(db.Contents()), before).proposals
        && key in db.proposals && verdict == Verdict(db.proposals[key], hash)
        && AnswersReuse(db.proposals[key], hash, verdict)
        && (verdict.Refused? && verdict.reason == Conflict ==>
              && db.proposals[key].payloadHash != hash
              && db.events != []
              && db.events[|db.events| - 1] == Event(job, SubmitConflict, caller, Some(db.proposals[key].id), None,
                                                     now))
    ensures key in old(db.proposals) ==>
      if old(db.proposals)[key].payloadHash == hash then db.log == old(db.log) + before
      else db.log == old(db.log) + before + conflictBefore + [ConflictOp(job, caller, old(db.proposals)[key].id, now)]
    ensures before == [] && conflictBefore == [] && key in old(db.proposals) ==>
      db.Contents() == AfterReuse(old(db.Contents()), job, caller, key, hash, now)
  {
    StaysFresh(db.Contents(), before, id);
    db.Others(before);
    if key !in db.proposals {
      return None;
    }
    var row := db.proposals[key];
    EmptyInv();
    RunInv(Empty, db.log);
    if row.payloadHash != hash {
      StaysFresh(db.Contents(), conflictBefore, id);
      db.Others(conflictBefore);
      var _, _ := db.Transact(ConflictOp(job, caller, row.id, now));
    }
    outcome := Some(Verdict(row, hash));
  }

  /** An id that no proposal has is not the terminal result of any job. */
  lemma NotMine(log: seq<Op>, job: string, id: string)
    requires FreshProposalId(Run(Empty, log), id)
    ensures var t := Run(Empty, log); job in t.terminals ==> t.terminals[job].proposalId != id
  {
    EmptyInv();
    RunInv(Empty, log);
    assert JobInv(Run(Empty, log), job);
  }

  /** Nor is the id of a rejected proposal. */
  lemma RejectedIsNotTerminal(log: seq<Op>, job: string, key: string)
    requires var t := Run(Empty, log); key in t.proposals && t.proposals[key].status == Rejected
    ensures var t := Run(Empty, log); job in t.terminals ==> t.terminals[job].proposalId != t.proposals[key].id
  {
    EmptyInv();
    RunInv(Empty, log);
    assert JobInv(Run(Empty, log), job);
  }

  /** What an answer to a submit says about the tables at the moment it is given. */
  ghost predicate SubmitAnswer(t: Tables, outcome: SubmitOutcome, job: string, key: string, hash: string) {
    match outcome
    case Accepted(p) =>
      && job in t.terminals && t.terminals[job].proposalId == p
      && key in t.proposals && t.proposals[key].id == p && t.proposals[key].status == Received
      && t.proposals[key].payloadHash == hash
    case Replayed(p, createdAt) =>
      && key in t.proposals && t.proposals[key].status == Received && t.proposals[key].payloadHash == hash
      && t.proposals[key].id == p && t.proposals[key].createdAt == createdAt
    case Refused(Conflict, _) => key in t.proposals && t.proposals[key].payloadHash != hash
    case Refused(SecondResult, _) =>
      job in t.terminals
      || (key in t.proposals && t.proposals[key].payloadHash == hash && t.proposals[key].reason == Some(SecondResult))
    case Refused(_, _) => true
  }

  /** The refused row of this call, with its receipt. */
  ghost predicate OwnRow(t: Tables, job: string, key: string, id: string, hash: string, reason: Reason) {
    && key in t.proposals && t.proposals[key].id == id && t.proposals[key].jobId == job
    && t.proposals[key].status == Rejected && t.proposals[key].reason == Some(reason)
    && t.proposals[key].payloadHash == hash
    && exists i :: Refusal(t.events, i, job, id)
  }

  predicate Refusal(events: seq<Event>, i: int, job: string, id: string) {
    0 <= i < |events| && events[i].kind == SubmitRejected && events[i].jobId == job && events[i].proposalId == Some(id)
  }

  /**
   What a submit leaves behind when it returns: its accepted result; or its refused row, with the reason it
   answers; or nothing of its own, and then the stored row of the key, the terminal or its absence explain the
   answer.  `bare`: the call was refused before it looked at any table that could hold a row for it.
   */
  ghost predicate SubmitLeft(t: Tables, outcome: SubmitOutcome, job: string, key: string, id: string, hash: string,
                             bare: bool) {
    || outcome == Accepted(id)
    || (outcome.Refused? && OwnRow(t, job, key, id, hash, outcome.reason))
    || (&& FreshProposalId(t, id)
        && (|| (key in t.proposals && outcome == Verdict(t.proposals[key], hash))
            || (outcome == Refused(SecondResult, None) && job in t.terminals)
            || (outcome == Refused(LeaseInvalid, None) && job !in t.terminals)
            || (outcome == Refused(ValidationFailed, None) && bare)))
  }

  lemma VerdictAnswers(log: seq<Op>, job: string, key: string, hash: string)
    requires key in Run(Empty, log).proposals
    ensures var t := Run(Empty, log); SubmitAnswer(t, Verdict(t.proposals[key], hash), job, key, hash)
  {
    EmptyInv();
    RunInv(Empty, log);
  }

  /** An audited refusal of a well-formed submit; if the key was taken meanwhile, the stored row answers. */
  method RefuseWithRow(db: Database, job: string, caller: string, key: string, id: string, origin: Origin,
                       reason: Reason, sub: Option<SubReason>, hash: string, now: int, env: nat -> seq<Op>, n: nat)
    returns (outcome: SubmitOutcome)
    requires db.Valid() && FreshProposalId(db.Contents(), id) && NeverDrawn(env, id) && reason != Conflict
    requires reason == SecondResult ==> job in db.terminals
    modifies db
    ensures db.Valid() && old(db.log) <= db.log
    ensures SubmitAnswer(db.Contents(), outcome, job, key, hash) && !outcome.Accepted?
    ensures job in db.terminals ==> db.terminals[job].proposalId != id
    ensures || (outcome == Refused(reason, sub) && OwnRow(db.Contents(), job, key, id, hash, reason))
            || (FreshProposalId(db.Contents(), id) && key in db.proposals
                && outcome == Verdict(db.proposals[key], hash))
    ensures Alone(env) && key !in old(db.proposals) ==>
      && outcome == Refused(reason, sub)
      && db.Contents() == Reject(old(db.Contents()), job, caller, key, id, origin, reason, hash, now)
  {
    StaysFresh(db.Contents(), env(n), id);
    db.Others(env(n));
    var _, aborted := db.Transact(RejectOp(job, caller, key, id, origin, reason, hash, now));
    if aborted {
      var raced := ResolveRace(db, job, key, hash, caller, now, env(n + 1), env(n + 2), id);
      NotMine(db.log, job, id);
      if raced.Some? {
        VerdictAnswers(db.log, job, key, hash);
        return raced.value;
      }
    } else {
      RejectedIsNotTerminal(db.log, job, key);
      assert Refusal(db.events, |db.events| - 1, job, id);
    }
    outcome := Refused(reason, sub);
  }

  /** The answer of a formal submit whose batch stored nothing. */
  method ClassifySubmit(db: Database, job: string, caller: string, key: string, id: string, hash: string, now: int,
                        env: nat -> seq<Op>, n: nat) returns (outcome: SubmitOutcome)
    requires db.Valid() && FreshProposalId(db.Contents(), id) && NeverDrawn(env, id)
    modifies db
    ensures db.Valid() && old(db.log) <= db.log
    ensures SubmitAnswer(db.Contents(), outcome, job, key, hash) && !outcome.Accepted?
    ensures SubmitLeft(db.Contents(), outcome, job, key, id, hash, false)
    ensures job in db.terminals ==> db.terminals[job].proposalId != id
  {
    var raced := ResolveRace(db, job, key, hash, caller, now, env(n), env(n + 1), id);
    NotMine(db.log, job, id);
    if raced.Some? {
      VerdictAnswers(db.log, job, key, hash);
      return raced.value;
    }
    StaysFresh(db.Contents(), env(n + 2), id);
    db.Others(env(n + 2));
    NotMine(db.log, job, id);
    outcome := if job in db.terminals then Refused(SecondResult, None) else Refused(LeaseInvalid, None);
  }

  /** The accept batch: all of its rows are there afterwards, or the id is still unused. */
  method CommitFormal(db: Database, job: string, caller: string, generation: int, key: string, id: string, hash: string,
                      now: int) returns (aborted: bool, ghost committed: bool)
    requires db.Valid() && FreshProposalId(db.Contents(), id)
    modifies db
    ensures db.Valid() && old(db.log) <= db.log
    ensures committed <==> AcceptCommits(old(db.Contents()), job, caller, generation, key, now)
    ensures if committed then
        && !aborted && key in db.proposals
        && db.proposals[key] == Proposal(id, job, caller, ChatGpt, Received, None, hash, now)
        && job in db.terminals && db.terminals[job].proposalId == id && job !in db.leases
      else FreshProposalId(db.Contents(), id)
    ensures db.Contents() == Accept(old(db.Contents()), job, caller, generation, key, id, hash, now)
  {
    committed := AcceptCommits(db.Contents(), job, caller, generation, key, now);
    var _, a := db.Transact(AcceptOp(job, caller, generation, key, id, hash, now));
    aborted := a;
  }

  /** The accept batch and the reads that tell whether it was this call's result that was stored. */
  method AcceptFormal(db: Database, job: string, caller: string, generation: int, key: string, id: string, hash: string,
                      now: int, env: nat -> seq<Op>, n: nat) returns (outcome: SubmitOutcome)
    requires db.Valid() && FreshProposalId(db.Contents(), id) && NeverDrawn(env, id)
    modifies db
    ensures db.Valid() && old(db.log) <= db.log
    ensures SubmitAnswer(db.Contents(), outcome, job, key, hash)
    ensures outcome == Accepted(id) <==> job in db.terminals && db.terminals[job].proposalId == id
    ensures SubmitLeft(db.Contents(), outcome, job, key, id, hash, false)
    ensures Alone(env) && AcceptCommits(old(db.Contents()), job, caller, generation, key, now) ==>
      && outcome == Accepted(id)
      && db.Contents() == Accept(old(db.Contents()), job, caller, generation, key, id, hash, now)
  {
    StaysFresh(db.Contents(), env(n), id);
    db.Others(env(n));
    var aborted, committed := CommitFormal(db, job, caller, generation, key, id, hash, now);
    if !aborted {
      if !committed {
        StaysFresh(db.Contents(), env(n + 1), id);
      }
      db.Others(env(n + 1));
      if key in db.proposals && db.proposals[key].id == id && db.proposals[key].status == Received {
        db.Others(env(n + 2));
        if job in db.terminals && db.terminals[job].proposalId == id {
          return Accepted(id);
        }
      }
    }
    outcome := ClassifySubmit(db, job, caller, key, id, hash, now, env, n + 3);
  }

  /** The answer and the new tables of a well-formed submit that meets no interference. */
  function LoneSubmit(t: Tables, job: string, generation: int, key: string, declared: DeclaredOrigin,
                      prepared: Prepared, caller: string, id: string, now: int): (SubmitOutcome, Tables) {
    if key in t.proposals then
      (Verdict(t.proposals[key], prepared.hash), AfterReuse(t, job, caller, key, prepared.hash, now))
    else if declared == Unrecognized then (Refused(ValidationFailed, None), t)
    else
      var origin := if declared == Undeclared then ChatGpt else declared.origin;
      var problem := LeaseProblem(t, job, caller, generation, now);
      if origin != ChatGpt || !prepared.acceptable then
        (Refused(ValidationFailed, None), Reject(t, job, caller, key, id, origin, ValidationFailed, prepared.hash, now))
      else if problem.Some? then
        (Refused(LeaseInvalid, problem), Reject(t, job, caller, key, id, ChatGpt, LeaseInvalid, prepared.hash, now))
      else
        (Accepted(id), Accept(t, job, caller, generation, key, id, prepared.hash, now))
  }

  /** What a refusal with a row leaves. */
  ghost predicate RefusedRow(t: Tables, u: Tables, job: string, key: string, id: string, caller: string, origin: Origin,
                             reason: Reason, hash: string, now: int) {
    && u == t.(proposals := t.proposals[key := Proposal(id, job, caller, origin, Rejected, Some(reason), hash, now)],
               events := t.events + [Event(job, SubmitRejected, caller, Some(id), Some(origin), now)])
  }

  /** What that is for a new key: each answer with its cause, and what it leaves in the tables. */
  lemma LoneSubmitMeaning(log: seq<Op>, job: string, generation: int, key: string, declared: DeclaredOrigin,
                          prepared: Prepared, caller: string, id: string, now: int)
    requires key !in Run(Empty, log).proposals
    ensures var t := Run(Empty, log);
      var (answer, u) := LoneSubmit(t, job, generation, key, declared, prepared, caller, id, now);
      if declared == Unrecognized then answer == Refused(ValidationFailed, None) && u == t
      else if declared.Declared? && declared.origin != ChatGpt then
        && answer == Refused(ValidationFailed, None)
        && RefusedRow(t, u, job, key, id, caller, declared.origin, ValidationFailed, prepared.hash, now)
      else if !prepared.acceptable then
        && answer == Refused(ValidationFailed, None)
        && RefusedRow(t, u, job, key, id, caller, ChatGpt, ValidationFailed, prepared.hash, now)
      else if job in t.leases && t.leases[job].expiresAt > now && t.leases[job].owner == caller
              && t.leases[job].count == generation then
        && answer == Accepted(id)
        && u.leases == t.leases - {job} && u.terminals == t.terminals[job := Terminal(id, now)]
        && u.proposals == t.proposals[key := Proposal(id, job, caller, ChatGpt, Received, None, prepared.hash, now)]
        && u.events == t.events + [Event(job, SubmitReceived, caller, Some(id), Some(ChatGpt), now),
                                   Event(job, Completed, caller, Some(id), Some(ChatGpt), now)]
        && u.deferrals == t.deferrals
      else
        && answer.Refused? && answer.reason == LeaseInvalid
        && answer.sub == Some(if job !in t.leases then NoLease
                              else if t.leases[job].expiresAt <= now then Expired
                              else if t.leases[job].owner != caller then OwnerMismatch
                              else GenerationStale)
        && RefusedRow(t, u, job, key, id, caller, ChatGpt, LeaseInvalid, prepared.hash, now)
  {
    EmptyInv();
    RunInv(Empty, log);
    assert JobInv(Run(Empty, log), job);
  }

  /** A submit whose key was not stored when the call looked. */
  method SubmitNewKey(db: Database, job: string, generation: int, key: string, declared: DeclaredOrigin,
                      prepared: Prepared, caller: string, id: string, now: int, env: nat -> seq<Op>)
    returns (outcome: SubmitOutcome)
    requires db.Valid() && FreshProposalId(db.Contents(), id) && NeverDrawn(env, id)
    modifies db
    ensures db.Valid() && old(db.log) <= db.log
    ensures SubmitAnswer(db.Contents(), outcome, job, key, prepared.hash)
    ensures outcome == Accepted(id) <==> job in db.terminals && db.terminals[job].proposalId == id
    ensures SubmitLeft(db.Contents(), outcome, job, key, id, prepared.hash, declared == Unrecognized)
    ensures Alone(env) && key !in old(db.proposals) ==>
      (outcome, db.Contents())
      == LoneSubmit(old(db.Contents()), job, generation, key, declared, prepared, caller, id, now)
  {
    NotMine(db.log, job, id);
    if declared == Unrecognized {
      return Refused(ValidationFailed, None);
    }
    var origin := if declared == Undeclared then ChatGpt else declared.origin;
    if origin != ChatGpt || !prepared.acceptable {
      outcome := RefuseWithRow(db, job, caller, key, id, origin, ValidationFailed, None, prepared.hash, now, env, 2);
      return;
    }
    StaysFresh(db.Contents(), env(5), id);
    db.Others(env(5));
    var problem := LeaseProblem(db.Contents(), job, caller, generation, now);
    if problem.Some? {
      outcome := RefuseWithRow(db, job, caller, key, id, ChatGpt, LeaseInvalid, problem, prepared.hash, now, env, 6);
      return;
    }
    StaysFresh(db.Contents(), env(9), id);
    db.Others(env(9));
    if FormalExists(db.Contents(), job) {
      FormalIsTerminal(db.log, job);
      outcome := RefuseWithRow(db, job, caller, key, id, ChatGpt, SecondResult, None, prepared.hash, now, env, 10);
      return;
    }
    TerminalHasNoLease(db.log, job);
    outcome := AcceptFormal(db, job, caller, generation, key, id, prepared.hash, now, env, 13);
  }

  /** A submit by a formal owner; `id` is the random proposal id the call draws. */
  method SubmitProposal(db: Database, job: string, generation: int, key: string, wellFormed: bool,
                        declared: DeclaredOrigin, prepared: Prepared, caller: string, id: string, now: int,
                        env: nat -> seq<Op>) returns (outcome: SubmitOutcome)
    requires db.Valid() && FreshProposalId(db.Contents(), id) && NeverDrawn(env, id)
    modifies db
    ensures db.Valid() && old(db.log) <= db.log
    // ACCEPTED exactly when this call's own result is the job's terminal result.
    ensures outcome == Accepted(id) <==> job in db.terminals && db.terminals[job].proposalId == id
    ensures SubmitAnswer(db.Contents(), outcome, job, key, prepared.hash)
    ensures SubmitLeft(db.Contents(), outcome, job, key, id, prepared.hash,
                       !wellFormed || generation < 1 || declared == Unrecognized)
    // A malformed call leaves nothing behind.
    ensures !wellFormed || generation < 1 ==> outcome == Refused(ValidationFailed, None) && db.log == old(db.log)
    // A key that is already stored decides the outcome, and the call adds no row.
    ensures wellFormed && generation >= 1 && key in old(db.proposals) ==>
      && AnswersReuse(old(db.proposals)[key], prepared.hash, outcome)
      && db.log == old(db.log) + env(0)
                   + if old(db.proposals)[key].payloadHash == prepared.hash then []
                     else env(1) + [ConflictOp(job, caller, old(db.proposals)[key].id, now)]
    ensures Alone(env) && wellFormed && generation >= 1 ==>
      (outcome, db.Contents())
      == LoneSubmit(old(db.Contents()), job, generation, key, declared, prepared, caller, id, now)
  {
    NotMine(db.log, job, id);
    if !wellFormed || generation < 1 {
      return Refused(ValidationFailed, None);
    }
    var known := ResolveRace(db, job, key, prepared.hash, caller, now, env(0), env(1), id);
    NotMine(db.log, job, id);
    if known.Some? {
      VerdictAnswers(db.log, job, key, prepared.hash);
      return known.value;
    }
    outcome := SubmitNewKey(db, job, generation, key, declared, prepared, caller, id, now, env);
  }

  lemma FormalIsTerminal(log: seq<Op>, job: string)
    requires FormalExists(Run(Empty, log), job)
    ensures job in Run(Empty, log).terminals && job !in Run(Empty, log).leases
  {
    EmptyInv();
    RunInv(Empty, log);
    assert JobInv(Run(Empty, log), job);
  }

  // ----- defer

  datatype JobStatus = StatusDeferred | StatusClaimed | StatusCompleted | StatusQueued

  datatype DeferOutcome =
    | Deferred(recheckAt: int)
    | DeferReplayed(recheckAt: int, status: JobStatus)
    | DeferRefused(reason: Reason, sub: Option<SubReason>)
    | DeferUnavailable

  function CurrentStatus(t: Tables, job: string, now: int): JobStatus {
    if job in t.terminals then StatusCompleted
    else if job in t.leases && t.leases[job].expiresAt > now then StatusClaimed
    else if DeferredAt(t, job, now) then StatusDeferred
    else StatusQueued
  }

  ghost predicate KeyOf(t: Tables, j: string, key: string) {
    j in t.deferrals && t.deferrals[j].key == key
  }

  /** What an answer to a defer says about the tables at the moment it is given. */
  ghost predicate DeferAnswer(t: Tables, outcome: DeferOutcome, job: string, key: string, hash: string, now: int) {
    match outcome
    case Deferred(recheckAt) => job in t.deferrals && t.deferrals[job] == Deferral(key, recheckAt, hash)
    case DeferReplayed(recheckAt, status) =>
      && (exists j :: KeyOf(t, j, key) && t.deferrals[j].payloadHash == hash && t.deferrals[j].recheckAt == recheckAt)
      && (status == StatusCompleted ==> job in t.terminals)
      && (status == StatusClaimed ==> job in t.leases && t.leases[job].expiresAt > now)
      && (status == StatusDeferred ==> DeferredAt(t, job, now))
    case DeferRefused(Conflict, _) =>
      job in t.deferrals || exists j :: KeyOf(t, j, key) && t.deferrals[j].payloadHash != hash
    case DeferRefused(SecondResult, _) => job in t.terminals
    case _ => true
  }

  /** What explains a defer that stored nothing and found neither a stored key nor a terminal job. */
  ghost predicate DeferExplained(t: Tables, outcome: DeferOutcome, job: string, generation: int, key: string,
                                 caller: string, now: int) {
    match outcome
    case DeferRefused(LeaseInvalid, sub) =>
      var problem := LeaseProblem(t, job, caller, generation, now);
      sub == if problem.None? then Some(NoLease) else problem
    case DeferUnavailable => job in t.deferrals && !DeferralKeyUsed(t, key)
    case _ => true
  }

  /** The answer and the new tables `u` of a well-formed defer that meets no interference. */
  ghost predicate LoneDefer(t: Tables, u: Tables, outcome: DeferOutcome, job: string, generation: int, key: string,
                            recheckAt: int, hash: string, caller: string, now: int) {
    if DeferralKeyUsed(t, key) then
      && u == t
      && exists j :: KeyOf(t, j, key)
           && outcome == if t.deferrals[j].payloadHash != hash then DeferRefused(Conflict, None)
                         else DeferReplayed(t.deferrals[j].recheckAt, CurrentStatus(t, job, now))
    else if recheckAt <= now then u == t && outcome == DeferRefused(ValidationFailed, None)
    else if job in t.deferrals then u == t && outcome == DeferRefused(Conflict, None)
    else if job in t.terminals then u == t && outcome == DeferRefused(SecondResult, None)
    else
      && u == Defer(t, job, caller, generation, key, recheckAt, hash, now)
      && outcome == match LeaseProblem(t, job, caller, generation, now)
                    case None => Deferred(recheckAt)
                    case Some(problem) => DeferRefused(LeaseInvalid, Some(problem))
  }

  /** What the status a replayed defer shows means. */
  lemma CurrentStatusMeaning(t: Tables, job: string, now: int)
    ensures var status := CurrentStatus(t, job, now);
      && (status == StatusCompleted <==> job in t.terminals)
      && (status == StatusClaimed <==> job !in t.terminals && job in t.leases && t.leases[job].expiresAt > now)
      && (status == StatusDeferred
          <==> job !in t.terminals && !(job in t.leases && t.leases[job].expiresAt > now)
               && job in t.deferrals && t.deferrals[job].recheckAt > now)
  {
  }

  /** What a lone defer with a new key does. */
  lemma LoneDeferMeaning(t: Tables, u: Tables, outcome: DeferOutcome, job: string, generation: int, key: string,
                         recheckAt: int, hash: string, caller: string, now: int)
    requires LoneDefer(t, u, outcome, job, generation, key, recheckAt, hash, caller, now)
    requires !DeferralKeyUsed(t, key)
    ensures if recheckAt <= now then outcome == DeferRefused(ValidationFailed, None) && u == t
      else if job in t.deferrals then outcome == DeferRefused(Conflict, None) && u == t
      else if job in t.terminals then outcome == DeferRefused(SecondResult, None) && u == t
      else if job in t.leases && t.leases[job].expiresAt > now && t.leases[job].owner == caller
              && t.leases[job].count == generation then
        && outcome == Deferred(recheckAt)
        && u == t.(leases := t.leases - {job}, deferrals := t.deferrals[job := Deferral(key, recheckAt, hash)])
      else
        && u == t
        && outcome == DeferRefused(LeaseInvalid, Some(if job !in t.leases then NoLease
                                                      else if t.leases[job].expiresAt <= now then Expired
                                                      else if t.leases[job].owner != caller then OwnerMismatch
                                                      else GenerationStale))
  {
  }

  /** A lone defer whose key is stored, for job `j`: the same payload replays its recheck time, another conflicts. */
  lemma LoneReplayMeaning(t: Tables, u: Tables, outcome: DeferOutcome, job: string, generation: int, key: string,
                          recheckAt: int, hash: string, caller: string, now: int, j: string)
    requires LoneDefer(t, u, outcome, job, generation, key, recheckAt, hash, caller, now)
    requires j in t.deferrals && t.deferrals[j].key == key
    requires forall i :: i in t.deferrals && t.deferrals[i].key == key ==> i == j
    ensures u == t
    ensures t.deferrals[j].payloadHash != hash ==> outcome == DeferRefused(Conflict, None)
    ensures t.deferrals[j].payloadHash == hash ==>
      outcome.DeferReplayed? && outcome.recheckAt == t.deferrals[j].recheckAt
      && outcome.status == CurrentStatus(t, job, now)
  {
    assert KeyOf(t, j, key);
  }

  /** `deferredCurrentStatus`: up to three reads. */
  method ReadStatus(db: Database, job: string, now: int, env: nat -> seq<Op>, n: nat) returns (status: JobStatus)
    requires db.Valid()
    modifies db
    ensures db.Valid() && old(db.log) <= db.log && Extends(old(db.Contents()), db.Contents())
    ensures status == StatusCompleted ==> job in db.terminals
    ensures status == StatusClaimed ==> job in db.leases && db.leases[job].expiresAt > now
    ensures status == StatusDeferred ==> DeferredAt(db.Contents(), job, now)
    ensures Alone(env) ==> db.Contents() == old(db.Contents()) && status == CurrentStatus(db.Contents(), job, now)
  {
    db.Others(env(n));
    if job in db.terminals {
      return StatusCompleted;
    }
    db.Others(env(n + 1));
    if job in db.leases && db.leases[job].expiresAt > now {
      return StatusClaimed;
    }
    db.Others(env(n + 2));
    status := if DeferredAt(db.Contents(), job, now) then StatusDeferred else StatusQueued;
  }

  /** Look the key up; a stored deferral of that key decides the answer. */
  method ReplayDefer(db: Database, job: string, key: string, hash: string, now: int, env: nat -> seq<Op>, n: nat)
    returns (outcome: Option<DeferOutcome>)
    requires db.Valid()
    modifies db
    ensures db.Valid() && old(db.log) <= db.log && Extends(old(db.Contents()), db.Contents())
    ensures outcome.Some? ==> DeferAnswer(db.Contents(), outcome.value, job, key, hash, now)
    ensures outcome.Some? && outcome.value.DeferRefused? ==> outcome.value.reason == Conflict
    ensures outcome.Some? ==> !outcome.value.Deferred? && outcome.value != DeferUnavailable
    ensures DeferralKeyUsed(old(db.Contents()), key) ==> outcome.Some?
    ensures outcome == None ==> !DeferralKeyUsed(db.Contents(), key)
    ensures Alone(env) ==>
      if DeferralKeyUsed(old(db.Contents()), key) then
        && outcome.Some? && db.Contents() == old(db.Contents())
        && LoneDefer(old(db.Contents()), db.Contents(), outcome.value, job, 0, key, 0, hash, "", now)
      else outcome == None && db.Contents() == old(db.Contents())
  {
    ghost var t := db.Contents();
    db.Others(env(n));
    if DeferralKeyUsed(t, key) {
      var j :| j in t.deferrals && t.deferrals[j].key == key;
      assert j in db.deferrals && db.deferrals[j].key == key;
    }
    if !DeferralKeyUsed(db.Contents(), key) {
      return None;
    }
    var j :| j in db.deferrals && db.deferrals[j].key == key;
    var row := db.deferrals[j];
    assert KeyOf(db.Contents(), j, key);
    if row.payloadHash != hash {
      return Some(DeferRefused(Conflict, None));
    }
    var status := ReadStatus(db, job, now, env, n + 1);
    assert KeyOf(db.Contents(), j, key);
    outcome := Some(DeferReplayed(row.recheckAt, status));
  }

  /** The reads that explain a defer whose batch inserted nothing. */
  method ClassifyDefer(db: Database, job: string, generation: int, key: string, hash: string, caller: string, now: int,
                       env: nat -> seq<Op>, n: nat) returns (outcome: DeferOutcome)
    requires db.Valid()
    modifies db
    ensures db.Valid() && old(db.log) <= db.log
    ensures DeferAnswer(db.Contents(), outcome, job, key, hash, now) && !outcome.Deferred?
    ensures DeferExplained(db.Contents(), outcome, job, generation, key, caller, now)
    ensures outcome.DeferRefused? ==> outcome.reason != ValidationFailed
    ensures Alone(env) && !DeferralKeyUsed(old(db.Contents()), key) ==>
      var t := old(db.Contents());
      && db.Contents() == t
      && outcome == if job in t.deferrals then DeferRefused(Conflict, None)
                    else if job in t.terminals then DeferRefused(SecondResult, None)
                    else DeferRefused(LeaseInvalid, match LeaseProblem(t, job, caller, generation, now)
                                                    case None => Some(NoLease) case Some(p) => Some(p))
  {
    var replay := ReplayDefer(db, job, key, hash, now, env, n);
    if replay.Some? {
      return replay.value;
    }
    db.Others(env(n + 4));
    if job in db.deferrals {
      return DeferRefused(Conflict, None);
    }
    db.Others(env(n + 5));
    if job in db.terminals {
      return DeferRefused(SecondResult, None);
    }
    db.Others(env(n + 6));
    var problem := LeaseProblem(db.Contents(), job, caller, generation, now);
    outcome := DeferRefused(LeaseInvalid, if problem.None? then Some(NoLease) else problem);
  }

  /** The batch, and the reads that explain why it stored nothing. */
  method StoreDeferral(db: Database, job: string, generation: int, key: string, recheckAt: int, hash: string,
                       caller: string, now: int, env: nat -> seq<Op>) returns (outcome: DeferOutcome)
    requires db.Valid() && recheckAt > now
    modifies db
    ensures db.Valid() && old(db.log) <= db.log
    ensures DeferAnswer(db.Contents(), outcome, job, key, hash, now)
    ensures DeferExplained(db.Contents(), outcome, job, generation, key, caller, now)
    ensures outcome.DeferRefused? ==> outcome.reason != ValidationFailed
    ensures Alone(env) && job !in old(db.deferrals) && !DeferralKeyUsed(old(db.Contents()), key) ==>
      LoneDefer(old(db.Contents()), db.Contents(), outcome, job, generation, key, recheckAt, hash, caller, now)
  {
    ghost var t := db.Contents();
    TerminalHasNoLease(db.log, job);
    var inserted, aborted := db.Transact(DeferOp(job, caller, generation, key, recheckAt, hash, now));
    if aborted {
      var concurrent := ReplayDefer(db, job, key, hash, now, env, 6);
      if concurrent.Some? {
        return concurrent.value;
      }
      return DeferUnavailable;
    }
    if inserted {
      return Deferred(recheckAt);
    }
    assert db.Contents() == t;
    outcome := ClassifyDefer(db, job, generation, key, hash, caller, now, env, 10);
  }

  /** A defer by a formal owner; `hash` covers job, caller, generation, reason and recheck time. */
  method DeferJob(db: Database, job: string, generation: int, key: string, wellFormed: bool, recheckAt: int,
                  hash: string, caller: string, now: int, env: nat -> seq<Op>) returns (outcome: DeferOutcome)
    requires db.Valid()
    modifies db
    ensures db.Valid() && old(db.log) <= db.log
    ensures DeferAnswer(db.Contents(), outcome, job, key, hash, now)
    ensures DeferExplained(db.Contents(), outcome, job, generation, key, caller, now)
    ensures outcome.DeferRefused? && outcome.reason == ValidationFailed ==>
      !wellFormed || generation < 1 || recheckAt <= now
    ensures !wellFormed || generation < 1 ==> outcome == DeferRefused(ValidationFailed, None) && db.log == old(db.log)
    ensures Alone(env) && wellFormed && generation >= 1 ==>
      LoneDefer(old(db.Contents()), db.Contents(), outcome, job, generation, key, recheckAt, hash, caller, now)
  {
    if !wellFormed || generation < 1 {
      return DeferRefused(ValidationFailed, None);
    }
    var sameKey := ReplayDefer(db, job, key, hash, now, env, 0);
    if sameKey.Some? {
      return sameKey.value;
    }
    if recheckAt <= now {
      return DeferRefused(ValidationFailed, None);
    }
    db.Others(env(4));
    if job in db.deferrals {
      return DeferRefused(Conflict, None);
    }
    db.Others(env(5));
    outcome := StoreDeferral(db, job, generation, key, recheckAt, hash, caller, now, env);
  }
}
