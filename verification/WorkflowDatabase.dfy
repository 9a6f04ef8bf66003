/**
 The D1 database of the work queue.  Each batch method runs the statements of one `db.batch` in
 order on the tables, with the guards each statement carries, and rolls back when a UNIQUE index
 rejects a row; its contract says that the batch is the one transaction `WorkflowTables` names.
 */
module WorkflowDatabase {
  import opened Options
  import opened WorkflowTables
  import opened WorkflowInvariants

  class Database {
    var leases: map<string, Lease>
    var terminals: map<string, Terminal>
    var deferrals: map<string, Deferral>
    var proposals: map<string, Proposal>
    var events: seq<Event>
    /** Every transaction since the tables were created, whoever issued it. */
    ghost var log: seq<Op>

    function Contents(): Tables
      reads this
    {
      Tables(leases, terminals, deferrals, proposals, events)
    }

    ghost predicate Valid()
      reads this
    {
      Contents() == Run(Empty, log)
    }

    constructor ()
      ensures Valid() && log == [] && Contents() == Empty
    {
      leases, terminals, deferrals, proposals, events, log := map[], map[], map[], map[], [], [];
    }

    /** LEASE_EXPIRED receipt, upsert of the lease, CLAIMED receipt. */
    method ClaimBatch(job: string, owner: string, token: string, now: int)
      requires FreshToken(Contents(), token)
      modifies this
      ensures Contents() == Claim(old(Contents()), job, owner, token, now)
      ensures log == old(log)
    {
      if job in leases && leases[job].expiresAt <= now
         && job !in terminals && !(job in deferrals && deferrals[job].recheckAt > now) {
        events := events + [Event(job, LeaseExpired, leases[job].owner, None, None, now)];
      }
      // INSERT .. SELECT .. WHERE .. ON CONFLICT(job_id) DO UPDATE .. WHERE ..
      if job !in terminals && !(job in deferrals && deferrals[job].recheckAt > now) {
        if job !in leases {
          leases := leases[job := Lease(owner, token, now, now + LEASE_TTL_MS, 1)];
        } else if leases[job].expiresAt <= now
                  && job !in terminals && !(job in deferrals && deferrals[job].recheckAt > now) {
          leases := leases[job := Lease(owner, token, now, now + LEASE_TTL_MS, leases[job].count + 1)];
        }
      }
      if job in leases && leases[job].owner == owner && leases[job].token == token {
        events := events + [Event(job, Claimed, owner, None, None, now)];
      }
    }

    /** Proposal, terminal row, lease release, SUBMIT_RECEIVED and COMPLETED receipts. */
    method AcceptBatch(job: string, caller: string, generation: int, key: string, id: string, hash: string, now: int)
      returns (aborted: bool)
      requires Inv(Contents()) && FreshProposalId(Contents(), id)
      modifies this
      ensures Contents() == Accept(old(Contents()), job, caller, generation, key, id, hash, now)
      ensures aborted <==> AcceptAborts(old(Contents()), job, caller, generation, key, now)
      ensures log == old(log)
    {
      assert JobInv(Contents(), job);
      if Holds(Contents(), job, caller, generation, now) && job !in terminals {
        if key in proposals || FormalExists(Contents(), job) {
          return true;
        }
        proposals := proposals[key := Proposal(id, job, caller, ChatGpt, Received, None, hash, now)];
      }
      if Holds(Contents(), job, caller, generation, now) && job !in terminals {
        terminals := terminals[job := Terminal(id, now)];
      }
      // The release repeats the fence but not the terminal test.
      if Holds(Contents(), job, caller, generation, now) {
        leases := leases - {job};
      }
      if job in terminals && terminals[job].proposalId == id {
        events := events + [Event(job, SubmitReceived, caller, Some(id), Some(ChatGpt), now)];
      }
      if job in terminals && terminals[job].proposalId == id {
        events := events + [Event(job, Completed, caller, Some(id), Some(ChatGpt), now)];
      }
      aborted := false;
    }

    /** An audited refusal: the REJECTED proposal and its SUBMIT_REJECTED receipt. */
    method RejectBatch(job: string, caller: string, key: string, id: string, origin: Origin, reason: Reason,
                       hash: string, now: int) returns (aborted: bool)
      requires FreshProposalId(Contents(), id)
      modifies this
      ensures Contents() == Reject(old(Contents()), job, caller, key, id, origin, reason, hash, now)
      ensures aborted <==> key in old(proposals)
      ensures log == old(log)
    {
      if key in proposals {
        return true;
      }
      proposals := proposals[key := Proposal(id, job, caller, origin, Rejected, Some(reason), hash, now)];
      events := events + [Event(job, SubmitRejected, caller, Some(id), Some(origin), now)];
      aborted := false;
    }

    /** The recheck gate and the fenced release. */
    method DeferBatch(job: string, caller: string, generation: int, key: string, recheckAt: int, hash: string, now: int)
      returns (inserted: bool, aborted: bool)
      requires Inv(Contents())
      modifies this
      ensures Contents() == Defer(old(Contents()), job, caller, generation, key, recheckAt, hash, now)
      ensures inserted <==> DeferCommits(old(Contents()), job, caller, generation, key, now)
      ensures aborted <==> DeferAborts(old(Contents()), job, caller, generation, key, now)
      ensures log == old(log)
    {
      assert JobInv(Contents(), job);
      inserted, aborted := false, false;
      if job !in terminals && Holds(Contents(), job, caller, generation, now) {
        if job in deferrals || DeferralKeyUsed(Contents(), key) {
          return false, true;
        }
        deferrals := deferrals[job := Deferral(key, recheckAt, hash)];
        inserted := true;
      }
      if Holds(Contents(), job, caller, generation, now) {
        leases := leases - {job};
      }
    }

    /** What the caller of a transaction learns from how it ended. */
    ghost predicate Ends(t: Tables, op: Op, inserted: bool, aborted: bool) {
      if !WorkflowTables.Valid(t, op) then !inserted && !aborted
      else
        match op
        case AcceptOp(job, caller, gen, key, _, _, now) => aborted <==> AcceptAborts(t, job, caller, gen, key, now)
        case RejectOp(_, _, key, _, _, _, _, _) => aborted <==> key in t.proposals
        case DeferOp(job, caller, gen, key, _, _, now) =>
          && (inserted <==> DeferCommits(t, job, caller, gen, key, now))
          && (aborted <==> DeferAborts(t, job, caller, gen, key, now))
        case _ => true
    }

    /**
     Execute one transaction.  The random ids of a call are fresh (`WorkflowTables.Valid`); a draw that
     repeats an id in use is not a behaviour of the model, so it leaves the tables alone.
     */
    method Execute(op: Op) returns (inserted: bool, aborted: bool)
      requires Inv(Contents())
      modifies this
      ensures log == old(log) && Contents() == Step(old(Contents()), op)
      ensures Ends(old(Contents()), op, inserted, aborted)
    {
      inserted, aborted := false, false;
      if WorkflowTables.Valid(Contents(), op) {
        match op {
          case ClaimOp(job, owner, token, now) => ClaimBatch(job, owner, token, now);
          case AcceptOp(job, caller, gen, key, id, hash, now) =>
            aborted := AcceptBatch(job, caller, gen, key, id, hash, now);
          case RejectOp(job, caller, key, id, origin, reason, hash, now) =>
            aborted := RejectBatch(job, caller, key, id, origin, reason, hash, now);
          case DeferOp(job, caller, gen, key, recheckAt, hash, now) =>
            inserted, aborted := DeferBatch(job, caller, gen, key, recheckAt, hash, now);
          case DenyOp(job, actor, now) => events := events + [Event(job, ClaimDenied, actor, None, None, now)];
          case ConflictOp(job, actor, id, now) =>
            events := events + [Event(job, SubmitConflict, actor, Some(id), None, now)];
        }
      }
    }

    /** Run one transaction and log it. */
    method Transact(op: Op) returns (inserted: bool, aborted: bool)
      requires Valid()
      modifies this
      ensures Valid() && log == old(log) + [op]
      ensures Contents() == Step(old(Contents()), op) && Extends(old(Contents()), Contents())
      ensures Ends(old(Contents()), op, inserted, aborted)
    {
      EmptyInv();
      RunInv(Empty, log);
      StepExtends(Contents(), op);
      inserted, aborted := Execute(op);
      RunSnoc(Empty, log, op);
      log := log + [op];
    }

    /** The transactions of other calls that commit between two accesses of this one. */
    method Others(ops: seq<Op>)
      requires Valid()
      modifies this
      ensures Valid() && log == old(log) + ops
      ensures Contents() == Run(old(Contents()), ops) && Extends(old(Contents()), Contents())
    {
      for i := 0 to |ops|
        invariant Valid() && log == old(log) + ops[..i]
      {
        var _, _ := Transact(ops[i]);
        assert ops[..i + 1] == ops[..i] + [ops[i]];
      }
      assert ops[..|ops|] == ops;
      RunConcat(Empty, old(log), ops);
      RunExtends(old(Contents()), ops);
    }
  }
}
