/**
 `submitIssueBookkeeping` statement by statement.  Before every statement other calls run `env(n)`; the
 whole history stays a run of `IssueBookkeeping`, so its theorems hold whenever a call returns.
 */
module IssueSubmission {
  import opened Options
  import opened IssueBookkeeping

  /** The parsed command, or what the schema refused. */
  datatype Input = Malformed | Parsed(command: Command, hasBody: bool)

  datatype Answer = ValidationFailed | RejectedTarget(detail: string) | StateUnavailable | Answered(receipt: Receipt)

  ghost predicate Alone(env: nat -> seq<Step>) {
    forall n :: env(n) == []
  }

  /** Steps of other calls only. */
  ghost predicate Foreign(steps: seq<Step>, me: nat) {
    forall k :: 0 <= k < |steps| ==> !(steps[k].Move? && steps[k].i == me)
  }

  lemma {:induction false} StaysPut(s: System, steps: seq<Step>, me: nat)
    requires Foreign(steps, me) && me < |s.procs|
    ensures me < |Run(s, steps).procs| && Run(s, steps).procs[me] == s.procs[me]
    decreases |steps|
  {
    if steps != [] {
      assert !(steps[0].Move? && steps[0].i == me);
      assert forall k :: 0 <= k < |steps[1..]| ==> steps[1..][k] == steps[k + 1];
      StaysPut(Next(s, steps[0]), steps[1..], me);
    }
  }

  /** `updateRow`. */
  function Recorded(rows: map<string, Row>, call: Call, outcome: Outcome): map<string, Row>
    requires call.command.key in rows
  {
    rows[call.command.key := rows[call.command.key].(outcome := outcome, updatedAt := call.now)]
  }

  class Bookkeeper {
    var rows: map<string, Row>
    /** The calls so far, and which of them created each row: history, not storage. */
    var procs: seq<Proc>
    var winner: map<string, nat>
    ghost var log: seq<Step>

    function State(): System
      reads this
    {
      System(rows, procs, winner)
    }

    ghost predicate Valid()
      reads this
    {
      State() == Run(IssueBookkeeping.Empty, log)
    }

    constructor ()
      ensures Valid() && log == []
    {
      rows, procs, winner, log := map[], [], map[], [];
    }

    method Book(before: System, step: Step)
      requires before == Run(IssueBookkeeping.Empty, log) && rows == Next(before, step).rows
      modifies `procs, `winner, `log
      ensures Valid() && log == old(log) + [step] && State() == Next(before, step)
    {
      var after := Next(before, step);
      procs, winner := after.procs, after.winner;
      RunConcat(IssueBookkeeping.Empty, log, [step]);
      assert Run(before, [step]) == Next(before, step);
      log := log + [step];
    }

    method Others(steps: seq<Step>, me: nat)
      requires Valid() && Foreign(steps, me) && me < |procs|
      modifies this
      ensures Valid() && log == old(log) + steps
      ensures me < |procs| && procs[me] == old(procs[me])
      ensures steps == [] ==> rows == old(rows)
    {
      var after := Run(State(), steps);
      RunConcat(IssueBookkeeping.Empty, log, steps);
      StaysPut(State(), steps, me);
      rows, procs, winner := after.rows, after.procs, after.winner;
      log := log + steps;
    }

    predicate At(i: nat, call: Call, pc: Pc)
      reads this
    {
      i < |procs| && procs[i].call == call && procs[i].pc == pc
    }

    // ----- the statements

    method Enter(call: Call) returns (me: nat)
      requires Valid()
      modifies this
      ensures Valid() && log == old(log) + [Join(call)] && me == |old(procs)| && At(me, call, Select)
      ensures rows == old(rows)
    {
      me := |procs|;
      Book(State(), Join(call));
    }

    method SelectRow(call: Call, me: nat) returns (existing: Option<Row>)
      requires Valid() && At(me, call, Select)
      modifies this
      ensures Valid() && log == old(log) + [Move(me, TransportFailed)] && rows == old(rows)
      ensures existing == if call.command.key in rows then Some(rows[call.command.key]) else None
      ensures At(me, call, if existing.Some? then Done(Replayed(existing.value)) else Insert)
    {
      existing := if call.command.key in rows then Some(rows[call.command.key]) else None;
      Book(State(), Move(me, TransportFailed));
    }

    method InsertRow(call: Call, me: nat)
      requires Valid() && At(me, call, Insert)
      modifies this
      ensures Valid() && log == old(log) + [Move(me, TransportFailed)] && At(me, call, Reread)
      ensures rows == if call.command.key in old(rows) then old(rows) else old(rows)[call.command.key := Reserved(call)]
    {
      var before := State();
      if call.command.key !in rows {
        rows := rows[call.command.key := Reserved(call)];
      }
      Book(before, Move(me, TransportFailed));
    }

    /** The row is there: no statement deletes one. */
    method ReadBack(call: Call, me: nat) returns (raced: Row)
      requires Valid() && At(me, call, Reread)
      modifies this
      ensures Valid() && log == old(log) + [Move(me, TransportFailed)] && rows == old(rows)
      ensures call.command.key in rows && raced == rows[call.command.key]
      ensures At(me, call, if raced.updatedAt != call.now then Done(Replayed(raced))
                           else if call.hasToken then Send else Update(NoToken))
    {
      RunInv(IssueBookkeeping.Empty, log);
      assert ProcInv(State(), procs[me]);
      raced := rows[call.command.key];
      Book(State(), Move(me, TransportFailed));
    }

    /** The request to GitHub; `reply` is what comes back. */
    method Request(call: Call, me: nat, reply: Reply) returns (outcome: Outcome)
      requires Valid() && At(me, call, Send)
      modifies this
      ensures Valid() && log == old(log) + [Move(me, reply)] && rows == old(rows)
      ensures At(me, call, Update(outcome)) && outcome == Judge(reply) && procs[me].reply == Some(reply)
    {
      outcome := Judge(reply);
      Book(State(), Move(me, reply));
    }

    method UpdateRow(call: Call, me: nat, outcome: Outcome)
      requires Valid() && At(me, call, Update(outcome))
      modifies this
      ensures Valid() && log == old(log) + [Move(me, TransportFailed)] && At(me, call, Done(Reported(outcome)))
      ensures procs[me].reply == old(procs[me].reply)
      ensures call.command.key in old(rows)
      ensures rows == Recorded(old(rows), call, outcome)
    {
      RunInv(IssueBookkeeping.Empty, log);
      assert ProcInv(State(), procs[me]);
      var before := State();
      rows := rows[call.command.key := rows[call.command.key].(outcome := outcome, updatedAt := call.now)];
      Book(before, Move(me, TransportFailed));
    }

    // ----- one call among others

    /** The winner's part: the request, or its refusal for want of a token, and the record of it. */
    method Deliver(call: Call, me: nat, reply: Reply, env: nat -> seq<Step>, n: nat) returns (outcome: Outcome)
      requires Valid() && At(me, call, if call.hasToken then Send else Update(NoToken))
      requires forall k :: Foreign(env(k), me)
      modifies this
      ensures Valid() && old(log) <= log && At(me, call, Done(Reported(outcome)))
      ensures FitsReply(outcome, call, if call.hasToken then Some(reply) else None)
      ensures call.command.key in rows && rows[call.command.key].outcome == outcome
      ensures rows[call.command.key].updatedAt == call.now
      ensures Alone(env) ==>
        && call.command.key in old(rows)
        && rows == Recorded(old(rows), call, outcome)
    {
      outcome := NoToken;
      if call.hasToken {
        Others(env(n), me);
        outcome := Request(call, me, reply);
      }
      Others(env(n + 1), me);
      UpdateRow(call, me, outcome);
    }

    /** The insert race; `raced` is the row of the call that won it, when that is not this one. */
    method Contend(call: Call, me: nat, env: nat -> seq<Step>, n: nat) returns (raced: Option<Row>)
      requires Valid() && At(me, call, Insert) && forall k :: Foreign(env(k), me)
      modifies this
      ensures Valid() && old(log) <= log
      ensures At(me, call, if raced.Some? then Done(Replayed(raced.value))
                           else if call.hasToken then Send else Update(NoToken))
      ensures Alone(env) && call.command.key !in old(rows) ==>
        raced == None && rows == old(rows)[call.command.key := Reserved(call)]
    {
      Others(env(n), me);
      InsertRow(call, me);
      Others(env(n + 1), me);
      var row := ReadBack(call, me);
      raced := if row.updatedAt != call.now then Some(row) else None;
    }

    /** From the validation of the command to the receipt. */
    method Submit(input: Input, targets: Option<set<string>>, now: int, hasToken: bool, reply: Reply,
                  env: nat -> seq<Step>)
      returns (answer: Answer)
      requires Valid() && forall k :: Foreign(env(k), |procs|)
      modifies this
      ensures Valid() && old(log) <= log && answer != StateUnavailable
      ensures !answer.Answered? ==> Some(answer) == Refusal(input, targets) && rows == old(rows) && log == old(log)
      ensures answer.Answered? <==> Refusal(input, targets).None?
      ensures answer.Answered? ==> At(|old(procs)|, Call(input.command, now, hasToken), Done(answer.receipt))
      ensures answer.Answered? && answer.receipt.Reported? ==>
        && input.command.key in rows && rows[input.command.key].outcome == answer.receipt.outcome
        && FitsReply(answer.receipt.outcome, Call(input.command, now, hasToken), if hasToken then Some(reply) else None)
      ensures answer.Answered? && Alone(env) ==>
        var call := Call(input.command, now, hasToken);
        if input.command.key in old(rows)
        then answer.receipt == Replayed(old(rows)[input.command.key]) && rows == old(rows)
        else answer.receipt.Reported?
             && rows == old(rows)[input.command.key := Reserved(call).(outcome := answer.receipt.outcome)]
    {
      if input.Malformed? || (input.command.operation == Comment && !input.hasBody) {
        return ValidationFailed;
      }
      if targets.None? {
        return RejectedTarget("bookkeeping targets not configured");
      }
      if input.command.target !in targets.value {
        return RejectedTarget("target_key is not whitelisted");
      }
      var receipt := Process(Call(input.command, now, hasToken), reply, env);
      answer := Answered(receipt);
    }

    method Process(call: Call, reply: Reply, env: nat -> seq<Step>) returns (receipt: Receipt)
      requires Valid() && forall k :: Foreign(env(k), |procs|)
      modifies this
      ensures Valid() && old(log) <= log && At(|old(procs)|, call, Done(receipt))
      ensures receipt.Reported? ==>
        && call.command.key in rows && rows[call.command.key].outcome == receipt.outcome
        && FitsReply(receipt.outcome, call, if call.hasToken then Some(reply) else None)
      ensures Alone(env) ==>
        if call.command.key in old(rows)
        then receipt == Replayed(old(rows)[call.command.key]) && rows == old(rows)
        else receipt.Reported? && rows == old(rows)[call.command.key := Reserved(call).(outcome := receipt.outcome)]
    {
      var me := Enter(call);
      Others(env(0), me);
      var existing := SelectRow(call, me);
      if existing.Some? {
        return Replayed(existing.value);
      }
      var raced := Contend(call, me, env, 1);
      if raced.Some? {
        return Replayed(raced.value);
      }
      var outcome := Deliver(call, me, reply, env, 3);
      receipt := Reported(outcome);
    }
  }

  /** Why a command is turned away before any row is touched. */
  function Refusal(input: Input, targets: Option<set<string>>): Option<Answer> {
    match input
    case Malformed => Some(ValidationFailed)
    case Parsed(command, hasBody) =>
      if command.operation == Comment && !hasBody then Some(ValidationFailed)
      else if targets.None? then Some(RejectedTarget("bookkeeping targets not configured"))
      else if command.target !in targets.value then Some(RejectedTarget("target_key is not whitelisted"))
      else None
  }

  /** The checks in the order a caller meets them: the command, the configuration, the target. */
  lemma RefusalMeaning(input: Input, targets: Option<set<string>>)
    ensures var refusal := Refusal(input, targets);
      && (refusal == Some(ValidationFailed)
          <==> input.Malformed? || (input.command.operation == Operation.Comment && !input.hasBody))
      && (refusal == Some(RejectedTarget("bookkeeping targets not configured"))
          <==> refusal != Some(ValidationFailed) && targets == None)
      && (refusal == Some(RejectedTarget("target_key is not whitelisted"))
          <==> refusal != Some(ValidationFailed) && targets.Some? && input.command.target !in targets.value)
      && (refusal == None
          <==> && input.Parsed? && (input.command.operation == Operation.Comment ==> input.hasBody)
               && targets.Some? && input.command.target in targets.value)
  {
    assert "bookkeeping targets not configured"[0] == 'b' && "target_key is not whitelisted"[0] == 't';
  }
}
