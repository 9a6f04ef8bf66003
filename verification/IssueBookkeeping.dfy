/**
 Issue bookkeeping commands, as a state machine over every statement of every call: look the key up,
 insert the row or lose the race, read it again, send one GitHub request, record its outcome.  A call
 that is never moved again has crashed.
 */
module IssueBookkeeping {
  import opened Options
  import opened Decimals

  datatype Operation = Comment | Close

  /** A command that passed the schema and names a configured target. */
  datatype Command = Command(key: string, task: string, target: string, operation: Operation)

  datatype RowStatus = Persisted | DeliveryBlocked | OutcomeUnknown

  datatype Outcome = Outcome(status: RowStatus, commentId: Option<string>, url: Option<string>, detail: Option<string>)

  datatype Row = Row(task: string, target: string, operation: Operation, outcome: Outcome, createdAt: int,
                     updatedAt: int)

  datatype Call = Call(command: Command, now: int, hasToken: bool)

  /** What GitHub, or the transport, answers. */
  datatype Reply = Accepted(commentId: Option<string>, url: Option<string>) | Http(status: nat) | TransportFailed

  datatype Receipt = Replayed(row: Row) | Reported(outcome: Outcome)

  datatype Pc = Select | Insert | Reread | Send | Update(outcome: Outcome) | Done(receipt: Receipt)

  /** `reply`: what its request was answered with; `None` while it has sent none. */
  datatype Proc = Proc(call: Call, pc: Pc, reply: Option<Reply>)

  /** `winner` is a history: the call whose insert created each row. */
  datatype System = System(rows: map<string, Row>, procs: seq<Proc>, winner: map<string, nat>)

  const Empty := System(map[], [], map[])
  const NoToken := Outcome(DeliveryBlocked, None, None, Some("token_not_configured"))

  datatype Step = Join(call: Call) | Move(i: nat, reply: Reply)

  function Reserved(c: Call): Row {
    Row(c.command.task, c.command.target, c.command.operation, Outcome(OutcomeUnknown, None, None, None), c.now, c.now)
  }

  function Judge(reply: Reply): Outcome {
    match reply
    case Accepted(id, url) => Outcome(Persisted, id, url, None)
    case TransportFailed => Outcome(OutcomeUnknown, None, None, Some("transport_failed"))
    case Http(status) =>
      if status == 429 || status >= 500 then Outcome(OutcomeUnknown, None, None, Some("github_http_" + Decimal(status)))
      else Outcome(DeliveryBlocked, None, None, Some("github_refused_http_" + Decimal(status)))
  }

  /**
   What a reported outcome says about the reply.  Without a token no request is sent and delivery is blocked.
   PERSISTED is an accepted reply, OUTCOME_UNKNOWN a failed transport, a 429 or a status from 500, and
   DELIVERY_BLOCKED any other status.
   */
  predicate FitsReply(o: Outcome, call: Call, reply: Option<Reply>) {
    && (reply.Some? <==> call.hasToken)
    && (o.status == Persisted <==> reply.Some? && reply.value.Accepted?)
    && (o.status == OutcomeUnknown
        <==> reply.Some? && (reply.value.TransportFailed?
                             || (reply.value.Http? && (reply.value.status == 429 || reply.value.status >= 500))))
    && (o.status == DeliveryBlocked
        <==> reply == None || (reply.value.Http? && reply.value.status != 429 && reply.value.status < 500))
    && (if reply.Some? && reply.value.Accepted?
        then o.commentId == reply.value.commentId && o.url == reply.value.url && o.detail == None
        else o.commentId == None && o.url == None)
    && (reply == None ==> o.detail == Some("token_not_configured"))
    && (reply == Some(TransportFailed) ==> o.detail == Some("transport_failed"))
    && (reply.Some? && reply.value.Http? ==>
          o.detail == Some((if o.status == OutcomeUnknown then "github_http_" else "github_refused_http_")
                           + Decimal(reply.value.status)))
  }

  /** The next statement of call `i`. */
  function Advance(s: System, i: nat, reply: Reply): System
    requires i < |s.procs|
  {
    var p := s.procs[i];
    var key := p.call.command.key;
    match p.pc
    case Select => Goto(s, i, if key in s.rows then Done(Replayed(s.rows[key])) else Insert)
    case Insert =>
      if key in s.rows then Goto(s, i, Reread)
      else Goto(s.(rows := s.rows[key := Reserved(p.call)], winner := s.winner[key := i]), i, Reread)
    case Reread =>
      if key !in s.rows then s
      else if s.rows[key].updatedAt != p.call.now then Goto(s, i, Done(Replayed(s.rows[key])))
      else Goto(s, i, if p.call.hasToken then Send else Update(NoToken))
    case Send => s.(procs := s.procs[i := p.(pc := Update(Judge(reply)), reply := Some(reply))])
    case Update(outcome) =>
      Goto(if key in s.rows
           then s.(rows := s.rows[key := s.rows[key].(outcome := outcome, updatedAt := p.call.now)]) else s,
           i, Done(Reported(outcome)))
    case Done(_) => s
  }

  function Goto(s: System, i: nat, pc: Pc): System
    requires i < |s.procs|
  {
    s.(procs := s.procs[i := s.procs[i].(pc := pc)])
  }

  function Next(s: System, step: Step): System {
    match step
    case Join(call) => s.(procs := s.procs + [Proc(call, Select, None)])
    case Move(i, reply) => if i < |s.procs| then Advance(s, i, reply) else s
  }

  function Run(s: System, steps: seq<Step>): System
    decreases |steps|
  {
    if steps == [] then s else Run(Next(s, steps[0]), steps[1..])
  }

  lemma {:induction false} RunConcat(s: System, a: seq<Step>, b: seq<Step>)
    ensures Run(s, a + b) == Run(Run(s, a), b)
    decreases |a|
  {
    if a == [] {
      assert a + b == b;
    } else {
      RunConcat(Next(s, a[0]), a[1..], b);
      assert (a + b)[1..] == a[1..] + b;
    }
  }

  // ----- what every run keeps, equal timestamps or not

  predicate IsDelivering(p: Proc) {
    p.reply.Some? || p.pc.Send? || p.pc.Update? || (p.pc.Done? && p.pc.receipt.Reported?)
  }

  predicate ProcInv(s: System, p: Proc) {
    var key := p.call.command.key;
    && (IsDelivering(p) || p.pc.Reread? ==> key in s.rows)
    && (IsDelivering(p) ==> s.rows[key].updatedAt == p.call.now)
    && (p.reply.Some? ==> p.pc.Update? || (p.pc.Done? && p.pc.receipt.Reported?))
    && (p.pc.Done? && p.pc.receipt.Replayed? ==> key in s.rows)
  }

  predicate RowInv(s: System, key: string)
    requires key in s.rows
  {
    && key in s.winner && s.winner[key] < |s.procs|
    && var p := s.procs[s.winner[key]];
       && p.call.command.key == key && !p.pc.Select? && !p.pc.Insert?
       && s.rows[key].updatedAt == s.rows[key].createdAt == p.call.now
       && !(p.pc.Done? && p.pc.receipt.Replayed?)
  }

  ghost predicate Inv(s: System) {
    && (forall i :: 0 <= i < |s.procs| ==> ProcInv(s, s.procs[i]))
    && (forall key :: key in s.rows ==> RowInv(s, key))
  }

  /** Rows stay, with the timestamp of the insert. */
  predicate RowsStay(s: System, t: System) {
    forall key :: key in s.rows ==> key in t.rows && t.rows[key].updatedAt == s.rows[key].updatedAt
  }

  lemma StepKeepsRows(s: System, step: Step)
    requires Inv(s)
    ensures RowsStay(s, Next(s, step))
  {
    if step.Move? && step.i < |s.procs| {
      assert ProcInv(s, s.procs[step.i]);
    }
  }

  lemma StayProcInv(s: System, t: System, p: Proc)
    requires ProcInv(s, p) && RowsStay(s, t)
    ensures ProcInv(t, p)
  {
  }

  lemma AdvanceProcInv(s: System, i: nat, reply: Reply)
    requires i < |s.procs| && ProcInv(s, s.procs[i])
    ensures ProcInv(Advance(s, i, reply), Advance(s, i, reply).procs[i])
  {
  }

  lemma StepProcInv(s: System, step: Step, i: nat)
    requires Inv(s) && i < |Next(s, step).procs|
    ensures ProcInv(Next(s, step), Next(s, step).procs[i])
  {
    if i < |s.procs| {
      if step.Move? && step.i == i {
        AdvanceProcInv(s, i, step.reply);
      } else {
        assert Next(s, step).procs[i] == s.procs[i];
        StepKeepsRows(s, step);
        StayProcInv(s, Next(s, step), s.procs[i]);
      }
    }
  }

  lemma AdvanceRowInv(s: System, i: nat, reply: Reply, key: string)
    requires i < |s.procs| && ProcInv(s, s.procs[i]) && (key in s.rows ==> RowInv(s, key))
      && key in Advance(s, i, reply).rows
    ensures RowInv(Advance(s, i, reply), key)
  {
  }

  lemma StepRowInv(s: System, step: Step, key: string)
    requires Inv(s) && key in Next(s, step).rows
    ensures RowInv(Next(s, step), key)
  {
    if step.Move? && step.i < |s.procs| {
      assert ProcInv(s, s.procs[step.i]);
      AdvanceRowInv(s, step.i, step.reply, key);
    } else {
      assert RowInv(s, key);
    }
  }

  lemma StepInv(s: System, step: Step)
    requires Inv(s)
    ensures Inv(Next(s, step))
  {
    var t := Next(s, step);
    forall i | 0 <= i < |t.procs| ensures ProcInv(t, t.procs[i]) {
      StepProcInv(s, step, i);
    }
    forall key | key in t.rows ensures RowInv(t, key) {
      StepRowInv(s, step, key);
    }
  }

  lemma {:induction false} RunInv(s: System, steps: seq<Step>)
    requires Inv(s)
    ensures Inv(Run(s, steps))
    decreases |steps|
  {
    if steps != [] {
      StepInv(s, steps[0]);
      RunInv(Next(s, steps[0]), steps[1..]);
    }
  }

  /** Whoever sends, or may still send, has the timestamp of the row's insert. */
  lemma SendersShareTheRowTime(steps: seq<Step>, i: nat)
    requires i < |Run(Empty, steps).procs| && IsDelivering(Run(Empty, steps).procs[i])
    ensures var s := Run(Empty, steps); var c := s.procs[i].call;
      && c.command.key in s.rows && s.rows[c.command.key].createdAt == s.rows[c.command.key].updatedAt == c.now
  {
    RunInv(Empty, steps);
    var s := Run(Empty, steps);
    assert ProcInv(s, s.procs[i]) && RowInv(s, s.procs[i].call.command.key);
  }

  predicate ReplyInv(p: Proc) {
    match p.pc
    case Update(outcome) => FitsReply(outcome, p.call, p.reply)
    case Done(Reported(outcome)) => FitsReply(outcome, p.call, p.reply)
    case Send => p.call.hasToken && p.reply == None
    case _ => p.reply == None
  }

  lemma {:induction false} RunReplies(s: System, steps: seq<Step>)
    requires forall i :: 0 <= i < |s.procs| ==> ReplyInv(s.procs[i])
    ensures forall i :: 0 <= i < |Run(s, steps).procs| ==> ReplyInv(Run(s, steps).procs[i])
    decreases |steps|
  {
    if steps != [] {
      var t := Next(s, steps[0]);
      forall i | 0 <= i < |t.procs| ensures ReplyInv(t.procs[i]) {
        assert i < |s.procs| ==> ReplyInv(s.procs[i]);
      }
      RunReplies(t, steps[1..]);
    }
  }

  /** Over every run, what a call reports is what its own request was answered with. */
  lemma ReportsFitReplies(steps: seq<Step>, i: nat)
    requires i < |Run(Empty, steps).procs|
    ensures var p := Run(Empty, steps).procs[i];
      && (p.pc.Done? && p.pc.receipt.Reported? ==> FitsReply(p.pc.receipt.outcome, p.call, p.reply))
      && (!p.call.hasToken ==> p.reply == None)
  {
    RunReplies(Empty, steps);
    assert ReplyInv(Run(Empty, steps).procs[i]);
  }

  // ----- calls with pairwise distinct `now` for a key

  ghost predicate DistinctTimes(s: System) {
    forall i, k :: 0 <= i < k < |s.procs| && s.procs[i].call.command.key == s.procs[k].call.command.key
      ==> s.procs[i].call.now != s.procs[k].call.now
  }

  lemma OnlyTheWinnerDelivers(s: System, i: nat)
    requires Inv(s) && DistinctTimes(s) && i < |s.procs| && s.procs[i].call.command.key in s.rows
    requires s.procs[i].call.now == s.rows[s.procs[i].call.command.key].updatedAt
    ensures s.winner[s.procs[i].call.command.key] == i
  {
    assert RowInv(s, s.procs[i].call.command.key);
  }

  /** The row as the call that created it knows it. */
  function Told(p: Proc): Row {
    if p.pc.Done? && p.pc.receipt.Reported? then Reserved(p.call).(outcome := p.pc.receipt.outcome)
    else Reserved(p.call)
  }

  predicate RowTold(s: System, key: string)
    requires key in s.rows && key in s.winner && s.winner[key] < |s.procs|
  {
    s.rows[key] == Told(s.procs[s.winner[key]])
  }

  /** A replay shows the row as reserved, or as it ends. */
  predicate ReplayTold(s: System, p: Proc) {
    p.pc.Done? && p.pc.receipt.Replayed? ==>
      var key := p.call.command.key;
      && key in s.rows && key in s.winner && s.winner[key] < |s.procs|
      && (p.pc.receipt.row == s.rows[key] || p.pc.receipt.row == Reserved(s.procs[s.winner[key]].call))
  }

  ghost predicate Faithful(s: System) {
    && (forall key :: key in s.rows ==> RowInv(s, key) && RowTold(s, key))
    && (forall i :: 0 <= i < |s.procs| ==> ReplayTold(s, s.procs[i]))
  }

  lemma EarlierDistinct(s: System, step: Step)
    requires DistinctTimes(Next(s, step))
    ensures DistinctTimes(s)
  {
    var t := Next(s, step);
    assert forall i :: 0 <= i < |s.procs| ==> t.procs[i].call == s.procs[i].call;
  }

  lemma StepRowTold(s: System, step: Step, key: string)
    requires Inv(s) && Faithful(s) && DistinctTimes(s) && key in Next(s, step).rows
    ensures RowInv(Next(s, step), key) && RowTold(Next(s, step), key)
  {
    StepRowInv(s, step, key);
    if step.Move? && step.i < |s.procs| {
      var p := s.procs[step.i];
      assert ProcInv(s, p);
      if key in s.rows && p.call.command.key == key && (IsDelivering(p) || p.pc.Reread?)
        && s.rows[key].updatedAt == p.call.now {
        OnlyTheWinnerDelivers(s, step.i);
      }
    }
  }

  /** A row changes once, from what its winner reserved. */
  lemma RowChanges(s: System, step: Step, key: string)
    requires Inv(s) && Faithful(s) && DistinctTimes(s) && key in s.rows
    ensures var t := Next(s, step);
      && key in t.rows && key in s.winner && s.winner[key] < |s.procs| <= |t.procs|
      && key in t.winner && t.winner[key] == s.winner[key]
      && t.procs[s.winner[key]].call == s.procs[s.winner[key]].call
      && (t.rows[key] == s.rows[key] || s.rows[key] == Reserved(s.procs[s.winner[key]].call))
  {
    assert RowInv(s, key) && RowTold(s, key);
    if step.Move? && step.i < |s.procs| {
      assert ProcInv(s, s.procs[step.i]);
      if s.procs[step.i].pc.Update? && s.procs[step.i].call.command.key == key {
        OnlyTheWinnerDelivers(s, step.i);
      }
    }
  }

  lemma StepReplayTold(s: System, step: Step, i: nat)
    requires Inv(s) && Faithful(s) && DistinctTimes(s) && i < |Next(s, step).procs|
    ensures ReplayTold(Next(s, step), Next(s, step).procs[i])
  {
    if i < |s.procs| && s.procs[i].call.command.key in s.rows {
      RowChanges(s, step, s.procs[i].call.command.key);
    }
    if i < |s.procs| {
      assert ReplayTold(s, s.procs[i]);
      if step.Move? && step.i == i {
        AdvanceReplayTold(s, i, step.reply);
      } else {
        assert Next(s, step).procs[i] == s.procs[i];
      }
    }
  }

  lemma AdvanceReplayTold(s: System, i: nat, reply: Reply)
    requires Inv(s) && i < |s.procs| && ReplayTold(s, s.procs[i])
    ensures ReplayTold(Advance(s, i, reply), Advance(s, i, reply).procs[i])
  {
    var key := s.procs[i].call.command.key;
    if key in s.rows {
      assert RowInv(s, key);
    }
  }

  lemma {:induction false} RunFaithful(s: System, steps: seq<Step>)
    requires Inv(s) && Faithful(s) && DistinctTimes(Run(s, steps))
    ensures Faithful(Run(s, steps)) && DistinctTimes(s)
    decreases |steps|
  {
    if steps != [] {
      var t := Next(s, steps[0]);
      RunDistinct(t, steps[1..]);
      EarlierDistinct(s, steps[0]);
      StepInv(s, steps[0]);
      forall key | key in t.rows ensures RowInv(t, key) && RowTold(t, key) {
        StepRowTold(s, steps[0], key);
      }
      forall i | 0 <= i < |t.procs| ensures ReplayTold(t, t.procs[i]) {
        StepReplayTold(s, steps[0], i);
      }
      RunFaithful(t, steps[1..]);
    }
  }

  lemma {:induction false} RunDistinct(s: System, steps: seq<Step>)
    requires DistinctTimes(Run(s, steps))
    ensures DistinctTimes(s)
    decreases |steps|
  {
    if steps != [] {
      RunDistinct(Next(s, steps[0]), steps[1..]);
      EarlierDistinct(s, steps[0]);
    }
  }

  /** At most one request per key, whoever crashes and whoever races. */
  lemma AtMostOneRequest(steps: seq<Step>, i: nat, k: nat)
    requires DistinctTimes(Run(Empty, steps)) && i < k < |Run(Empty, steps).procs|
    requires IsDelivering(Run(Empty, steps).procs[i]) && IsDelivering(Run(Empty, steps).procs[k])
    ensures Run(Empty, steps).procs[i].call.command.key != Run(Empty, steps).procs[k].call.command.key
  {
    SendersShareTheRowTime(steps, i);
    SendersShareTheRowTime(steps, k);
  }

  /** Before the request its row is stored as OUTCOME_UNKNOWN; afterwards it shows exactly what the sender reported. */
  lemma RowBeforeRequest(steps: seq<Step>, i: nat)
    requires DistinctTimes(Run(Empty, steps)) && i < |Run(Empty, steps).procs|
      && IsDelivering(Run(Empty, steps).procs[i])
    ensures var s := Run(Empty, steps); var p := s.procs[i]; var key := p.call.command.key;
      key in s.rows &&
      if p.pc.Done? then p.pc.receipt.Reported? && s.rows[key] == Reserved(p.call).(outcome := p.pc.receipt.outcome)
      else s.rows[key] == Reserved(p.call) && s.rows[key].outcome.status == OutcomeUnknown
  {
    RunInv(Empty, steps);
    RunFaithful(Empty, steps);
    var s := Run(Empty, steps);
    assert ProcInv(s, s.procs[i]);
    OnlyTheWinnerDelivers(s, i);
    assert RowTold(s, s.procs[i].call.command.key);
  }

  /** What the reserved row holds. */
  lemma ReservedMeaning(c: Call)
    ensures var row := Reserved(c);
      && row.task == c.command.task && row.target == c.command.target && row.operation == c.command.operation
      && row.outcome.status == OutcomeUnknown && row.outcome.commentId == None && row.outcome.url == None
      && row.outcome.detail == None && row.createdAt == row.updatedAt == c.now
  {
  }

  /** Every other answered call replays the row of the one that created it: as reserved, or as it is now. */
  lemma OthersReplay(steps: seq<Step>, i: nat)
    requires DistinctTimes(Run(Empty, steps)) && i < |Run(Empty, steps).procs|
    requires Run(Empty, steps).procs[i].pc.Done? && !IsDelivering(Run(Empty, steps).procs[i])
    ensures var s := Run(Empty, steps); var p := s.procs[i]; var key := p.call.command.key;
      && key in s.rows && p.pc.receipt.Replayed? && key in s.winner && s.winner[key] < |s.procs| && s.winner[key] != i
      && (p.pc.receipt.row == s.rows[key] || p.pc.receipt.row == Reserved(s.procs[s.winner[key]].call))
      && p.pc.receipt.row.(outcome := s.rows[key].outcome) == s.rows[key]
  {
    RunInv(Empty, steps);
    RunFaithful(Empty, steps);
    var s := Run(Empty, steps);
    assert ProcInv(s, s.procs[i]) && ReplayTold(s, s.procs[i]);
    assert RowInv(s, s.procs[i].call.command.key) && RowTold(s, s.procs[i].call.command.key);
  }

  // ----- equal timestamps

  ghost predicate TwoRequests(a: Call, b: Call, steps: seq<Step>) {
    var s := Run(Next(Next(Empty, Join(a)), Join(b)), steps);
    1 < |s.procs| && s.procs[0].reply.Some? && s.procs[1].reply.Some?
  }

  /** Two concurrent calls for one key can both reach GitHub if and only if they carry the same `now`. */
  lemma BothSendIffSameNow(a: Call, b: Call)
    requires a.command.key == b.command.key && a.hasToken && b.hasToken
    ensures (exists steps :: TwoRequests(a, b, steps)) <==> a.now == b.now
  {
    var s := Next(Next(Empty, Join(a)), Join(b));
    if a.now == b.now {
      var steps := Alternating(4);
      Race(s, a, b);
      assert TwoRequests(a, b, steps);
    }
    if steps :| TwoRequests(a, b, steps) {
      StepInv(Empty, Join(a));
      StepInv(Next(Empty, Join(a)), Join(b));
      RunInv(s, steps);
      KeepsCalls(s, steps);
      var t := Run(s, steps);
      assert ProcInv(t, t.procs[0]) && ProcInv(t, t.procs[1]);
    }
  }

  lemma {:induction false} KeepsCalls(s: System, steps: seq<Step>)
    ensures |s.procs| <= |Run(s, steps).procs|
    ensures forall i :: 0 <= i < |s.procs| ==> Run(s, steps).procs[i].call == s.procs[i].call
    decreases |steps|
  {
    if steps != [] {
      KeepsCalls(Next(s, steps[0]), steps[1..]);
    }
  }

  /** Both calls take turns, `n` statements each. */
  function Alternating(n: nat): seq<Step> {
    if n == 0 then [] else [Move(0, TransportFailed), Move(1, TransportFailed)] + Alternating(n - 1)
  }

  lemma Turn(s: System, n: nat)
    requires n > 0
    ensures Run(s, Alternating(n)) == Run(Next(Next(s, Move(0, TransportFailed)), Move(1, TransportFailed)),
                                          Alternating(n - 1))
  {
    var m0, m1 := Move(0, TransportFailed), Move(1, TransportFailed);
    RunConcat(s, [m0, m1], Alternating(n - 1));
    assert [m0, m1][1..] == [m1];
    assert Run(Next(s, m0), [m1]) == Next(Next(s, m0), m1);
  }

  lemma Race(s: System, a: Call, b: Call)
    requires s == System(map[], [Proc(a, Select, None), Proc(b, Select, None)], map[])
    requires a.command.key == b.command.key && a.now == b.now && a.hasToken && b.hasToken
    ensures Run(s, Alternating(4)).procs
      == [Proc(a, Update(Judge(TransportFailed)), Some(TransportFailed)),
          Proc(b, Update(Judge(TransportFailed)), Some(TransportFailed))]
  {
    var m0, m1 := Move(0, TransportFailed), Move(1, TransportFailed);
    var s1 := Next(Next(s, m0), m1);
    assert s1.procs == [Proc(a, Insert, None), Proc(b, Insert, None)];
    var s2 := Next(Next(s1, m0), m1);
    assert s2.procs == [Proc(a, Reread, None), Proc(b, Reread, None)];
    var s3 := Next(Next(s2, m0), m1);
    assert s3.procs == [Proc(a, Send, None), Proc(b, Send, None)];
    Turn(s, 4);
    Turn(s1, 3);
    Turn(s2, 2);
    Turn(s3, 1);
  }
}
