/**
 Receipts of state writes, keyed by write key: one payload per key, one holder at a time, and an end
 state that nothing leaves.  The transactions are the three statements; `StateReceiptCalls` has the calls.
 */
module StateReceipts {
  import opened Options

  datatype Channel = Market | Industry | Company | Close
  datatype Status = Pending | Persisted | IdempotentReplay | OutcomeUnknown | Conflict | Failed

  /** What a finalize records beside the status. */
  datatype Report = Report(
    commentId: Option<string>, commentUrl: Option<string>, errorCode: Option<string>, errorPhase: Option<string>,
    httpStatus: Option<int>, envelopeKey: Option<string>, eventCount: Option<int>)

  const NoReport := Report(None, None, None, None, None, None, None)

  datatype Row = Row(channel: Channel, payload: string, status: Status, attempts: nat, owner: Option<string>,
                     until: Option<int>, createdAt: int, updatedAt: int, report: Report)

  type Table = map<string, Row>

  datatype Op =
    | InsertOp(key: string, channel: Channel, payload: string, now: int)
    | AcquireOp(key: string, channel: Channel, payload: string, id: string, now: int, until: int)
    | FinalizeOp(key: string, id: string, status: Status, report: Report, now: int)

  function NewRow(channel: Channel, payload: string, now: int): Row {
    Row(channel, payload, Pending, 0, None, None, now, now, NoReport)
  }

  predicate IsFinal(status: Status) {
    status == Persisted || status == IdempotentReplay || status == Conflict
  }

  function Held(row: Row, id: string, now: int, until: int): Row {
    row.(status := Pending, attempts := row.attempts + 1, owner := Some(id), until := Some(until), updatedAt := now)
  }

  /** The WHERE clause of the acquiring update. */
  predicate Acquirable(row: Row, channel: Channel, payload: string, id: string, now: int) {
    && row.payload == payload && row.channel == channel && !IsFinal(row.status)
    && (row.owner.None? || row.until.None? || row.until.value < now || row.owner == Some(id))
  }

  function Step(t: Table, op: Op): Table {
    match op
    case InsertOp(key, channel, payload, now) => if key in t then t else t[key := NewRow(channel, payload, now)]
    case AcquireOp(key, channel, payload, id, now, until) =>
      if key in t && Acquirable(t[key], channel, payload, id, now)
      then t[key := Held(t[key], id, now, until)]
      else t
    case FinalizeOp(key, id, status, report, now) =>
      if key in t && t[key].owner == Some(id)
      then t[key := t[key].(status := status, owner := None, until := None, updatedAt := now, report := report)]
      else t
  }

  function Run(t: Table, ops: seq<Op>): Table
    decreases |ops|
  {
    if ops == [] then t else Run(Step(t, ops[0]), ops[1..])
  }

  lemma {:induction false} RunConcat(t: Table, a: seq<Op>, b: seq<Op>)
    ensures Run(t, a + b) == Run(Run(t, a), b)
    decreases |a|
  {
    if a == [] {
      assert a + b == b;
    } else {
      RunConcat(Step(t, a[0]), a[1..], b);
      assert (a + b)[1..] == a[1..] + b;
    }
  }

  // ----- what never changes

  /** A final row has no holder; a holder has an expiry. */
  predicate RowInv(row: Row) {
    && (IsFinal(row.status) ==> row.owner == None)
    && (row.owner.Some? <==> row.until.Some?)
  }

  ghost predicate Inv(t: Table) {
    forall key :: key in t ==> RowInv(t[key])
  }

  lemma {:induction false} RunInv(t: Table, ops: seq<Op>)
    requires Inv(t)
    ensures Inv(Run(t, ops))
    decreases |ops|
  {
    if ops != [] {
      RunInv(Step(t, ops[0]), ops[1..]);
    }
  }

  /** The first insert fixes channel, payload and creation time; attempts only grow. */
  lemma {:induction false} PayloadIsFixed(t: Table, ops: seq<Op>, key: string)
    requires key in t
    ensures key in Run(t, ops)
    ensures Run(t, ops)[key].payload == t[key].payload && Run(t, ops)[key].channel == t[key].channel
    ensures Run(t, ops)[key].createdAt == t[key].createdAt
    ensures t[key].attempts <= Run(t, ops)[key].attempts
    decreases |ops|
  {
    if ops != [] {
      PayloadIsFixed(Step(t, ops[0]), ops[1..], key);
    }
  }

  /** PERSISTED, IDEMPOTENT_REPLAY and CONFLICT are ends: the row is then constant and nobody holds it. */
  lemma {:induction false} FinalIsConstant(t: Table, ops: seq<Op>, key: string)
    requires Inv(t) && key in t && IsFinal(t[key].status)
    ensures key in Run(t, ops) && Run(t, ops)[key] == t[key] && t[key].owner == None
    decreases |ops|
  {
    if ops != [] {
      assert RowInv(t[key]);
      RunInv(t, [ops[0]]);
      assert Run(t, [ops[0]]) == Step(t, ops[0]) by {
        assert [ops[0]][1..] == [];
      }
      FinalIsConstant(Step(t, ops[0]), ops[1..], key);
    }
  }

  // ----- what the statements write, field by field

  lemma InsertMeaning(t: Table, key: string, channel: Channel, payload: string, now: int)
    ensures var u := Step(t, InsertOp(key, channel, payload, now));
      if key in t then u == t
      else u == t[key := Row(channel, payload, Pending, 0, None, None, now, now, NoReport)]
  {
  }

  /** A lease is granted for the row's own payload and channel, while it is not final, and only when it is free. */
  lemma AcquireMeaning(t: Table, key: string, channel: Channel, payload: string, id: string, now: int, until: int)
    requires Inv(t) && key in t
    ensures var u := Step(t, AcquireOp(key, channel, payload, id, now, until)); var row := t[key];
      if row.payload == payload && row.channel == channel
         && row.status != Persisted && row.status != IdempotentReplay && row.status != Conflict
         && (row.owner == None || row.owner == Some(id) || row.until.value < now)
      then u == t[key := Row(channel, payload, Pending, row.attempts + 1, Some(id), Some(until), row.createdAt, now,
                             row.report)]
      else u == t
  {
    assert RowInv(t[key]);
  }

  /** A finalize by the holder records exactly its status and report and lets go; by anybody else, nothing. */
  lemma FinalizeMeaning(t: Table, key: string, id: string, status: Status, report: Report, now: int)
    ensures var u := Step(t, FinalizeOp(key, id, status, report, now));
      if key in t && t[key].owner == Some(id)
      then u == t[key := Row(t[key].channel, t[key].payload, status, t[key].attempts, None, None, t[key].createdAt, now,
                             report)]
      else u == t
  {
  }

  /** A write its holder finalized as PERSISTED stays so, with its report, whatever happens after. */
  lemma PersistedForGood(t: Table, key: string, id: string, report: Report, now: int, ops: seq<Op>)
    requires Inv(t) && key in t && t[key].owner == Some(id)
    ensures var u := Run(Step(t, FinalizeOp(key, id, Persisted, report, now)), ops);
      && key in u && u[key].status == Persisted && u[key].owner == None && u[key].report == report
      && u[key].payload == t[key].payload && u[key].channel == t[key].channel && u[key].updatedAt == now
  {
    var op := FinalizeOp(key, id, Persisted, report, now);
    RunInv(t, [op]);
    assert Run(t, [op]) == Step(t, op) by {
      assert [op][1..] == [];
    }
    FinalIsConstant(Step(t, op), ops, key);
  }

  // ----- the holder

  /** An operation of a request other than `id`, made no later than `until`. */
  predicate ByOther(op: Op, id: string, until: int) {
    match op
    case InsertOp(_, _, _, _) => true
    case AcquireOp(_, _, _, other, now, _) => other != id && now <= until
    case FinalizeOp(_, other, _, _, _) => other != id
  }

  /** Until a lease expires no other request changes anything in the row, its finalize included. */
  lemma {:induction false} LeaseProtects(t: Table, ops: seq<Op>, key: string, id: string)
    requires key in t && t[key].owner == Some(id) && t[key].until.Some?
    requires forall k :: 0 <= k < |ops| ==> ByOther(ops[k], id, t[key].until.value)
    ensures key in Run(t, ops) && Run(t, ops)[key] == t[key]
    decreases |ops|
  {
    if ops != [] {
      assert ByOther(ops[0], id, t[key].until.value);
      assert forall k :: 0 <= k < |ops[1..]| ==> ops[1..][k] == ops[k + 1];
      LeaseProtects(Step(t, ops[0]), ops[1..], key, id);
    }
  }

  /** After it, the row changes hands exactly for a later, well-formed attempt. */
  lemma TakeoverIff(t: Table, key: string, id: string, op: Op)
    requires Inv(t) && key in t && t[key].owner == Some(id) && op.key == key && op.AcquireOp? && op.id != id
    ensures Step(t, op)[key].owner == Some(op.id)
        <==> op.payload == t[key].payload && op.channel == t[key].channel && t[key].until.value < op.now
    ensures Step(t, op)[key].owner != Some(op.id) ==> Step(t, op) == t
  {
    assert RowInv(t[key]);
  }

  /** A request that lost its lease stays out until it acquires again: its finalize changes nothing. */
  lemma {:induction false} SupersededCommitsNothing(t: Table, ops: seq<Op>, key: string, id: string, status: Status,
                                                    report: Report, now: int)
    requires key in t && t[key].owner != Some(id)
    requires forall k :: 0 <= k < |ops| ==> !(ops[k].AcquireOp? && ops[k].key == key && ops[k].id == id)
    ensures Step(Run(t, ops), FinalizeOp(key, id, status, report, now)) == Run(t, ops)
    decreases |ops|
  {
    if ops != [] {
      assert !(ops[0].AcquireOp? && ops[0].key == key && ops[0].id == id);
      assert forall k :: 0 <= k < |ops[1..]| ==> ops[1..][k] == ops[k + 1];
      SupersededCommitsNothing(Step(t, ops[0]), ops[1..], key, id, status, report, now);
    }
  }

  // ----- histories with a clock

  /** One period of holding: from the grant to the expiry or the release, whichever came first. */
  datatype Holding = Holding(id: string, from: int, end: int)

  /** `since`: when the present holder's grant began; `past`: the holdings that ended; `clock`: the last operation. */
  datatype History = History(t: Table, clock: int, since: int, past: seq<Holding>, grants: nat)

  function Min(a: int, b: int): int { if a <= b then a else b }

  function Ended(h: History, key: string, now: int): seq<Holding> {
    if key in h.t && h.t[key].owner.Some? && h.t[key].until.Some?
    then h.past + [Holding(h.t[key].owner.value, h.since, Min(h.t[key].until.value, now))] else h.past
  }

  /** One operation as seen by the history of `key`; a renewal in time prolongs the holding. */
  function Observe(h: History, key: string, op: Op): History {
    var t := Step(h.t, op);
    if key !in h.t || op.key != key || op.InsertOp? then h.(t := t, clock := op.now)
    else
      match op
      case AcquireOp(_, channel, payload, id, now, _) =>
        if !Acquirable(h.t[key], channel, payload, id, now) then h.(clock := now)
        else if h.t[key].owner == Some(id) && h.t[key].until.Some? && now <= h.t[key].until.value
        then History(t, now, h.since, h.past, h.grants + 1)
        else History(t, now, now, Ended(h, key, now), h.grants + 1)
      case FinalizeOp(_, id, _, _, now) =>
        if h.t[key].owner != Some(id) then h.(clock := now) else History(t, now, h.since, Ended(h, key, now), h.grants)
      case InsertOp(_, _, _, _) => h
  }

  function Follow(h: History, key: string, ops: seq<Op>): History
    decreases |ops|
  {
    if ops == [] then h else Follow(Observe(h, key, ops[0]), key, ops[1..])
  }

  /** Time does not go back, and a grant lasts until after its own time. */
  predicate Monotone(clock: int, ops: seq<Op>)
    decreases |ops|
  {
    ops == [] || (clock <= ops[0].now && (ops[0].AcquireOp? ==> ops[0].now <= ops[0].until)
                  && Monotone(ops[0].now, ops[1..]))
  }

  ghost predicate HistoryInv(h: History, key: string) {
    && Inv(h.t)
    && (forall i :: 0 <= i < |h.past| ==> h.past[i].from <= h.past[i].end <= h.clock)
    && (forall i, k :: 0 <= i < k < |h.past| ==> h.past[i].end <= h.past[k].from)
    && (key in h.t && h.t[key].owner.Some? ==> BeganAfter(h) && h.since <= h.t[key].until.value && h.since <= h.clock)
    && h.grants == (if key in h.t then h.t[key].attempts else 0)
  }

  ghost predicate BeganAfter(h: History) {
    forall i :: 0 <= i < |h.past| ==> h.past[i].end <= h.since
  }

  ghost predicate Timely(h: History, op: Op) {
    h.clock <= op.now && (op.AcquireOp? ==> op.now <= op.until)
  }

  lemma ObserveAcquire(h: History, op: Op)
    requires op.AcquireOp? && op.key in h.t && HistoryInv(h, op.key) && Timely(h, op)
    ensures HistoryInv(Observe(h, op.key, op), op.key)
  {
    assert RowInv(h.t[op.key]);
  }

  lemma ObserveFinalize(h: History, op: Op)
    requires op.FinalizeOp? && op.key in h.t && HistoryInv(h, op.key) && Timely(h, op)
    ensures HistoryInv(Observe(h, op.key, op), op.key)
  {
    assert RowInv(h.t[op.key]);
  }

  lemma ObserveInv(h: History, key: string, op: Op)
    requires HistoryInv(h, key) && Timely(h, op)
    ensures HistoryInv(Observe(h, key, op), key) && Observe(h, key, op).t == Step(h.t, op)
  {
    if key in h.t && op.key == key && op.AcquireOp? {
      ObserveAcquire(h, op);
    } else if key in h.t && op.key == key && op.FinalizeOp? {
      ObserveFinalize(h, op);
    }
  }

  lemma {:induction false} FollowInv(h: History, key: string, ops: seq<Op>)
    requires HistoryInv(h, key) && Monotone(h.clock, ops)
    ensures HistoryInv(Follow(h, key, ops), key) && Follow(h, key, ops).t == Run(h.t, ops)
    decreases |ops|
  {
    if ops != [] {
      ObserveInv(h, key, ops[0]);
      FollowInv(Observe(h, key, ops[0]), key, ops[1..]);
    }
  }

  /**
   With a clock that does not go back, no two holdings of one key overlap, the present one included, and
   the row's attempt counter is the number of grants.
   */
  lemma OneHolderAtATime(start: int, key: string, ops: seq<Op>, i: nat, k: nat)
    requires Monotone(start, ops)
    requires i < k < |Holdings(start, key, ops)|
    ensures var h := Follow(History(map[], start, start, [], 0), key, ops);
      && h.t == Run(map[], ops)
      && Holdings(start, key, ops)[i].end <= Holdings(start, key, ops)[k].from
      && (key in h.t ==> h.t[key].attempts == h.grants)
  {
    FollowInv(History(map[], start, start, [], 0), key, ops);
  }

  /** All holdings of a key after a run from the empty table, the present one up to now. */
  function Holdings(start: int, key: string, ops: seq<Op>): seq<Holding> {
    var h := Follow(History(map[], start, start, [], 0), key, ops);
    Ended(h, key, h.clock)
  }
}
