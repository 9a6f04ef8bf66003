/**
 `reserveStateWrite` and `finalizeStateWriteReceipt` on the receipt table, statement by statement; before
 each statement the statements `env(n)` of other requests run.
 */
module StateReceiptCalls {
  import opened Options
  import opened StateReceipts

  ghost predicate Alone(env: nat -> seq<Op>) {
    forall n :: env(n) == []
  }

  /** The lease a reservation asks for: 120 s unless given, never under 30 s or over 600 s. */
  function LeaseUntil(now: int, seconds: Option<int>): (until: int)
    ensures now + 30_000 <= until <= now + 600_000
    ensures seconds == None ==> until == now + 120_000
    ensures seconds.Some? && 30 <= seconds.value <= 600 ==> until == now + 1000 * seconds.value
    ensures seconds.Some? && seconds.value < 30 ==> until == now + 30_000
    ensures seconds.Some? && seconds.value > 600 ==> until == now + 600_000
  {
    var wanted := if seconds.Some? then seconds.value else 120;
    now + 1000 * (if wanted < 30 then 30 else if wanted > 600 then 600 else wanted)
  }

  datatype Reservation = Reservation(acquired: bool, receipt: Row)

  /** The answer and the row of a reservation that meets no interference. */
  function LoneReserve(t: Table, key: string, channel: Channel, payload: string, id: string, now: int, until: int)
    : (Reservation, Row)
  {
    var row := if key in t then t[key] else NewRow(channel, payload, now);
    if row.payload != payload || row.channel != channel then (Reservation(false, row.(status := Conflict)), row)
    else if row.status == Persisted || row.status == IdempotentReplay then (Reservation(false, row), row)
    else if Acquirable(row, channel, payload, id, now) then
      var held := Held(row, id, now, until);
      (Reservation(true, held), held)
    else (Reservation(false, row), row)
  }

  /** What that is: each answer with its cause, and the row it leaves. */
  lemma LoneReserveMeaning(t: Table, key: string, channel: Channel, payload: string, id: string, now: int, until: int)
    requires Inv(t)
    ensures var (r, row) := LoneReserve(t, key, channel, payload, id, now, until);
      if key !in t then
        && r.acquired && r.receipt == row
        && row == Row(channel, payload, Pending, 1, Some(id), Some(until), now, now, NoReport)
      else if t[key].payload != payload || t[key].channel != channel then
        !r.acquired && r.receipt == t[key].(status := Conflict) && row == t[key]
      else if t[key].status == Persisted || t[key].status == IdempotentReplay || t[key].status == Conflict
              || (t[key].owner.Some? && t[key].owner != Some(id) && t[key].until.value >= now) then
        !r.acquired && r.receipt == t[key] && row == t[key]
      else
        && r.acquired && r.receipt == row
        && row == Row(channel, payload, Pending, t[key].attempts + 1, Some(id), Some(until), t[key].createdAt, now,
                      t[key].report)
  {
    if key in t {
      assert RowInv(t[key]);
    }
  }

  /** A row that is neither foreign nor delivered: the reservation is what the acquiring update leaves. */
  lemma LoneTaken(t: Table, key: string, channel: Channel, payload: string, id: string, now: int, until: int)
    requires key in t && RowInv(t[key]) && t[key].payload == payload && t[key].channel == channel
    requires t[key].status != Persisted && t[key].status != IdempotentReplay
    ensures var row := Step(t, AcquireOp(key, channel, payload, id, now, until))[key];
            LoneReserve(t, key, channel, payload, id, now, until) == (Reservation(row.owner == Some(id), row), row)
  {
  }

  class ReceiptTable {
    var rows: Table
    ghost var log: seq<Op>

    ghost predicate Valid()
      reads this
    {
      rows == Run(map[], log) && Inv(rows)
    }

    constructor ()
      ensures Valid() && log == [] && rows == map[]
    {
      rows, log := map[], [];
    }

    ghost method Book(before: Table, op: Op)
      requires before == Run(map[], log) && Inv(before) && rows == Step(before, op)
      modifies `log
      ensures Valid() && log == old(log) + [op]
    {
      RunConcat(map[], log, [op]);
      assert Run(before, [op]) == Step(before, op);
      RunInv(before, [op]);
      log := log + [op];
    }

    method Others(ops: seq<Op>)
      requires Valid()
      modifies this
      ensures Valid() && log == old(log) + ops && rows == Run(old(rows), ops)
      ensures ops == [] ==> rows == old(rows)
    {
      RunConcat(map[], log, ops);
      RunInv(rows, ops);
      rows := Run(rows, ops);
      log := log + ops;
    }

    /** INSERT OR IGNORE. */
    method InsertIgnore(key: string, channel: Channel, payload: string, now: int)
      requires Valid()
      modifies this
      ensures Valid() && log == old(log) + [InsertOp(key, channel, payload, now)]
      ensures rows == Step(old(rows), InsertOp(key, channel, payload, now)) && key in rows
    {
      ghost var before := rows;
      if key !in rows {
        rows := rows[key := NewRow(channel, payload, now)];
      }
      Book(before, InsertOp(key, channel, payload, now));
    }

    /** The conditional update that takes or renews the lease. */
    method Acquire(key: string, channel: Channel, payload: string, id: string, now: int, until: int)
      requires Valid()
      modifies this
      ensures Valid() && log == old(log) + [AcquireOp(key, channel, payload, id, now, until)]
      ensures rows == Step(old(rows), AcquireOp(key, channel, payload, id, now, until))
    {
      ghost var before := rows;
      if key in rows && rows[key].payload == payload && rows[key].channel == channel
         && rows[key].status !in {Persisted, IdempotentReplay, Conflict}
         && (rows[key].owner.None? || rows[key].until.None? || rows[key].until.value < now
             || rows[key].owner == Some(id)) {
        var row := rows[key];
        rows := rows[key := row.(status := Pending, attempts := row.attempts + 1,
                                 owner := Some(id), until := Some(until), updatedAt := now)];
      }
      Book(before, AcquireOp(key, channel, payload, id, now, until));
    }

    /** Record an outcome and let the lease go, if this request still holds it; `None` when there is no row. */
    method Finalize(key: string, id: string, status: Status, report: Report, now: int, env: nat -> seq<Op>)
      returns (receipt: Option<Row>)
      requires Valid()
      modifies this
      ensures Valid() && old(log) <= log
      ensures receipt == if key in rows then Some(rows[key]) else None
      ensures key in old(rows) ==> key in rows && rows[key].payload == old(rows)[key].payload
      ensures key in old(rows) && IsFinal(old(rows)[key].status) ==> rows[key] == old(rows)[key]
      ensures Alone(env) ==>
        if key in old(rows) && old(rows)[key].owner == Some(id)
        then rows == old(rows)[key := Row(old(rows)[key].channel, old(rows)[key].payload, status,
                                          old(rows)[key].attempts, None, None, old(rows)[key].createdAt, now, report)]
        else rows == old(rows)
    {
      FinalizeMeaning(rows, key, id, status, report, now);
      ghost var ops := env(0) + [FinalizeOp(key, id, status, report, now)] + env(1);
      Others(env(0));
      ghost var before := rows;
      if key in rows && rows[key].owner == Some(id) {
        rows := rows[key := rows[key].(status := status, owner := None, until := None,
                                       updatedAt := now, report := report)];
      }
      Book(before, FinalizeOp(key, id, status, report, now));
      assert Run(before, [FinalizeOp(key, id, status, report, now)]) == rows;
      Others(env(1));
      RunConcat(old(rows), env(0), [FinalizeOp(key, id, status, report, now)]);
      RunConcat(old(rows), env(0) + [FinalizeOp(key, id, status, report, now)], env(1));
      if key in old(rows) {
        PayloadIsFixed(old(rows), ops, key);
        if IsFinal(old(rows)[key].status) {
          FinalIsConstant(old(rows), ops, key);
        }
      }
      receipt := if key in rows then Some(rows[key]) else None;
    }

    /** Insert or find the row, then read it. */
    method Register(key: string, channel: Channel, payload: string, now: int, env: nat -> seq<Op>)
      returns (receipt: Row)
      requires Valid()
      modifies this
      ensures Valid() && old(log) <= log && key in rows && receipt == rows[key] && RowInv(receipt)
      ensures key in old(rows) && IsFinal(old(rows)[key].status) ==> receipt == old(rows)[key]
      ensures Alone(env) ==> rows == Step(old(rows), InsertOp(key, channel, payload, now))
    {
      ghost var start := rows;
      Others(env(0));
      InsertIgnore(key, channel, payload, now);
      ghost var inserted := rows;
      Others(env(1));
      PayloadIsFixed(inserted, env(1), key);
      if key in start && IsFinal(start[key].status) {
        FinalIsConstant(start, env(0), key);
        FinalIsConstant(inserted, env(1), key);
      }
      receipt := rows[key];
    }

    /**
     Reserve.  The payload a key was first used with decides between CONFLICT and the rest, and an
     acquired answer shows this request as the holder.
     */
    method Reserve(key: string, channel: Channel, payload: string, id: string, now: int, seconds: Option<int>,
                   env: nat -> seq<Op>)
      returns (r: Reservation)
      requires Valid()
      modifies this
      ensures Valid() && old(log) <= log && key in rows
      ensures rows[key].payload != payload || rows[key].channel != channel ==>
                !r.acquired && r.receipt.status == Conflict && r.receipt.payload == rows[key].payload
      ensures key in old(rows) && old(rows)[key].payload == payload && old(rows)[key].channel == channel
              && (old(rows)[key].status == Persisted || old(rows)[key].status == IdempotentReplay
                  || old(rows)[key].status == Conflict)
        ==> !r.acquired && r.receipt == old(rows)[key]
      ensures r.acquired ==> rows[key].owner == Some(id) && r.receipt == rows[key] && rows[key].payload == payload
      ensures !r.acquired && rows[key].payload == payload && rows[key].channel == channel ==>
                r.receipt == rows[key] && rows[key].owner != Some(id)
      ensures Alone(env) ==>
        && r == LoneReserve(old(rows), key, channel, payload, id, now, LeaseUntil(now, seconds)).0
        && rows == old(rows)[key := LoneReserve(old(rows), key, channel, payload, id, now, LeaseUntil(now, seconds)).1]
    {
      var receipt := Register(key, channel, payload, now, env);
      r := Answer(receipt, key, channel, payload, id, now, LeaseUntil(now, seconds), env);
    }

    /** The answer to a request that found `receipt`. */
    method Answer(receipt: Row, key: string, channel: Channel, payload: string, id: string, now: int, until: int,
                  env: nat -> seq<Op>) returns (r: Reservation)
      requires Valid() && key in rows && receipt == rows[key]
      modifies this
      ensures Valid() && old(log) <= log && key in rows
      ensures rows[key].payload == receipt.payload && rows[key].channel == receipt.channel
      ensures receipt.payload != payload || receipt.channel != channel ==>
        r == Reservation(false, receipt.(status := Conflict))
      ensures receipt.payload == payload && receipt.channel == channel && IsFinal(receipt.status) ==>
        r == Reservation(false, receipt) && rows[key] == receipt
      ensures receipt.payload == payload && receipt.channel == channel ==>
        r == Reservation(rows[key].owner == Some(id), rows[key])
      ensures Alone(env) ==>
        && r == LoneReserve(old(rows), key, channel, payload, id, now, until).0
        && rows == old(rows)[key := LoneReserve(old(rows), key, channel, payload, id, now, until).1]
    {
      assert RowInv(receipt);
      if receipt.payload != payload || receipt.channel != channel {
        return Reservation(false, receipt.(status := Conflict));
      }
      if receipt.status == Persisted || receipt.status == IdempotentReplay {
        return Reservation(false, receipt);
      }
      LoneTaken(rows, key, channel, payload, id, now, until);
      r := Take(key, channel, payload, id, now, until, env, 2);
    }

    method Take(key: string, channel: Channel, payload: string, id: string, now: int, until: int, env: nat -> seq<Op>,
                n: nat)
      returns (r: Reservation)
      requires Valid() && key in rows && rows[key].payload == payload && rows[key].channel == channel
      modifies this
      ensures Valid() && old(log) <= log && key in rows && rows[key].payload == payload && rows[key].channel == channel
      ensures r == Reservation(rows[key].owner == Some(id), rows[key])
      ensures IsFinal(old(rows)[key].status) ==> rows[key] == old(rows)[key] && rows[key].owner == None
      ensures Alone(env) ==> rows == Step(old(rows), AcquireOp(key, channel, payload, id, now, until))
    {
      ghost var start := rows;
      Others(env(n));
      PayloadIsFixed(old(rows), env(n), key);
      Acquire(key, channel, payload, id, now, until);
      ghost var t1 := rows;
      Others(env(n + 1));
      PayloadIsFixed(t1, env(n + 1), key);
      if IsFinal(start[key].status) {
        FinalIsConstant(start, env(n), key);
        FinalIsConstant(t1, env(n + 1), key);
      }
      r := Reservation(rows[key].owner == Some(id), rows[key]);
    }

    /** After a PERSISTED finalize by the holder and whatever others do, a reserve replays the stored write. */
    method PersistThenReserve(key: string, holder: string, report: Report, at: int, ops: seq<Op>, id: string, now: int,
                              seconds: Option<int>, env: nat -> seq<Op>) returns (r: Reservation)
      requires Valid() && key in rows && rows[key].owner == Some(holder)
      modifies this
      ensures Valid() && !r.acquired
      ensures r.receipt.status == Persisted && r.receipt.report == report && r.receipt.payload == old(rows)[key].payload
    {
      var channel, payload := rows[key].channel, rows[key].payload;
      PersistedForGood(rows, key, holder, report, at, ops);
      FinalizeMeaning(rows, key, holder, Persisted, report, at);
      var _ := Finalize(key, holder, Persisted, report, at, _ => []);
      Others(ops);
      r := Reserve(key, channel, payload, id, now, seconds, env);
    }
  }
}
