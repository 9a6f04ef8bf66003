/**
 The append-only receipt stream: the trigger that numbers receipts, the paging query, the cursor
 that carries a page's end to the next call, and what a consumer that follows the cursors sees.
 */
module Receipts {
  import opened Options
  import opened Decimals
  import opened WorkflowTables

  const MAX_LIMIT := 500
  const EPOCH := "receipt-order-v3-2026-09-15"

  datatype OrderRow = OrderRow(eventId: string, sequence: nat)

  /** A stored event with the request that caused it and its detail text. */
  datatype Entry = Entry(event: Event, requestId: string, detail: string)

  /** `research_receipt_event_order` in insertion order, and the events by id. */
  datatype Log = Log(order: seq<OrderRow>, events: map<string, Entry>)

  function Ids(order: seq<OrderRow>): set<string> { set row | row in order :: row.eventId }

  /** Neither an event without an order row nor an order row without its event. */
  predicate Mapped(log: Log) {
    log.events.Keys == Ids(log.order)
  }

  /** Sequences are 1, 2, 3, ... and pair the order rows with the events one to one. */
  predicate LogInv(log: Log) {
    && Mapped(log)
    && (forall i :: 0 <= i < |log.order| ==> log.order[i].sequence == i + 1)
    && (forall i, j :: 0 <= i < j < |log.order| ==> log.order[i].eventId != log.order[j].eventId)
    && |log.order| <= MAX_SEQUENCE
  }

  predicate Grows(a: Log, b: Log) {
    && a.order <= b.order
    && forall id :: id in a.events ==> id in b.events && b.events[id] == a.events[id]
  }

  // ----- cursors

  /** The JSON record inside a cursor; a missing or wrongly typed member is `None`. */
  datatype CursorBody = CursorBody(v: int, e: Option<string>, s: Option<string>, t: Option<string>)

  /** `btoa(JSON.stringify(..))`, its partial inverse, and the test for a parseable timestamp. */
  datatype Codec = Codec(seal: CursorBody -> string, open: string -> Option<CursorBody>, isInstant: string -> bool)

  ghost predicate Lawful(codec: Codec) {
    forall body :: codec.open(codec.seal(body)) == Some(body)
  }

  function Encode(codec: Codec, sequence: string): string {
    "rcpt3." + codec.seal(CursorBody(3, Some(EPOCH), Some(sequence), None))
  }

  datatype Position = FromStart | After(sequence: string) | BadCursor

  function Decode(codec: Codec, value: Option<string>): Position {
    if value == None || value.value == "" then FromStart
    else
      var text := value.value;
      if "rcpt3." <= text then
        match codec.open(text[6..])
        case None => BadCursor
        case Some(body) =>
          if body.v == 3 && body.e == Some(EPOCH) && body.s.Some? && IsSequenceText(body.s.value, true)
          then After(body.s.value) else BadCursor
      else if "rcpt2." <= text then
        match codec.open(text[6..])
        case None => BadCursor
        case Some(body) =>
          if body.v == 2 && body.s.Some? && IsSequenceText(body.s.value, false) then After("0") else BadCursor
      else if "rcpt1." <= text then
        match codec.open(text[6..])
        case None => BadCursor
        case Some(body) =>
          if body.v == 1 && body.t.Some? && codec.isInstant(body.t.value) then After("0") else BadCursor
      else if !("rcpt" <= text) && codec.isInstant(text) then After("0")
      else BadCursor
  }

  /** A cursor comes back as the sequence it was made from. */
  lemma CursorRoundTrip(codec: Codec, sequence: string)
    requires Lawful(codec) && IsSequenceText(sequence, true)
    ensures Decode(codec, Some(Encode(codec, sequence))) == After(sequence)
  {
    var body := CursorBody(3, Some(EPOCH), Some(sequence), None);
    var text := Encode(codec, sequence);
    assert "rcpt3." <= text && text[6..] == codec.seal(body);
  }

  /** The sequence in an accepted cursor is the decimal of its value, the one the server writes for that position. */
  lemma OneTextPerPosition(codec: Codec, text: string, value: string)
    requires Decode(codec, Some(value)) == After(text) && "rcpt3." <= value
    ensures AllDigits(text) && text == Decimal(Value(text)) && Value(text) <= MAX_SEQUENCE
    ensures Lawful(codec) ==> Decode(codec, Some(Encode(codec, Decimal(Value(text))))) == After(text)
  {
    DecimalOfValue(text);
    if Lawful(codec) {
      CursorRoundTrip(codec, text);
    }
  }

  /** No cursor of an earlier format names a position: it is refused or restarts at zero. */
  lemma LegacyCursorsRestart(codec: Codec, value: Option<string>)
    requires value.Some? ==> !("rcpt3." <= value.value)
    ensures Decode(codec, value) in {FromStart, After("0"), BadCursor}
  {
  }

  /** A well formed cursor of an earlier format restarts at zero, any other is refused; and so is another epoch. */
  lemma CursorMeaning(codec: Codec, body: CursorBody, rest: string)
    requires codec.open(rest) == Some(body)
    ensures Decode(codec, Some("rcpt3." + rest))
      == if body.v == 3 && body.e == Some("receipt-order-v3-2026-09-15")
            && body.s.Some? && IsSequenceText(body.s.value, true)
         then After(body.s.value) else BadCursor
    ensures Decode(codec, Some("rcpt2." + rest))
      == if body.v == 2 && body.s.Some? && IsSequenceText(body.s.value, false) then After("0") else BadCursor
    ensures Decode(codec, Some("rcpt1." + rest))
      == if body.v == 1 && body.t.Some? && codec.isInstant(body.t.value) then After("0") else BadCursor
  {
    assert ("rcpt3." + rest)[6..] == rest && ("rcpt2." + rest)[6..] == rest && ("rcpt1." + rest)[6..] == rest;
    assert ("rcpt2." + rest)[4] == '2' && ("rcpt1." + rest)[4] == '1';
  }

  /** A missing cursor asks for everything, a timestamp restarts at zero, and nothing else is a cursor. */
  lemma PlainCursorMeaning(codec: Codec, text: string)
    requires !("rcpt" <= text)
    ensures Decode(codec, None) == FromStart
    ensures Decode(codec, Some(text))
      == if text == "" then FromStart else if codec.isInstant(text) then After("0") else BadCursor
  {
    NotTagged(text, "rcpt3.");
    NotTagged(text, "rcpt2.");
    NotTagged(text, "rcpt1.");
  }

  lemma NotTagged(text: string, tag: string)
    requires !("rcpt" <= text) && |tag| == 6 && tag[..4] == "rcpt"
    ensures !(tag <= text)
  {
    assert |text| >= 4 ==> text[..4] != "rcpt";
    assert |text| >= 6 ==> text[..6][..4] == text[..4];
  }

  // ----- pages

  datatype PageResult = Page(next: Option<string>, rows: seq<OrderRow>) | IntegrityFailed | StoreUnavailable

  function Rows(log: Log, after: nat, limit: nat): seq<OrderRow> {
    var from := if after < |log.order| then after else |log.order|;
    var upto := if from + limit < |log.order| then from + limit else |log.order|;
    log.order[from..upto]
  }

  /** What one call answers, in terms of the log. */
  function Serve(codec: Codec, log: Log, since: Option<string>, limit: int): PageResult {
    var position := Decode(codec, since);
    if limit < 1 || limit > MAX_LIMIT || position == BadCursor then IntegrityFailed
    else if !Mapped(log) then StoreUnavailable
    else
      var rows := Rows(log, Offset(position), limit);
      Page(if rows == [] then since else Some(Encode(codec, Decimal(rows[|rows| - 1].sequence))), rows)
  }

  /** When a call is refused. */
  lemma RefusedPages(codec: Codec, log: Log, since: Option<string>, limit: int)
    ensures var page := Serve(codec, log, since, limit);
      && (page == IntegrityFailed <==> limit < 1 || limit > 500 || Decode(codec, since) == BadCursor)
      && (page == StoreUnavailable
          <==> page != IntegrityFailed && log.events.Keys != set row | row in log.order :: row.eventId)
  {
  }

  /** `CAST(? AS INTEGER)` of a decoded cursor; no cursor asks for everything. */
  function Offset(position: Position): nat {
    if position.After? && AllDigits(position.sequence) then Value(position.sequence) else 0
  }

  // ----- receipt items

  datatype Item = Item(receiptId: string, jobId: string, kind: EventKind, occurredAt: int, actor: string,
                       proposalId: Option<string>, origin: Option<Origin>, requestId: string, reason: Option<string>)

  /** The truncated hash of an event id, and the string `reason` of a detail text that parses to one. */
  datatype Reader = Reader(short: string -> string, reason: string -> Option<string>)

  function ItemOf(entry: Entry, eventId: string, reader: Reader): Item {
    var e := entry.event;
    Item("rcpt_" + reader.short(eventId), e.jobId, e.kind, e.createdAt, e.actor, e.proposalId, e.origin,
         entry.requestId, reader.reason(entry.detail))
  }

  /** An item shows the fields of its event. */
  lemma ItemMeaning(entry: Entry, eventId: string, reader: Reader)
    ensures var item := ItemOf(entry, eventId, reader);
      && item.jobId == entry.event.jobId && item.kind == entry.event.kind && item.occurredAt == entry.event.createdAt
      && item.actor == entry.event.actor && item.proposalId == entry.event.proposalId
      && item.origin == entry.event.origin && item.requestId == entry.requestId
      && item.reason == reader.reason(entry.detail) && item.receiptId == "rcpt_" + reader.short(eventId)
  {
  }

  predicate Projects(log: Log, rows: seq<OrderRow>, items: seq<Item>, reader: Reader) {
    && |items| == |rows|
    && forall i :: 0 <= i < |rows| ==>
         rows[i].eventId in log.events && items[i] == ItemOf(log.events[rows[i].eventId], rows[i].eventId, reader)
  }

  /**
   A receipt can be recognized: one event gives the same item in every later state of the log, and different
   events have different receipt ids, so a consumer that restarts can drop what it has.
   */
  lemma ItemsAreStable(a: Log, b: Log, x: OrderRow, y: OrderRow, reader: Reader)
    requires LogInv(a) && LogInv(b) && Grows(a, b) && x in a.order && y in b.order
    requires reader.short(x.eventId) == reader.short(y.eventId) ==> x.eventId == y.eventId
    ensures x.eventId in a.events && y.eventId in b.events
    ensures var p := ItemOf(a.events[x.eventId], x.eventId, reader);
            var q := ItemOf(b.events[y.eventId], y.eventId, reader);
            (p.receiptId == q.receiptId <==> x == y) && (x == y ==> p == q)
  {
    assert x.eventId in Ids(a.order) && y.eventId in Ids(b.order);
    var i :| 0 <= i < |a.order| && a.order[i] == x;
    var k :| 0 <= k < |b.order| && b.order[k] == y;
    assert b.order[i] == x;
    var s, t := reader.short(x.eventId), reader.short(y.eventId);
    assert ("rcpt_" + s)[5..] == s && ("rcpt_" + t)[5..] == t;
  }

  class ReceiptStore {
    var order: seq<OrderRow>
    var events: map<string, Entry>
    var nextSequence: nat

    function Contents(): Log
      reads this
    {
      Log(order, events)
    }

    ghost predicate Valid()
      reads this
    {
      LogInv(Contents()) && nextSequence == |order| + 1
    }

    /** Migration 0007: number the existing events in the given order. */
    constructor (existing: seq<string>, stored: map<string, Entry>)
      requires forall i, j :: 0 <= i < j < |existing| ==> existing[i] != existing[j]
      requires stored.Keys == set id | id in existing
      requires |existing| <= MAX_SEQUENCE
      ensures Valid() && events == stored && |order| == |existing|
      ensures forall i :: 0 <= i < |existing| ==> order[i].eventId == existing[i]
    {
      order := seq(|existing|, i requires 0 <= i < |existing| => OrderRow(existing[i], i + 1));
      events := stored;
      nextSequence := |existing| + 1;
      new;
      assert forall i :: 0 <= i < |order| ==> order[i] in order && order[i].eventId == existing[i];
    }

    /** The insert of one event and the trigger that numbers it, in one transaction. */
    method Append(id: string, entry: Entry)
      requires Valid() && id !in events && |order| < MAX_SEQUENCE
      modifies this
      ensures Valid() && Grows(old(Contents()), Contents())
      ensures order == old(order) + [OrderRow(id, |old(order)| + 1)] && events == old(events)[id := entry]
    {
      events := events[id := entry];
      order := order + [OrderRow(id, nextSequence)];
      nextSequence := nextSequence + 1;
      assert Ids(order) == Ids(old(order)) + {id};
    }

    /** `WHERE receipt_sequence > ? ORDER BY receipt_sequence LIMIT ?`, one row at a time. */
    method Query(after: nat, limit: nat) returns (rows: seq<OrderRow>)
      requires Valid()
      ensures rows == Rows(Contents(), after, limit)
    {
      rows := [];
      for i := 0 to |order|
        invariant rows == if i <= after then []
                          else if i - after <= limit then order[after..i] else order[after..after + limit]
      {
        if order[i].sequence > after && |rows| < limit {
          rows := rows + [order[i]];
        }
      }
    }

    /** One item per row. */
    method Items(rows: seq<OrderRow>, reader: Reader) returns (items: seq<Item>)
      requires Valid() && forall row :: row in rows ==> row in order
      ensures Projects(Contents(), rows, items, reader)
    {
      items := [];
      for i := 0 to |rows|
        invariant Projects(Contents(), rows[..i], items, reader)
      {
        assert rows[i] in rows && rows[i].eventId in Ids(order);
        items := items + [ItemOf(events[rows[i].eventId], rows[i].eventId, reader)];
      }
      assert rows[..|rows|] == rows;
    }

    method List(codec: Codec, reader: Reader, since: Option<string>, limit: int)
      returns (result: PageResult, items: seq<Item>)
      requires Valid()
      ensures result == Serve(codec, Contents(), since, limit)
      ensures Projects(Contents(), if result.Page? then result.rows else [], items, reader)
    {
      if limit < 1 || limit > MAX_LIMIT {
        return IntegrityFailed, [];
      }
      var position := Decode(codec, since);
      if position == BadCursor {
        return IntegrityFailed, [];
      }
      if !Mapped(Contents()) {
        return StoreUnavailable, [];
      }
      var rows := Query(Offset(position), limit);
      items := Items(rows, reader);
      var next := since;
      if rows != [] {
        next := Some(Encode(codec, Decimal(rows[|rows| - 1].sequence)));
      }
      result := Page(next, rows);
    }
  }

  // ----- following the cursors

  /** The cursor `next` stands right after the first `n` receipts. */
  ghost predicate StandsAt(codec: Codec, next: Option<string>, n: nat) {
    if next == None then n == 0 else n >= 1 && n <= MAX_SEQUENCE && next == Some(Encode(codec, Decimal(n)))
  }

  lemma StandsDecodes(codec: Codec, next: Option<string>, n: nat)
    requires Lawful(codec) && StandsAt(codec, next, n)
    ensures Decode(codec, next) != BadCursor && Offset(Decode(codec, next)) == n
  {
    if next.Some? {
      DecimalIsSequenceText(n);
      CursorRoundTrip(codec, Decimal(n));
    }
  }

  /** From position `n` the page is the next rows of the log and its cursor stands after them. */
  ghost predicate PageFrom(page: PageResult, stands: (Option<string>, nat) -> bool, order: seq<OrderRow>, n: nat) {
    && page.Page? && n + |page.rows| <= |order| && page.rows == order[n..n + |page.rows|]
    && stands(page.next, n + |page.rows|)
    && (page.rows == [] ==> n == |order|)
  }

  /** The rows of a page that starts right after the first `n` receipts. */
  lemma RowsFrom(log: Log, n: nat, limit: nat)
    requires LogInv(log) && n <= |log.order| && limit >= 1
    ensures var rows := Rows(log, n, limit);
      && n + |rows| <= |log.order| && rows == log.order[n..n + |rows|]
      && (rows == [] <==> n == |log.order|)
      && (rows != [] ==> rows[|rows| - 1].sequence == n + |rows|)
  {
    var rows := Rows(log, n, limit);
    if rows != [] {
      assert rows[|rows| - 1] == log.order[n + |rows| - 1];
    }
  }

  /** What a call answers from there. */
  lemma ServeAnswers(codec: Codec, log: Log, next: Option<string>, n: nat, limit: int)
    requires Lawful(codec) && LogInv(log) && StandsAt(codec, next, n) && 1 <= limit <= MAX_LIMIT
    ensures var rows := Rows(log, n, limit);
      Serve(codec, log, next, limit)
      == Page(if rows == [] then next else Some(Encode(codec, Decimal(rows[|rows| - 1].sequence))), rows)
  {
    StandsDecodes(codec, next, n);
  }

  lemma ServeFrom(codec: Codec, log: Log, next: Option<string>, n: nat, limit: int)
    requires Lawful(codec) && LogInv(log) && StandsAt(codec, next, n) && n <= |log.order|
    requires 1 <= limit <= MAX_LIMIT
    ensures PageFrom(Serve(codec, log, next, limit), Stands(codec), log.order, n)
  {
    RowsFrom(log, n, limit);
    ServeAnswers(codec, log, next, n, limit);
  }

  ghost function Stands(codec: Codec): (Option<string>, nat) -> bool {
    (next, n: nat) => StandsAt(codec, next, n)
  }

  type Server = (Log, Option<string>, int) -> PageResult

  function ServerOf(codec: Codec): Server {
    (log, since, limit) => Serve(codec, log, since, limit)
  }

  /** A consumer that follows `next_since`, one call per log, with any limits. */
  function Follow(serve: Server, logs: seq<Log>, limits: seq<int>, next: Option<string>): seq<OrderRow>
    requires |logs| == |limits|
    decreases |logs|
  {
    if logs == [] then []
    else
      match serve(logs[0], next, limits[0])
      case Page(after, rows) => rows + Follow(serve, logs[1..], limits[1..], after)
      case _ => []
  }

  ghost predicate PagesFrom(serve: Server, stands: (Option<string>, nat) -> bool) {
    forall log: Log, next: Option<string>, n: nat, limit: int ::
      LogInv(log) && stands(next, n) && n <= |log.order| && 1 <= limit <= MAX_LIMIT ==>
        PageFrom(serve(log, next, limit), stands, log.order, n)
  }

  lemma ServerPages(codec: Codec)
    requires Lawful(codec)
    ensures PagesFrom(ServerOf(codec), Stands(codec)) && Stands(codec)(None, 0)
  {
    forall log: Log, next: Option<string>, n: nat, limit: int
      | LogInv(log) && Stands(codec)(next, n) && n <= |log.order| && 1 <= limit <= MAX_LIMIT
      ensures PageFrom(ServerOf(codec)(log, next, limit), Stands(codec), log.order, n)
    {
      ServeFrom(codec, log, next, n, limit);
    }
  }

  /** The log as each call finds it: receipts are only ever appended in between. */
  ghost predicate Growing(logs: seq<Log>) {
    logs != [] && LogInv(logs[0]) && (|logs| > 1 ==> Grows(logs[0], logs[1]) && Growing(logs[1..]))
  }

  function Latest(logs: seq<Log>): seq<OrderRow>
    requires logs != []
  {
    logs[|logs| - 1].order
  }

  lemma {:induction false} GrowingToLatest(logs: seq<Log>)
    requires Growing(logs)
    ensures logs[0].order <= Latest(logs)
    decreases |logs|
  {
    if |logs| > 1 {
      GrowingToLatest(logs[1..]);
    }
  }

  ghost predicate IsPiece(stream: seq<OrderRow>, n: nat, piece: seq<OrderRow>) {
    n + |piece| <= |stream| && piece == stream[n..n + |piece|]
  }

  /** Two adjacent pieces of a stream are one piece. */
  lemma PiecesJoin(stream: seq<OrderRow>, n: nat, a: seq<OrderRow>, b: seq<OrderRow>)
    requires IsPiece(stream, n, a) && IsPiece(stream, n + |a|, b)
    ensures IsPiece(stream, n, a + b)
  {
  }

  /** One page of a log that goes on growing is a piece of the latest stream. */
  lemma PageOfLatest(serve: Server, stands: (Option<string>, nat) -> bool, logs: seq<Log>, limit: int,
                     next: Option<string>, n: nat)
    requires PagesFrom(serve, stands) && Growing(logs) && 1 <= limit <= MAX_LIMIT && stands(next, n)
      && n <= |logs[0].order|
    ensures var page := serve(logs[0], next, limit);
      && page.Page? && n + |page.rows| <= |logs[0].order|
      && IsPiece(Latest(logs), n, page.rows) && stands(page.next, n + |page.rows|)
  {
    assert PageFrom(serve(logs[0], next, limit), stands, logs[0].order, n);
    GrowingToLatest(logs);
  }

  predicate LimitsOk(limits: seq<int>) {
    forall i :: 0 <= i < |limits| ==> 1 <= limits[i] <= MAX_LIMIT
  }

  lemma {:induction false} FollowFrom(serve: Server, stands: (Option<string>, nat) -> bool, logs: seq<Log>,
                                      limits: seq<int>, next: Option<string>, n: nat)
    requires PagesFrom(serve, stands) && Growing(logs) && |logs| == |limits| && LimitsOk(limits)
    requires stands(next, n) && n <= |logs[0].order|
    ensures IsPiece(Latest(logs), n, Follow(serve, logs, limits, next))
    decreases |logs|
  {
    var page := serve(logs[0], next, limits[0]);
    PageOfLatest(serve, stands, logs, limits[0], next, n);
    var rest := Follow(serve, logs[1..], limits[1..], page.next);
    if |logs| > 1 {
      FollowFrom(serve, stands, logs[1..], limits[1..], page.next, n + |page.rows|);
    }
    PiecesJoin(Latest(logs), n, page.rows, rest);
  }

  /**
   Nothing missed, nothing repeated: whatever is appended between the calls and whatever the page
   limits, the pages concatenate to a prefix of the stream in sequence order.
   */
  lemma PagesAreAPrefix(codec: Codec, logs: seq<Log>, limits: seq<int>)
    requires Lawful(codec) && Growing(logs) && |logs| == |limits|
    requires LimitsOk(limits)
    ensures Follow(ServerOf(codec), logs, limits, None) <= Latest(logs)
  {
    ServerPages(codec);
    FollowFrom(ServerOf(codec), Stands(codec), logs, limits, None, 0);
  }

  lemma {:induction false} DrainFrom(serve: Server, stands: (Option<string>, nat) -> bool, log: Log, limits: seq<int>,
                                     next: Option<string>, n: nat)
    requires PagesFrom(serve, stands) && LogInv(log) && stands(next, n) && n <= |log.order|
    requires |limits| >= |log.order| - n
    requires LimitsOk(limits)
    ensures Follow(serve, seq(|limits|, _ => log), limits, next) == log.order[n..]
    decreases |limits|
  {
    var logs := seq(|limits|, _ => log);
    if limits != [] {
      var page := serve(log, next, limits[0]);
      assert PageFrom(page, stands, log.order, n);
      assert logs[1..] == seq(|limits[1..]|, _ => log);
      var m := n + |page.rows|;
      DrainFrom(serve, stands, log, limits[1..], page.next, m);
      assert log.order[n..m] + log.order[m..] == log.order[n..];
    }
  }

  /** Paging a log that no longer grows ends: as many calls as receipts deliver all of them. */
  lemma FixedLogDrains(codec: Codec, log: Log, limits: seq<int>)
    requires Lawful(codec) && LogInv(log) && |limits| >= |log.order|
    requires LimitsOk(limits)
    ensures Follow(ServerOf(codec), seq(|limits|, _ => log), limits, None) == log.order
  {
    ServerPages(codec);
    DrainFrom(ServerOf(codec), Stands(codec), log, limits, None, 0);
  }
}
