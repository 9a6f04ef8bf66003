/**
 The storage and write budget of the replica, as a state machine over every statement of every ingest
 call.  A call that is never moved again has crashed; `Fail` is a call whose store answered an error.
 Deletions by retention may happen between any two statements and give nothing back.
 */
module ReplicaBudget {
  import opened Options
  import opened Totals

  const MAX_STORED_BYTES := 9_800_000_000
  const MAX_MONTHLY_WRITES := 990_000

  datatype Content = Content(hash: string, bytes: nat)

  /** One call with a verified record; `period` is the calendar month of its `now`. */
  datatype Call = Call(messageId: string, period: int, journalBytes: nat, content: Option<Content>)

  datatype Status = Applied | Replay | RateLimited | Unavailable

  /** The statement a call runs next. */
  datatype Pc =
    | CheckReplay | NameUsage | SwitchPeriod | Reserve | PutJournal | PutObject | Commit | Health
    | Answer
    | Done(status: Status)

  /**
   `paid`: the period its writes were reserved in; `inserted`: its batch inserted the message row;
   `counted`: the health row has counted that.
   */
  datatype Proc = Proc(call: Call, pc: Pc, paid: int, inserted: bool, counted: bool)

  /** The row `primary` of `research_replica_usage`. */
  datatype Usage = Usage(period: int, stored: nat, writes: nat)

  datatype Key = JournalKey(messageId: string) | ObjectKey(hash: string)

  /**
   `puts` is a history: for each month, the puts made on writes reserved while the row showed it.
   `purged` are the keys that were in R2 until retention deleted them.
   */
  datatype System = System(usage: Option<Usage>, objects: map<Key, nat>, messages: set<string>, accepted: nat,
                           procs: seq<Proc>, puts: multiset<int>, purged: set<Key>)

  const Empty := System(None, map[], {}, 0, [], multiset{}, {})

  datatype Step = Join(call: Call) | Move(i: nat) | Fail(i: nat) | Delete(key: Key)

  function Bytes(c: Call): nat {
    c.journalBytes + match c.content case Some(o) => o.bytes case None => 0
  }

  function Writes(c: Call): nat {
    if c.content.Some? then 2 else 1
  }

  function Admits(u: Option<Usage>, c: Call): bool {
    u.Some? && u.value.stored + Bytes(c) <= MAX_STORED_BYTES && u.value.writes + Writes(c) <= MAX_MONTHLY_WRITES
  }

  function Put(s: System, key: Key, bytes: nat, paid: int): System {
    s.(objects := s.objects[key := bytes], puts := s.puts[paid := s.puts[paid] + 1])
  }

  /** The next statement of a call: the new system and the call after it. */
  function Advance(s: System, p: Proc): (System, Proc) {
    match p.pc
    case CheckReplay => (s, p.(pc := if p.call.messageId in s.messages then Done(Replay) else NameUsage))
    case NameUsage => (
      if s.usage.None? then s.(usage := Some(Usage(p.call.period, 0, 0))) else s,
      p.(pc := SwitchPeriod))
    case SwitchPeriod => (
      if s.usage.Some? && s.usage.value.period != p.call.period
      then s.(usage := Some(Usage(p.call.period, s.usage.value.stored, 0))) else s,
      p.(pc := Reserve))
    case Reserve =>
      if Admits(s.usage, p.call) then
        var u := s.usage.value;
        (s.(usage := Some(Usage(u.period, u.stored + Bytes(p.call), u.writes + Writes(p.call)))),
         p.(pc := PutJournal, paid := u.period))
      else (s, p.(pc := Done(RateLimited)))
    case PutJournal =>
      (Put(s, JournalKey(p.call.messageId), p.call.journalBytes, p.paid),
       p.(pc := if p.call.content.Some? then PutObject else Commit))
    case PutObject =>
      (match p.call.content
       case Some(o) => Put(s, ObjectKey(o.hash), o.bytes, p.paid)
       case None => s,
       p.(pc := Commit))
    case Commit =>
      (s.(messages := s.messages + {p.call.messageId}), p.(pc := Health, inserted := p.call.messageId !in s.messages))
    case Health => (
      s.(accepted := s.accepted + if p.inserted then 1 else 0),
      p.(pc := Answer, counted := p.inserted))
    case Answer => (s, p.(pc := Done(if p.inserted then Applied else Replay)))
    case Done(_) => (s, p)
  }

  function Entering(c: Call): Proc {
    Proc(c, CheckReplay, c.period, false, false)
  }

  function Failed(p: Proc): Proc {
    p.(pc := Done(Unavailable))
  }

  function Next(s: System, step: Step): System {
    match step
    case Join(call) => s.(procs := s.procs + [Entering(call)])
    case Move(i) =>
      if i < |s.procs| then
        var (t, p) := Advance(s, s.procs[i]);
        t.(procs := s.procs[i := p])
      else s
    case Fail(i) =>
      if i < |s.procs| && !s.procs[i].pc.Done? then s.(procs := s.procs[i := Failed(s.procs[i])]) else s
    case Delete(key) => if key in s.objects then s.(objects := s.objects - {key}, purged := s.purged + {key}) else s
  }

  function Run(s: System, steps: seq<Step>): System
    decreases |steps|
  {
    if steps == [] then s else Run(Next(s, steps[0]), steps[1..])
  }

  // ----- what the calls in flight still owe

  function OwedBytes(): Proc -> nat {
    (p: Proc) =>
      match p.pc
      case PutJournal => Bytes(p.call)
      case PutObject => Bytes(p.call) - p.call.journalBytes
      case _ => 0
  }

  function OwedWrites(period: int): Proc -> nat {
    (p: Proc) =>
      if p.paid != period then 0 else
        match p.pc
        case PutJournal => Writes(p.call)
        case PutObject => Writes(p.call) - 1
        case _ => 0
  }

  function InsertedBy(id: string): Proc -> nat {
    (p: Proc) => if p.inserted && p.call.messageId == id then 1 else 0
  }

  function Uncounted(): Proc -> nat {
    (p: Proc) => if p.inserted && !p.counted then 1 else 0
  }

  // ----- invariants, one per theorem

  function Stored(s: System): nat {
    if s.usage.Some? then s.usage.value.stored else 0
  }

  ghost predicate ByteInv(s: System) {
    Sum(s.objects) + Total(s.procs, OwedBytes()) <= Stored(s) <= MAX_STORED_BYTES
  }

  /** The puts made for a month, and those its reservations may still make. */
  ghost function Load(s: System, month: int): nat {
    s.puts[month] + Total(s.procs, OwedWrites(month))
  }

  /** The row covers the load of its month. */
  ghost predicate Covered(s: System) {
    s.usage.Some? ==> Load(s, s.usage.value.period) <= s.usage.value.writes <= MAX_MONTHLY_WRITES
  }

  ghost predicate WriteInv(s: System) {
    && Covered(s)
    && (forall month :: Load(s, month) <= if s.usage.None? then 0 else MAX_MONTHLY_WRITES)
  }

  ghost predicate OncePerMessage(s: System, id: string) {
    Total(s.procs, InsertedBy(id)) == if id in s.messages then 1 else 0
  }

  ghost predicate CountInv(s: System) {
    && Counted(s)
    && forall i :: 0 <= i < |s.procs| ==> ProcInv(s, s.procs[i])
  }

  /** A call past its journal put has left the journal in R2, unless retention took it. */
  predicate ProcInv(s: System, p: Proc) {
    && (p.pc == Done(Applied) ==> p.inserted)
    && (p.inserted ==> p.call.messageId in s.messages && p.pc in {Health, Answer, Done(Applied), Done(Unavailable)})
    && (p.counted ==> p.inserted && p.pc != Health)
    && (p.pc in {PutObject, Commit} ==> Kept(s, JournalKey(p.call.messageId)))
    && (p.pc == PutObject ==> p.call.content.Some?)
    && (p.pc == Commit && p.call.content.Some? ==> Kept(s, ObjectKey(p.call.content.value.hash)))
  }

  predicate Kept(s: System, key: Key) {
    key in s.objects || key in s.purged
  }

  /** The journal of every stored message was written before its row. */
  ghost predicate JournalInv(s: System) {
    forall id :: id in s.messages ==> Kept(s, JournalKey(id))
  }

  // ----- bytes

  /** One statement: what it adds to R2 or to the debt of its call it takes from the debt or adds to the row. */
  lemma ByteAdvance(s: System, p: Proc)
    requires ProcInv(s, p) && Stored(s) <= MAX_STORED_BYTES
    ensures var (t, q) := Advance(s, p);
            Sum(t.objects) + OwedBytes()(q) + Stored(s) <= Sum(s.objects) + OwedBytes()(p) + Stored(t)
    ensures Stored(s) <= Stored(Advance(s, p).0) <= MAX_STORED_BYTES
  {
    if p.pc == PutJournal {
      SumPut(s.objects, JournalKey(p.call.messageId), p.call.journalBytes);
    } else if p.pc == PutObject {
      SumPut(s.objects, ObjectKey(p.call.content.value.hash), p.call.content.value.bytes);
    }
  }

  lemma ByteStep(s: System, step: Step)
    requires ByteInv(s) && CountInv(s)
    ensures ByteInv(Next(s, step)) && Stored(s) <= Stored(Next(s, step))
  {
    match step
    case Join(call) => TotalSnoc(s.procs, Entering(call), OwedBytes());
    case Move(i) =>
      if i < |s.procs| {
        ByteAdvance(s, s.procs[i]);
        TotalUpdate(s.procs, i, Advance(s, s.procs[i]).1, OwedBytes());
      }
    case Fail(i) => FailTotal(s, i, OwedBytes());
    case Delete(key) => SumDrop(s.objects, key);
  }

  /** A failing call owes nothing more. */
  lemma FailTotal(s: System, i: nat, f: Proc -> nat)
    requires forall p: Proc :: f(Failed(p)) <= f(p)
    ensures Total(Next(s, Fail(i)).procs, f) <= Total(s.procs, f)
  {
    if i < |s.procs| {
      TotalUpdate(s.procs, i, Failed(s.procs[i]), f);
    }
  }

  // ----- writes

  /** The writes a statement charges to a month. */
  function Charge(s: System, p: Proc, month: int): nat {
    if p.pc == Reserve && Admits(s.usage, p.call) && s.usage.value.period == month then Writes(p.call) else 0
  }

  /** One statement: a put uses up one owed write, and only an admitted reservation adds to the load. */
  lemma PaidAdvance(s: System, p: Proc, month: int)
    requires ProcInv(s, p)
    ensures var (t, q) := Advance(s, p);
            t.puts[month] + OwedWrites(month)(q) == s.puts[month] + OwedWrites(month)(p) + Charge(s, p, month)
  {
  }

  function ChargeOf(s: System, step: Step, month: int): nat {
    if step.Move? && step.i < |s.procs| then Charge(s, s.procs[step.i], month) else 0
  }

  lemma LoadStep(s: System, step: Step, month: int)
    requires CountInv(s)
    ensures Load(Next(s, step), month) <= Load(s, month) + ChargeOf(s, step, month)
    ensures step.Move? ==> Load(Next(s, step), month) == Load(s, month) + ChargeOf(s, step, month)
  {
    match step
    case Join(call) => TotalSnoc(s.procs, Entering(call), OwedWrites(month));
    case Move(i) =>
      if i < |s.procs| {
        PaidAdvance(s, s.procs[i], month);
        TotalUpdate(s.procs, i, Advance(s, s.procs[i]).1, OwedWrites(month));
      }
    case Fail(i) => FailTotal(s, i, OwedWrites(month));
    case Delete(key) =>
  }

  /** The period the row is about to switch to, when this step switches it. */
  function SwitchTo(s: System, step: Step): Option<int> {
    if step.Move? && step.i < |s.procs| && s.procs[step.i].pc == SwitchPeriod
       && s.usage.Some? && s.usage.value.period != s.procs[step.i].call.period
    then Some(s.procs[step.i].call.period) else None
  }

  /** No put was made, and none is owed, in the month this step switches to. */
  ghost predicate FreshSwitch(s: System, step: Step) {
    SwitchTo(s, step).Some? ==> Load(s, SwitchTo(s, step).value) == 0
  }

  lemma CoveredStep(s: System, step: Step)
    requires CountInv(s) && Covered(s) && FreshSwitch(s, step)
    requires s.usage.None? ==> forall month :: Load(s, month) == 0
    ensures Covered(Next(s, step))
  {
    var t := Next(s, step);
    if t.usage.Some? {
      LoadStep(s, step, t.usage.value.period);
    }
  }

  lemma WriteStep(s: System, step: Step)
    requires WriteInv(s) && CountInv(s) && FreshSwitch(s, step)
    ensures WriteInv(Next(s, step))
  {
    CoveredStep(s, step);
    var t := Next(s, step);
    forall month ensures Load(t, month) <= if t.usage.None? then 0 else MAX_MONTHLY_WRITES {
      LoadStep(s, step, month);
    }
  }

  ghost predicate FreshRun(s: System, steps: seq<Step>)
    decreases |steps|
  {
    steps == [] || (FreshSwitch(s, steps[0]) && FreshRun(Next(s, steps[0]), steps[1..]))
  }

  /** Every executed switch is to a later month. */
  predicate ForwardRun(s: System, steps: seq<Step>)
    decreases |steps|
  {
    steps == [] ||
    (&& (SwitchTo(s, steps[0]).Some? ==> s.usage.value.period < SwitchTo(s, steps[0]).value)
     && ForwardRun(Next(s, steps[0]), steps[1..]))
  }

  /** Nothing was written in a month after the row's. */
  ghost predicate NoneLater(s: System) {
    forall month :: (s.usage.Some? ==> s.usage.value.period < month) ==> Load(s, month) == 0
  }

  lemma ForwardStep(s: System, step: Step)
    requires NoneLater(s) && CountInv(s)
    requires SwitchTo(s, step).Some? ==> s.usage.value.period < SwitchTo(s, step).value
    ensures FreshSwitch(s, step) && NoneLater(Next(s, step))
  {
    var t := Next(s, step);
    forall month | t.usage.Some? ==> t.usage.value.period < month ensures Load(t, month) == 0 {
      LoadStep(s, step, month);
    }
  }

  lemma {:induction false} ForwardIsFresh(s: System, steps: seq<Step>)
    requires NoneLater(s) && Inv(s) && ForwardRun(s, steps)
    ensures FreshRun(s, steps)
    decreases |steps|
  {
    if steps != [] {
      ForwardStep(s, steps[0]);
      InvStep(s, steps[0]);
      ForwardIsFresh(Next(s, steps[0]), steps[1..]);
    }
  }

  lemma {:induction false} RunSplit(s: System, a: seq<Step>, b: seq<Step>)
    ensures Run(s, a + b) == Run(Run(s, a), b)
    decreases |a|
  {
    if a == [] {
      assert a + b == b;
    } else {
      RunSplit(Next(s, a[0]), a[1..], b);
      assert (a + b)[1..] == a[1..] + b;
    }
  }

  // ----- messages

  lemma MessageAdvance(s: System, p: Proc, id: string)
    requires ProcInv(s, p)
    ensures var (t, q) := Advance(s, p);
      && InsertedBy(id)(q) - InsertedBy(id)(p)
        == (if id in t.messages then 1 else 0) - (if id in s.messages then 1 else 0)
      && t.accepted + Uncounted()(q) + |s.messages| == s.accepted + Uncounted()(p) + |t.messages|
  {
    if p.call.messageId in s.messages {
      assert s.messages + {p.call.messageId} == s.messages;
    }
  }

  lemma OnceStep(s: System, step: Step, id: string)
    requires OncePerMessage(s, id) && CountInv(s)
    ensures OncePerMessage(Next(s, step), id)
  {
    match step
    case Join(call) => TotalSnoc(s.procs, Entering(call), InsertedBy(id));
    case Move(i) =>
      if i < |s.procs| {
        MessageAdvance(s, s.procs[i], id);
        TotalUpdate(s.procs, i, Advance(s, s.procs[i]).1, InsertedBy(id));
      }
    case Fail(i) =>
      if i < |s.procs| {
        TotalUpdate(s.procs, i, Failed(s.procs[i]), InsertedBy(id));
      }
    case Delete(key) =>
  }

  ghost predicate Counted(s: System) {
    s.accepted + Total(s.procs, Uncounted()) == |s.messages|
  }

  lemma CountStep(s: System, step: Step)
    requires CountInv(s)
    ensures Counted(Next(s, step))
  {
    match step
    case Join(call) => TotalSnoc(s.procs, Entering(call), Uncounted());
    case Move(i) =>
      if i < |s.procs| {
        MessageAdvance(s, s.procs[i], s.procs[i].call.messageId);
        TotalUpdate(s.procs, i, Advance(s, s.procs[i]).1, Uncounted());
      }
    case Fail(i) =>
      if i < |s.procs| {
        TotalUpdate(s.procs, i, Failed(s.procs[i]), Uncounted());
      }
    case Delete(key) =>
  }

  /** Messages stay; keys stay in R2 or were purged. */
  ghost predicate Grows(s: System, t: System) {
    s.messages <= t.messages && forall key :: Kept(s, key) ==> Kept(t, key)
  }

  lemma StepGrows(s: System, step: Step)
    ensures Grows(s, Next(s, step))
  {
  }

  lemma AdvanceInv(s: System, p: Proc)
    requires ProcInv(s, p)
    ensures var (t, q) := Advance(s, p); ProcInv(t, q)
  {
  }

  lemma ProcStep(s: System, step: Step, i: nat)
    requires CountInv(s) && i < |Next(s, step).procs|
    ensures ProcInv(Next(s, step), Next(s, step).procs[i])
  {
    StepGrows(s, step);
    if i < |s.procs| {
      assert ProcInv(s, s.procs[i]);
      AdvanceInv(s, s.procs[i]);
    }
  }

  lemma JournalStep(s: System, step: Step)
    requires JournalInv(s) && CountInv(s)
    ensures JournalInv(Next(s, step))
  {
    if step.Move? && step.i < |s.procs| {
      assert ProcInv(s, s.procs[step.i]);
    }
  }

  // ----- whole runs

  ghost predicate Inv(s: System) {
    && ByteInv(s) && CountInv(s) && JournalInv(s)
    && (forall id :: OncePerMessage(s, id))
  }

  lemma InvStep(s: System, step: Step)
    requires Inv(s)
    ensures Inv(Next(s, step))
  {
    ByteStep(s, step);
    CountStep(s, step);
    JournalStep(s, step);
    forall i | 0 <= i < |Next(s, step).procs| ensures ProcInv(Next(s, step), Next(s, step).procs[i]) {
      ProcStep(s, step, i);
    }
    forall id ensures OncePerMessage(Next(s, step), id) {
      OnceStep(s, step, id);
    }
  }

  lemma {:induction false} RunInv(s: System, steps: seq<Step>)
    requires Inv(s)
    ensures Inv(Run(s, steps))
    decreases |steps|
  {
    if steps != [] {
      InvStep(s, steps[0]);
      RunInv(Next(s, steps[0]), steps[1..]);
    }
  }

  lemma {:induction false} RunWrites(s: System, steps: seq<Step>)
    requires WriteInv(s) && Inv(s) && FreshRun(s, steps)
    ensures WriteInv(Run(s, steps))
    decreases |steps|
  {
    if steps != [] {
      WriteStep(s, steps[0]);
      InvStep(s, steps[0]);
      RunWrites(Next(s, steps[0]), steps[1..]);
    }
  }

  /** Under every interleaving, crash, failure and replay, what R2 holds fits what the row says, and the row the cap. */
  lemma BytesWithinBudget(steps: seq<Step>)
    ensures Sum(Run(Empty, steps).objects) <= Stored(Run(Empty, steps)) <= 9_800_000_000
  {
    RunInv(Empty, steps);
  }

  /** If no step returns to a month already written in, no month gets more than its writes. */
  lemma WritesWithinBudget(steps: seq<Step>, month: int)
    requires FreshRun(Empty, steps)
    ensures Run(Empty, steps).puts[month] <= 990_000
    ensures Run(Empty, steps).usage.Some? && Run(Empty, steps).usage.value.period == month ==>
              Run(Empty, steps).puts[month] <= Run(Empty, steps).usage.value.writes <= 990_000
  {
    RunWrites(Empty, steps);
    assert Load(Run(Empty, steps), month) <= MAX_MONTHLY_WRITES;
  }

  /** In particular when the executed switches never go back in time. */
  lemma ForwardWritesWithinBudget(steps: seq<Step>, month: int)
    requires ForwardRun(Empty, steps)
    ensures Run(Empty, steps).puts[month] <= 990_000
  {
    ForwardIsFresh(Empty, steps);
    WritesWithinBudget(steps, month);
  }

  /** Two calls never both report APPLIED for one message; one that does has its row and its journal written. */
  lemma AppliedOnce(steps: seq<Step>, i: nat, k: nat)
    requires i < k < |Run(Empty, steps).procs|
    requires Run(Empty, steps).procs[i].pc == Done(Applied) && Run(Empty, steps).procs[k].pc == Done(Applied)
    ensures Run(Empty, steps).procs[i].call.messageId != Run(Empty, steps).procs[k].call.messageId
  {
    RunInv(Empty, steps);
    var s := Run(Empty, steps);
    var id := s.procs[i].call.messageId;
    assert ProcInv(s, s.procs[i]) && ProcInv(s, s.procs[k]);
    TotalHasTwo(s.procs, i, k, InsertedBy(id));
    assert OncePerMessage(s, id);
  }

  /** APPLIED answers counted by the health row never exceed the stored messages, all of which were journalled first. */
  lemma StoredMessagesAreJournalled(steps: seq<Step>)
    ensures Run(Empty, steps).accepted <= |Run(Empty, steps).messages|
    ensures forall id :: id in Run(Empty, steps).messages ==> Kept(Run(Empty, steps), JournalKey(id))
  {
    RunInv(Empty, steps);
  }
}
