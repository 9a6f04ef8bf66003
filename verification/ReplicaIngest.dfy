/**
 `ingestResearchReplicaRecord` statement by statement, on the tables and the bucket it updates.  Before
 every statement other calls and retention run `env(n)`; the whole history stays a run of `ReplicaBudget`,
 so its theorems hold of the store whenever a call returns.
 */
module ReplicaIngest {
  import opened Options
  import opened Totals
  import opened ReplicaBudget

  class Replica {
    var usage: Option<Usage>
    var objects: map<Key, nat>
    var messages: set<string>
    var accepted: nat
    /** The calls so far and the months their writes are booked in: history, not storage. */
    var procs: seq<Proc>
    var puts: multiset<int>
    var purged: set<Key>
    ghost var log: seq<Step>

    function State(): System
      reads this
    {
      System(usage, objects, messages, accepted, procs, puts, purged)
    }

    ghost predicate Valid()
      reads this
    {
      State() == Run(ReplicaBudget.Empty, log)
    }

    constructor ()
      ensures Valid() && log == []
    {
      usage, objects, messages, accepted := None, map[], {}, 0;
      procs, puts, purged, log := [], multiset{}, {}, [];
    }

    /** Book one step in the histories after its effect on the stores. */
    method Book(before: System, step: Step)
      requires before == Run(ReplicaBudget.Empty, log)
      requires var after := Next(before, step);
               usage == after.usage && objects == after.objects && messages == after.messages
                 && accepted == after.accepted
      modifies `procs, `puts, `purged, `log
      ensures Valid() && log == old(log) + [step] && State() == Next(before, step)
    {
      var after := Next(before, step);
      procs, puts, purged := after.procs, after.puts, after.purged;
      RunSplit(ReplicaBudget.Empty, log, [step]);
      assert Run(before, [step]) == Next(before, step);
      log := log + [step];
    }

    ghost predicate Moved(before: seq<Step>, after: seq<Step>, i: nat) {
      after == before + [Move(i)]
    }

    /** The state of call `i` is `p`: its next statement. */
    ghost predicate At(i: nat, call: Call, pc: Pc)
      reads this
    {
      i < |procs| && procs[i].call == call && procs[i].pc == pc
    }

    // ----- the statements

    method Enter(call: Call) returns (me: nat)
      requires Valid()
      modifies this
      ensures Valid() && log == old(log) + [Join(call)] && me == |old(procs)| && At(me, call, CheckReplay)
      ensures usage == old(usage) && objects == old(objects) && messages == old(messages) && accepted == old(accepted)
    {
      me := |procs|;
      Book(State(), Join(call));
    }

    method IsReplay(call: Call, i: nat) returns (replay: bool)
      requires Valid() && At(i, call, CheckReplay)
      modifies this
      ensures Valid() && Moved(old(log), log, i) && At(i, call, if replay then Done(Replay) else NameUsage)
      ensures replay <==> call.messageId in messages
      ensures usage == old(usage) && objects == old(objects) && messages == old(messages) && accepted == old(accepted)
    {
      replay := call.messageId in messages;
      Book(State(), Move(i));
    }

    method NameRow(call: Call, i: nat)
      requires Valid() && At(i, call, NameUsage)
      modifies this
      ensures Valid() && Moved(old(log), log, i) && At(i, call, SwitchPeriod)
      ensures objects == old(objects) && messages == old(messages) && accepted == old(accepted)
      ensures usage == if old(usage).None? then Some(Usage(call.period, 0, 0)) else old(usage)
    {
      var before := State();
      if usage.None? {
        usage := Some(Usage(call.period, 0, 0));
      }
      Book(before, Move(i));
    }

    method SwitchRow(call: Call, i: nat)
      requires Valid() && At(i, call, SwitchPeriod)
      modifies this
      ensures Valid() && Moved(old(log), log, i) && At(i, call, Pc.Reserve)
      ensures objects == old(objects) && messages == old(messages) && accepted == old(accepted)
      ensures usage == if old(usage).None? then None else Some(Booked(old(usage), call.period))
    {
      var before := State();
      if usage.Some? && usage.value.period != call.period {
        usage := Some(Usage(call.period, usage.value.stored, 0));
      }
      Book(before, Move(i));
    }

    method ReserveRow(call: Call, i: nat) returns (ok: bool)
      requires Valid() && At(i, call, Pc.Reserve)
      modifies this
      ensures Valid() && Moved(old(log), log, i)
      ensures ok <==> Admits(old(usage), call)
      ensures At(i, call, if ok then PutJournal else Done(RateLimited))
      ensures objects == old(objects) && messages == old(messages) && accepted == old(accepted)
      ensures usage == if ok then Some(Charged(old(usage).value, call)) else old(usage)
    {
      var before := State();
      ok := false;
      if usage.Some? && usage.value.stored + Bytes(call) <= MAX_STORED_BYTES
         && usage.value.writes + Writes(call) <= MAX_MONTHLY_WRITES {
        usage := Some(Usage(usage.value.period, usage.value.stored + Bytes(call), usage.value.writes + Writes(call)));
        ok := true;
      }
      Book(before, Move(i));
    }

    method PutJournalBytes(call: Call, i: nat)
      requires Valid() && At(i, call, PutJournal)
      modifies this
      ensures Valid() && Moved(old(log), log, i)
      ensures At(i, call, if call.content.Some? then PutObject else Commit)
      ensures objects == old(objects)[JournalKey(call.messageId) := call.journalBytes]
      ensures usage == old(usage) && messages == old(messages) && accepted == old(accepted)
    {
      var before := State();
      objects := objects[JournalKey(call.messageId) := call.journalBytes];
      Book(before, Move(i));
    }

    method PutObjectBytes(call: Call, content: Content, i: nat)
      requires Valid() && At(i, call, PutObject) && call.content == Some(content)
      modifies this
      ensures Valid() && Moved(old(log), log, i) && At(i, call, Commit)
      ensures objects == old(objects)[ObjectKey(content.hash) := content.bytes]
      ensures usage == old(usage) && messages == old(messages) && accepted == old(accepted)
    {
      var before := State();
      objects := objects[ObjectKey(content.hash) := content.bytes];
      Book(before, Move(i));
    }

    method CommitBatch(call: Call, i: nat) returns (inserted: bool)
      requires Valid() && At(i, call, Commit)
      modifies this
      ensures Valid() && Moved(old(log), log, i) && At(i, call, Health)
      ensures inserted <==> call.messageId !in old(messages)
      ensures inserted == procs[i].inserted
      ensures messages == old(messages) + {call.messageId}
      ensures usage == old(usage) && objects == old(objects) && accepted == old(accepted)
    {
      var before := State();
      inserted := call.messageId !in messages;
      messages := messages + {call.messageId};
      Book(before, Move(i));
    }

    method CountHealth(call: Call, inserted: bool, i: nat)
      requires Valid() && At(i, call, Health) && procs[i].inserted == inserted
      modifies this
      ensures Valid() && Moved(old(log), log, i)
      ensures At(i, call, Answer) && procs[i].inserted == inserted
      ensures accepted == old(accepted) + if inserted then 1 else 0
      ensures usage == old(usage) && objects == old(objects) && messages == old(messages)
    {
      var before := State();
      accepted := accepted + if inserted then 1 else 0;
      Book(before, Move(i));
    }

    /** The call answers. */
    method Return(call: Call, inserted: bool, i: nat)
      requires Valid() && At(i, call, Answer) && procs[i].inserted == inserted
      modifies this
      ensures Valid() && Moved(old(log), log, i)
      ensures At(i, call, Done(if inserted then Applied else Replay)) && SameStores(old(State()), State())
    {
      Book(State(), Move(i));
    }

    /** A store answered an error, whether or not its statement took effect: STORE_UNAVAILABLE. */
    method Abandon(i: nat)
      requires Valid() && i < |procs| && !procs[i].pc.Done?
      modifies this
      ensures Valid() && log == old(log) + [Fail(i)]
      ensures At(i, old(procs[i].call), Done(Unavailable)) && SameStores(old(State()), State())
    {
      Book(State(), Fail(i));
    }

    // ----- one call among others

    /** Steps of other calls and of retention: none of them moves call `me`. */
    static ghost predicate Foreign(steps: seq<Step>, me: nat) {
      forall k :: 0 <= k < |steps| ==> steps[k] != Move(me) && steps[k] != Fail(me)
    }

    /** Whatever others do meanwhile. */
    method Others(steps: seq<Step>, me: nat)
      requires Valid() && Foreign(steps, me) && me < |procs|
      modifies this
      ensures Valid() && log == old(log) + steps
      ensures me < |procs| && procs[me] == old(procs[me]) && old(messages) <= messages
      ensures steps == [] ==>
        usage == old(usage) && objects == old(objects) && messages == old(messages) && accepted == old(accepted)
    {
      var after := Run(State(), steps);
      RunSplit(ReplicaBudget.Empty, log, steps);
      StaysPut(State(), steps, me);
      usage, objects, messages, accepted := after.usage, after.objects, after.messages, after.accepted;
      procs, puts, purged := after.procs, after.puts, after.purged;
      log := log + steps;
    }

    static lemma {:induction false} StaysPut(s: System, steps: seq<Step>, me: nat)
      requires Foreign(steps, me) && me < |s.procs|
      ensures me < |Run(s, steps).procs| && Run(s, steps).procs[me] == s.procs[me]
      ensures s.messages <= Run(s, steps).messages
      decreases |steps|
    {
      if steps != [] {
        assert steps[0] != Move(me) && steps[0] != Fail(me);
        assert forall k :: 0 <= k < |steps[1..]| ==> steps[1..][k] == steps[k + 1];
        StaysPut(Next(s, steps[0]), steps[1..], me);
      }
    }

    /** What interferes before access `n`; then the access itself may fail. */
    method Reach(me: nat, world: World, n: nat) returns (broken: bool)
      requires Valid() && Foreign(world.env(n), me) && me < |procs| && !procs[me].pc.Done?
      modifies this
      ensures Valid() && old(log) <= log && old(messages) <= messages && broken == world.breaks(n)
      ensures broken ==> At(me, old(procs[me].call), Done(Unavailable))
      ensures !broken ==> me < |procs| && procs[me] == old(procs[me])
      ensures Calm(world) ==> !broken && SameStores(old(State()), State())
    {
      Others(world.env(n), me);
      broken := world.breaks(n);
      if broken {
        Abandon(me);
      }
    }

    /** The row exists and shows the month of the call. */
    method BookMonth(call: Call, me: nat, world: World, n: nat) returns (broken: bool)
      requires Valid() && At(me, call, NameUsage) && forall k :: Foreign(world.env(k), me)
      modifies this
      ensures Valid() && old(log) <= log && old(messages) <= messages
      ensures At(me, call, if broken then Done(Unavailable) else Pc.Reserve)
      ensures (forall k :: !world.breaks(k)) ==> !broken
      ensures Calm(world) ==>
        && usage == Some(Booked(old(usage), call.period))
        && objects == old(objects) && messages == old(messages) && accepted == old(accepted)
    {
      broken := Reach(me, world, n);
      if broken { return; }
      NameRow(call, me);
      broken := Reach(me, world, n + 1);
      if broken { return; }
      SwitchRow(call, me);
    }

    /** `ended`: the answer, when the call ends here. */
    method ReserveR2Quota(call: Call, me: nat, world: World, n: nat) returns (ended: Option<Status>)
      requires Valid() && At(me, call, NameUsage) && forall k :: Foreign(world.env(k), me)
      modifies this
      ensures Valid() && old(log) <= log && old(messages) <= messages
      ensures ended == None || ended == Some(RateLimited) || ended == Some(Unavailable)
      ensures At(me, call, if ended == None then PutJournal else Done(ended.value))
      ensures (forall k :: !world.breaks(k)) ==> ended != Some(Unavailable)
      ensures Calm(world) ==>
        && ended == (if Admits(Some(Booked(old(usage), call.period)), call) then None else Some(RateLimited))
        && usage == Some(if ended == None then Charged(Booked(old(usage), call.period), call)
                         else Booked(old(usage), call.period))
        && objects == old(objects) && messages == old(messages) && accepted == old(accepted)
    {
      var broken := BookMonth(call, me, world, n);
      if broken { return Some(Unavailable); }
      broken := Reach(me, world, n + 2);
      if broken { return Some(Unavailable); }
      var ok := ReserveRow(call, me);
      ended := if ok then None else Some(RateLimited);
    }

    /** The two puts. */
    method PutBytes(call: Call, me: nat, world: World, n: nat) returns (ended: Option<Status>)
      requires Valid() && At(me, call, PutJournal) && forall k :: Foreign(world.env(k), me)
      modifies this
      ensures Valid() && old(log) <= log && old(messages) <= messages
      ensures ended == None || ended == Some(Unavailable)
      ensures At(me, call, if ended == None then Commit else Done(Unavailable))
      ensures (forall k :: !world.breaks(k)) ==> ended == None
      ensures Calm(world) ==>
        && ended == None && objects == Filled(old(objects), call)
        && usage == old(usage) && messages == old(messages) && accepted == old(accepted)
    {
      var broken := Reach(me, world, n);
      if broken { return Some(Unavailable); }
      PutJournalBytes(call, me);
      if call.content.Some? {
        broken := Reach(me, world, n + 1);
        if broken { return Some(Unavailable); }
        PutObjectBytes(call, call.content.value, me);
      }
      ended := None;
    }

    /** The health row and the answer. */
    method CountAndReturn(call: Call, me: nat, inserted: bool, world: World, n: nat) returns (status: Status)
      requires Valid() && At(me, call, Health) && procs[me].inserted == inserted
      requires forall k :: Foreign(world.env(k), me)
      modifies this
      ensures Valid() && old(log) <= log && old(messages) <= messages
      ensures At(me, call, Done(status)) && (status == Unavailable || status == if inserted then Applied else Replay)
      ensures (forall k :: !world.breaks(k)) ==> status != Unavailable
      ensures Calm(world) ==>
        && status != Unavailable && accepted == old(accepted) + (if inserted then 1 else 0)
        && usage == old(usage) && objects == old(objects) && messages == old(messages)
    {
      var broken := Reach(me, world, n);
      if broken { return Unavailable; }
      CountHealth(call, inserted, me);
      broken := Reach(me, world, n + 1);
      if broken { return Unavailable; }
      Return(call, inserted, me);
      status := if inserted then Applied else Replay;
    }

    /** The batch, and what follows it. */
    method Conclude(call: Call, me: nat, world: World, n: nat) returns (status: Status)
      requires Valid() && At(me, call, Commit) && forall k :: Foreign(world.env(k), me)
      modifies this
      ensures Valid() && old(log) <= log && old(messages) <= messages
      ensures At(me, call, Done(status)) && status != RateLimited
      ensures status != Unavailable ==> call.messageId in messages
      ensures status == Applied ==> call.messageId !in old(messages)
      ensures (forall k :: !world.breaks(k)) ==> status != Unavailable
      ensures Calm(world) ==>
        && status == (if call.messageId in old(messages) then Replay else Applied)
        && messages == old(messages) + {call.messageId} && usage == old(usage) && objects == old(objects)
        && accepted == old(accepted) + (if status == Applied then 1 else 0)
    {
      var broken := Reach(me, world, n);
      if broken { return Unavailable; }
      var inserted := CommitBatch(call, me);
      status := CountAndReturn(call, me, inserted, world, n + 1);
    }

    /** The call enters and asks whether its message is known. */
    method Begin(call: Call, world: World) returns (me: nat, ended: Option<Status>)
      requires Valid() && forall k :: Foreign(world.env(k), |procs|)
      modifies this
      ensures Valid() && old(log) <= log && old(messages) <= messages && me == |old(procs)|
      ensures ended == None || ended == Some(Replay) || ended == Some(Unavailable)
      ensures At(me, call, if ended == None then NameUsage else Done(ended.value))
      ensures ended == Some(Replay) ==> call.messageId in messages
      ensures (forall k :: !world.breaks(k)) ==> ended != Some(Unavailable)
      ensures Calm(world) ==>
        && ended == (if call.messageId in old(messages) then Some(Replay) else None)
        && SameStores(old(State()), State())
    {
      me := Enter(call);
      var broken := Reach(me, world, 0);
      if broken { return me, Some(Unavailable); }
      var replay := IsReplay(call, me);
      ended := if replay then Some(Replay) else None;
    }

    /** The whole call, from the replay check to the answer; any access may fail. */
    method Ingest(call: Call, world: World) returns (status: Status)
      requires Valid() && forall k :: Foreign(world.env(k), |procs|)
      modifies this
      ensures Valid() && old(log) <= log && old(messages) <= messages
      ensures At(|old(procs)|, call, Done(status))
      ensures status == Applied || status == Replay ==> call.messageId in messages
      ensures status == Applied ==> call.messageId !in old(messages)
      ensures (forall k :: !world.breaks(k)) ==> status != Unavailable
      ensures Calm(world) ==>
        && status == LoneStatus(old(usage), old(messages), call)
        && usage == LoneUsage(old(usage), call, status)
        && objects == (if status == Applied then Filled(old(objects), call) else old(objects))
        && messages == (if status == Applied then old(messages) + {call.messageId} else old(messages))
        && accepted == old(accepted) + (if status == Applied then 1 else 0)
    {
      var me, ended := Begin(call, world);
      if ended.Some? { return ended.value; }
      ended := ReserveR2Quota(call, me, world, 1);
      if ended.Some? { return ended.value; }
      ended := PutBytes(call, me, world, 4);
      if ended.Some? { return ended.value; }
      status := Conclude(call, me, world, 6);
    }

    /** Whenever a statement has been executed, by whichever call, the store is inside its budget. */
    lemma WithinBudget()
      requires Valid()
      ensures Sum(objects) <= Stored(State()) <= MAX_STORED_BYTES && accepted <= |messages|
      ensures FreshRun(ReplicaBudget.Empty, log) && usage.Some? ==>
                puts[usage.value.period] <= usage.value.writes <= MAX_MONTHLY_WRITES
    {
      BytesWithinBudget(log);
      StoredMessagesAreJournalled(log);
      if FreshRun(ReplicaBudget.Empty, log) && usage.Some? {
        WritesWithinBudget(log, usage.value.period);
      }
    }
  }

  /** What other calls do before access `n` of a call, and whether that access fails. */
  datatype World = World(env: nat -> seq<Step>, breaks: nat -> bool)

  ghost predicate Calm(world: World) {
    forall n :: world.env(n) == [] && !world.breaks(n)
  }

  predicate SameStores(s: System, t: System) {
    s.usage == t.usage && s.objects == t.objects && s.messages == t.messages && s.accepted == t.accepted
  }

  /** The usage row once a call of this month has named and switched it. */
  function Booked(usage: Option<Usage>, period: int): Usage {
    match usage
    case None => Usage(period, 0, 0)
    case Some(u) => if u.period == period then u else Usage(period, u.stored, 0)
  }

  function Charged(u: Usage, call: Call): Usage {
    Usage(u.period, u.stored + Bytes(call), u.writes + Writes(call))
  }

  function Filled(objects: map<Key, nat>, call: Call): map<Key, nat> {
    var journalled := objects[JournalKey(call.messageId) := call.journalBytes];
    match call.content
    case None => journalled
    case Some(o) => journalled[ObjectKey(o.hash) := o.bytes]
  }

  /** The answer to a call that meets no interference, and the usage row it leaves. */
  function LoneStatus(usage: Option<Usage>, messages: set<string>, call: Call): Status {
    if call.messageId in messages then Replay
    else if Admits(Some(Booked(usage, call.period)), call) then Applied
    else RateLimited
  }

  function LoneUsage(usage: Option<Usage>, call: Call, status: Status): Option<Usage> {
    match status
    case Applied => Some(Charged(Booked(usage, call.period), call))
    case RateLimited => Some(Booked(usage, call.period))
    case _ => usage
  }

  /**
   A lone call in numbers: a known message changes nothing; another one is applied exactly when the bytes
   and the one or two writes still fit, the writes of another month not counting, and the row is booked.
   */
  lemma LoneCallMeaning(usage: Option<Usage>, messages: set<string>, call: Call)
    ensures var status := LoneStatus(usage, messages, call);
            var stored := if usage.Some? then usage.value.stored else 0;
            var writes := if usage.Some? && usage.value.period == call.period then usage.value.writes else 0;
            var bytes := call.journalBytes + if call.content.Some? then call.content.value.bytes else 0;
            var puts := if call.content.Some? then 2 else 1;
      && (status == Replay <==> call.messageId in messages)
      && (status == Applied <==>
            call.messageId !in messages && stored + bytes <= 9_800_000_000 && writes + puts <= 990_000)
      && (status == Replay || status == Applied || status == RateLimited)
      && (status == Replay ==> LoneUsage(usage, call, status) == usage)
      && (status == RateLimited ==> LoneUsage(usage, call, status) == Some(Usage(call.period, stored, writes)))
      && (status == Applied ==>
            LoneUsage(usage, call, status) == Some(Usage(call.period, stored + bytes, writes + puts)))
  {
  }

  /** What a lone applied call leaves in R2. */
  lemma FilledMeaning(objects: map<Key, nat>, call: Call, key: Key)
    ensures var after := Filled(objects, call);
      && JournalKey(call.messageId) in after && after[JournalKey(call.messageId)] == call.journalBytes
      && (call.content.Some? ==>
            ObjectKey(call.content.value.hash) in after
            && after[ObjectKey(call.content.value.hash)] == call.content.value.bytes)
      && (key != JournalKey(call.messageId) && (call.content.Some? ==> key != ObjectKey(call.content.value.hash)) ==>
            (key in after <==> key in objects) && (key in objects ==> after[key] == objects[key]))
  {
  }
}
