/**
 When a switch of the usage row to another month puts that month's write budget at risk.  The row counts from
 zero again, so what was put, or is still owed, for the month comes on top of what the row and the room in the
 store still admit.
 */
module ReplicaOverdraw {
  import opened Options
  import opened Totals
  import opened ReplicaBudget

  /** No executed step switches the row to another month. */
  predicate Stays(s: System, steps: seq<Step>)
    decreases |steps|
  {
    steps == [] || (SwitchTo(s, steps[0]).None? && Stays(Next(s, steps[0]), steps[1..]))
  }

  lemma Cons(s: System, step: Step, rest: seq<Step>)
    ensures Run(s, [step] + rest) == Run(Next(s, step), rest)
    ensures Stays(s, [step] + rest) <==> SwitchTo(s, step).None? && Stays(Next(s, step), rest)
  {
    assert ([step] + rest)[1..] == rest;
  }

  lemma {:induction false} StaysConcat(s: System, a: seq<Step>, b: seq<Step>)
    requires Stays(s, a) && Stays(Run(s, a), b)
    ensures Stays(s, a + b) && Run(s, a + b) == Run(Run(s, a), b)
    decreases |a|
  {
    RunSplit(s, a, b);
    if a == [] {
      assert a + b == b;
    } else {
      StaysConcat(Next(s, a[0]), a[1..], b);
      Cons(s, a[0], a[1..] + b);
      assert a + b == [a[0]] + (a[1..] + b);
    }
  }

  /** While the row stays in its month it covers the month's puts. */
  lemma {:induction false} StaysCovered(s: System, steps: seq<Step>)
    requires Inv(s) && s.usage.Some? && Covered(s) && Stays(s, steps)
    ensures Run(s, steps).usage.Some? && Run(s, steps).usage.value.period == s.usage.value.period
    ensures Covered(Run(s, steps))
    decreases |steps|
  {
    if steps != [] {
      CoveredStep(s, steps[0]);
      InvStep(s, steps[0]);
      StaysCovered(Next(s, steps[0]), steps[1..]);
    }
  }

  // ----- one more put

  function Moves(i: nat, k: nat): seq<Step> {
    if k == 0 then [] else [Move(i)] + Moves(i, k - 1)
  }

  /** A call enters and runs up to its switch. */
  function Entry(c: Call, n: nat): seq<Step> {
    [Join(c)] + Moves(n, 2)
  }

  lemma EntryReachesSwitch(s: System, c: Call)
    requires c.messageId !in s.messages
    ensures var t := Run(s, Entry(c, |s.procs|));
      && Stays(s, Entry(c, |s.procs|))
      && t.usage == (if s.usage.None? then Some(Usage(c.period, 0, 0)) else s.usage)
      && t.procs == s.procs + [Proc(c, SwitchPeriod, c.period, false, false)]
      && t.puts == s.puts && t.messages == s.messages
  {
    var n := |s.procs|;
    var s1 := Next(s, Join(c));
    var s2 := Next(s1, Move(n));
    assert s2.procs[n].pc == NameUsage && s2.usage == s.usage;
    Cons(s, Join(c), Moves(n, 2));
    Cons(s1, Move(n), Moves(n, 1));
    Cons(s2, Move(n), Moves(n, 0));
  }

  /** A call with content that enters, makes its two puts and stops there. */
  function TwoPuts(c: Call, n: nat): seq<Step> {
    Entry(c, n) + (Moves(n, 2) + Moves(n, 2))
  }

  /** The month's row has room for a call with content. */
  predicate Room(s: System, c: Call) {
    && s.usage.Some? && s.usage.value.period == c.period && c.content.Some? && c.messageId !in s.messages
    && s.usage.value.stored + Bytes(c) <= MAX_STORED_BYTES && s.usage.value.writes + 2 <= MAX_MONTHLY_WRITES
  }

  /** The switch of a call of the row's own month changes nothing, and its reservation is admitted. */
  lemma Reserves(s: System, c: Call, n: nat)
    requires n < |s.procs| && s.procs[n] == Proc(c, SwitchPeriod, c.period, false, false) && Room(s, c)
    ensures var t := Run(s, Moves(n, 2)); var u := s.usage.value;
      && Stays(s, Moves(n, 2)) && |t.procs| == |s.procs|
      && t.usage == Some(Usage(u.period, u.stored + Bytes(c), u.writes + 2))
      && t.messages == s.messages && t.puts == s.puts && t.procs[n] == Proc(c, PutJournal, c.period, false, false)
  {
    var t := Next(s, Move(n));
    assert t.procs[n].pc == Reserve && t.usage == s.usage;
    Cons(s, Move(n), Moves(n, 1));
    Cons(t, Move(n), Moves(n, 0));
  }

  lemma Puts(s: System, c: Call, n: nat)
    requires n < |s.procs| && s.procs[n] == Proc(c, PutJournal, c.period, false, false) && c.content.Some?
    ensures var t := Run(s, Moves(n, 2));
      && Stays(s, Moves(n, 2)) && t.usage == s.usage && t.messages == s.messages
      && t.puts[c.period] == s.puts[c.period] + 2
  {
    var t := Next(s, Move(n));
    assert t.procs[n] == Proc(c, PutObject, c.period, false, false);
    Cons(s, Move(n), Moves(n, 1));
    Cons(t, Move(n), Moves(n, 0));
  }

  lemma ReserveAndPut(s: System, c: Call, n: nat)
    requires n < |s.procs| && s.procs[n] == Proc(c, SwitchPeriod, c.period, false, false) && Room(s, c)
    ensures Counts(s, Moves(n, 2) + Moves(n, 2), c)
  {
    Reserves(s, c, n);
    Puts(Run(s, Moves(n, 2)), c, n);
    StaysConcat(s, Moves(n, 2), Moves(n, 2));
  }

  /** The steps stay in the month and make the two puts of `c`. */
  ghost predicate Counts(s: System, steps: seq<Step>, c: Call)
    requires s.usage.Some?
  {
    var t := Run(s, steps);
    var u := s.usage.value;
    && Stays(s, steps)
    && t.usage == Some(Usage(u.period, u.stored + Bytes(c), u.writes + 2))
    && t.messages == s.messages && t.puts[c.period] == s.puts[c.period] + 2
  }

  lemma TwoPutsCount(s: System, c: Call)
    requires Room(s, c)
    ensures Counts(s, TwoPuts(c, |s.procs|), c)
  {
    var n := |s.procs|;
    EntryReachesSwitch(s, c);
    ReserveAndPut(Run(s, Entry(c, n)), c, n);
    StaysConcat(s, Entry(c, n), Moves(n, 2) + Moves(n, 2));
  }

  // ----- journal sizes

  /** Every call that joins has a journal of at least `least` bytes. */
  predicate Weighs(steps: seq<Step>, least: nat) {
    forall k :: 0 <= k < |steps| && steps[k].Join? ==> steps[k].call.journalBytes >= least
  }

  predicate Heavy(s: System, least: nat) {
    forall i :: 0 <= i < |s.procs| ==> s.procs[i].call.journalBytes >= least
  }

  lemma HeavyStep(s: System, step: Step, least: nat)
    requires Heavy(s, least) && (step.Join? ==> step.call.journalBytes >= least)
    ensures Heavy(Next(s, step), least)
  {
  }

  lemma {:induction false} HeavyRun(s: System, steps: seq<Step>, least: nat)
    requires Heavy(s, least) && Weighs(steps, least)
    ensures Heavy(Run(s, steps), least)
    decreases |steps|
  {
    if steps != [] {
      HeavyStep(s, steps[0], least);
      assert forall k :: 0 <= k < |steps[1..]| ==> steps[1..][k] == steps[k + 1];
      HeavyRun(Next(s, steps[0]), steps[1..], least);
    }
  }

  function Times(k: nat, bytes: nat): nat {
    if k == 0 then 0 else bytes + Times(k - 1, bytes)
  }

  lemma {:induction false} TimesIsProduct(k: nat, bytes: nat)
    ensures Times(k, bytes) == k * bytes
  {
    if k > 0 {
      TimesIsProduct(k - 1, bytes);
    }
  }

  /** `k` calls with two puts each, one after the other. */
  lemma {:induction false} Burst(s: System, c: Call, k: nat) returns (more: seq<Step>)
    requires s.usage.Some? && s.usage.value.period == c.period && c.content.Some? && c.messageId !in s.messages
    requires s.usage.value.stored + Times(k, Bytes(c)) <= MAX_STORED_BYTES
      && s.usage.value.writes + 2 * k <= MAX_MONTHLY_WRITES
    ensures Stays(s, more) && Run(s, more).puts[c.period] == s.puts[c.period] + 2 * k && Weighs(more, c.journalBytes)
    decreases k
  {
    more := [];
    if k > 0 {
      TwoPutsCount(s, c);
      var first := TwoPuts(c, |s.procs|);
      var rest := Burst(Run(s, first), c, k - 1);
      StaysConcat(s, first, rest);
      TwoPutsWeigh(c, |s.procs|);
      more := first + rest;
    }
  }

  lemma TwoPutsWeigh(c: Call, n: nat)
    ensures Weighs(TwoPuts(c, n), c.journalBytes)
  {
    MovesWeigh(n, 2, c.journalBytes);
  }

  lemma {:induction false} MovesWeigh(i: nat, k: nat, least: nat)
    ensures Weighs(Moves(i, k), least)
  {
    if k > 0 {
      MovesWeigh(i, k - 1, least);
    }
  }

  // ----- the bound

  /** The writes the row and the room in the store still admit when the count starts from zero. */
  function NewWrites(stored: nat, least: nat): nat
    requires stored <= MAX_STORED_BYTES
  {
    if least == 0 || 2 * ((MAX_STORED_BYTES - stored) / least) > MAX_MONTHLY_WRITES then MAX_MONTHLY_WRITES
    else 2 * ((MAX_STORED_BYTES - stored) / least)
  }

  /** `load` and `stored` are those at the switch. */
  ghost predicate Bounded(s: System, month: int, load: nat, stored: nat, least: nat) {
    && s.usage.Some? && s.usage.value.period == month && s.usage.value.writes <= MAX_MONTHLY_WRITES
    && Load(s, month) <= load + s.usage.value.writes && stored <= s.usage.value.stored <= MAX_STORED_BYTES
    && (least > 0 ==> s.usage.value.writes <= 2 * ((s.usage.value.stored - stored) / least))
  }

  lemma OneMoreQuotient(x: nat, y: nat, least: nat)
    requires y >= least > 0
    ensures (x + y) / least >= x / least + 1
  {
    assert x + y >= (x / least + 1) * least;
  }

  lemma QuotientGrows(x: nat, y: nat, least: nat)
    requires x <= y && least > 0
    ensures x / least <= y / least
  {
    var p, q := x / least, y / least;
    if p > q {
      OneMoreMultiple(p, q, least);
    }
  }

  lemma {:induction false} OneMoreMultiple(p: nat, q: nat, least: nat)
    requires p > q
    ensures p * least >= q * least + least
  {
    assert p * least == (p - 1) * least + least;
    if p - 1 > q {
      OneMoreMultiple(p - 1, q, least);
    }
  }

  lemma BoundedStep(s: System, step: Step, month: int, load: nat, stored: nat, least: nat)
    requires Inv(s) && Heavy(s, least) && Bounded(s, month, load, stored, least) && SwitchTo(s, step).None?
    ensures Bounded(Next(s, step), month, load, stored, least)
  {
    LoadStep(s, step, month);
    if step.Move? && step.i < |s.procs| && s.procs[step.i].pc == Reserve && least > 0 {
      OneMoreQuotient(s.usage.value.stored - stored, Bytes(s.procs[step.i].call), least);
    }
  }

  lemma {:induction false} StaysBounded(s: System, steps: seq<Step>, month: int, load: nat, stored: nat, least: nat)
    requires Inv(s) && Heavy(s, least) && Weighs(steps, least) && Stays(s, steps)
    requires Bounded(s, month, load, stored, least)
    ensures Inv(Run(s, steps)) && Bounded(Run(s, steps), month, load, stored, least)
    decreases |steps|
  {
    if steps != [] {
      BoundedStep(s, steps[0], month, load, stored, least);
      InvStep(s, steps[0]);
      HeavyStep(s, steps[0], least);
      assert forall k :: 0 <= k < |steps[1..]| ==> steps[1..][k] == steps[k + 1];
      StaysBounded(Next(s, steps[0]), steps[1..], month, load, stored, least);
    }
  }

  /** What the bound says about the puts. */
  lemma BoundedPuts(s: System, month: int, load: nat, stored: nat, least: nat)
    requires Bounded(s, month, load, stored, least)
    ensures s.puts[month] <= load + NewWrites(stored, least)
  {
    if least > 0 {
      QuotientGrows(s.usage.value.stored - stored, MAX_STORED_BYTES - stored, least);
    }
  }

  // ----- the overdraft

  lemma OwedPut(s: System, i: nat, month: int)
    requires CountInv(s) && i < |s.procs| && OwedWrites(month)(s.procs[i]) > 0
    ensures var t := Next(s, Move(i));
      && SwitchTo(s, Move(i)).None? && t.usage == s.usage && t.messages == s.messages
      && Load(t, month) == Load(s, month) && t.puts[month] == s.puts[month] + 1
  {
    assert ProcInv(s, s.procs[i]);
    LoadStep(s, Move(i), month);
  }

  /** Every put that is owed for the month can be made without any switch. */
  lemma {:induction false} DrainOwed(s: System, month: int, least: nat) returns (more: seq<Step>)
    requires Inv(s)
    ensures Stays(s, more) && Weighs(more, least)
    ensures Run(s, more).puts[month] == Load(s, month)
    ensures Run(s, more).usage == s.usage && Run(s, more).messages == s.messages
    decreases Total(s.procs, OwedWrites(month))
  {
    more := [];
    if Total(s.procs, OwedWrites(month)) > 0 {
      var i := TotalPositive(s.procs, OwedWrites(month));
      var t := Next(s, Move(i));
      OwedPut(s, i, month);
      InvStep(s, Move(i));
      var rest := DrainOwed(t, month, least);
      Cons(s, Move(i), rest);
      more := [Move(i)] + rest;
    }
  }

  /** Some text that is not in the set. */
  lemma {:induction false} FreshText(ids: set<string>) returns (id: string)
    ensures id !in ids && forall x :: x in ids ==> |x| < |id|
    decreases ids
  {
    id := "m";
    if ids != {} {
      var x :| x in ids;
      var other := FreshText(ids - {x});
      id := other + x + "m";
      forall y | y in ids ensures |y| < |id| {
        assert y == x || y in ids - {x};
      }
    }
  }

  ghost predicate Exceeds(s: System, steps: seq<Step>, month: int) {
    Stays(s, steps) && Run(s, steps).puts[month] > MAX_MONTHLY_WRITES
  }

  /** The row counts from zero: all that is owed and all that is admitted can be put. */
  lemma AdmittedIsPut(s: System, month: int, journalBytes: nat, objectBytes: nat, k: nat) returns (more: seq<Step>)
    requires Inv(s) && s.usage.Some? && s.usage.value.period == month && s.usage.value.writes == 0
    requires 2 * k <= MAX_MONTHLY_WRITES && s.usage.value.stored + k * (journalBytes + objectBytes) <= MAX_STORED_BYTES
    ensures Stays(s, more) && Weighs(more, journalBytes) && Run(s, more).puts[month] == Load(s, month) + 2 * k
  {
    var first := DrainOwed(s, month, journalBytes);
    var t := Run(s, first);
    var id := FreshText(t.messages);
    var c := Call(id, month, journalBytes, Some(Content("object", objectBytes)));
    TimesIsProduct(k, Bytes(c));
    var rest := Burst(t, c, k);
    StaysConcat(s, first, rest);
    more := first + rest;
  }

  /** The state right after a switch. */
  lemma AfterSwitch(s: System, i: nat, month: int)
    requires Inv(s) && SwitchTo(s, Move(i)) == Some(month)
    ensures var t := Next(s, Move(i));
      Inv(t) && t.usage == Some(Usage(month, Stored(s), 0)) && Load(t, month) == Load(s, month)
  {
    InvStep(s, Move(i));
    LoadStep(s, Move(i), month);
  }

  /** It fits: every continuation in the month keeps within the limit. */
  lemma FittingSwitchIsSafe(t: System, month: int, least: nat, more: seq<Step>)
    requires Inv(t) && Heavy(t, least) && Weighs(more, least)
    requires t.usage == Some(Usage(month, Stored(t), 0)) && Stored(t) <= MAX_STORED_BYTES
    requires Load(t, month) + NewWrites(Stored(t), least) <= MAX_MONTHLY_WRITES
    ensures !Exceeds(t, more, month)
  {
    if Stays(t, more) {
      StaysBounded(t, more, month, Load(t, month), Stored(t), least);
      BoundedPuts(Run(t, more), month, Load(t, month), Stored(t), least);
    }
  }

  /** It does not fit: some continuation in the month exceeds the limit. */
  lemma OverfullSwitchIsUnsafe(t: System, month: int, least: nat) returns (more: seq<Step>)
    requires Inv(t) && t.usage == Some(Usage(month, Stored(t), 0)) && Stored(t) <= MAX_STORED_BYTES
    requires Load(t, month) + NewWrites(Stored(t), least) > MAX_MONTHLY_WRITES
    ensures Weighs(more, least) && Exceeds(t, more, month)
  {
    AdmittedFits(Stored(t), least);
    more := AdmittedIsPut(t, month, least, 0, NewWrites(Stored(t), least) / 2);
  }

  /**
   After any run, with journals of at least `least` bytes each, a switch to `month` is safe - every continuation
   that stays in the month keeps its puts within the limit - if and only if what was put and is owed for the month
   and what the row and the room in the store still admit fit the limit together.
   */
  lemma SwitchIsSafeIffItFits(steps: seq<Step>, i: nat, month: int, least: nat)
    requires Weighs(steps, least) && SwitchTo(Run(Empty, steps), Move(i)) == Some(month)
    ensures var s := Run(Empty, steps); var t := Next(s, Move(i));
      && Stored(s) <= MAX_STORED_BYTES
      && ((forall more :: Weighs(more, least) ==> !Exceeds(t, more, month))
          <==> Load(s, month) + NewWrites(Stored(s), least) <= MAX_MONTHLY_WRITES)
  {
    RunInv(Empty, steps);
    HeavyRun(Empty, steps, least);
    var s := Run(Empty, steps);
    var t := Next(s, Move(i));
    AfterSwitch(s, i, month);
    HeavyStep(s, Move(i), least);
    if Load(s, month) + NewWrites(Stored(s), least) <= MAX_MONTHLY_WRITES {
      forall more | Weighs(more, least) ensures !Exceeds(t, more, month) {
        FittingSwitchIsSafe(t, month, least, more);
      }
    } else {
      var more := OverfullSwitchIsUnsafe(t, month, least);
    }
  }

  lemma AdmittedFits(stored: nat, least: nat)
    requires stored <= MAX_STORED_BYTES
    ensures var k := NewWrites(stored, least) / 2;
      2 * k == NewWrites(stored, least) && stored + k * (least + 0) <= MAX_STORED_BYTES
  {
    if least > 0 {
      var room := MAX_STORED_BYTES - stored;
      var k := NewWrites(stored, least) / 2;
      assert k <= room / least;
      assert k * least <= (room / least) * least <= room;
    }
  }

  /** With no least size, a month is safe if and only if no put was made and none is owed for it. */
  lemma SwitchIsSafeIffUnused(steps: seq<Step>, i: nat, month: int)
    requires SwitchTo(Run(Empty, steps), Move(i)) == Some(month)
    ensures var s := Run(Empty, steps); var t := Next(s, Move(i));
            (forall more :: !Exceeds(t, more, month)) <==> Load(s, month) == 0
  {
    SwitchIsSafeIffItFits(steps, i, month, 0);
    assert forall more :: Weighs(more, 0);
  }

  // ----- a run from the start

  lemma RunSnoc(s: System, steps: seq<Step>, step: Step)
    ensures Run(s, steps + [step]) == Next(Run(s, steps), step)
  {
    RunSplit(s, steps, [step]);
    Cons(Run(s, steps), step, []);
    assert [step] + [] == [step];
  }

  /** A call runs through its switch. */
  lemma Visit(steps: seq<Step>, c: Call) returns (longer: seq<Step>)
    requires Run(Empty, steps).usage.Some? && c.messageId !in Run(Empty, steps).messages
    ensures var s := Run(Empty, steps); var t := Run(Empty, longer);
      && t.puts == s.puts && t.messages == s.messages
      && t.usage == (if s.usage.value.period == c.period then s.usage
                     else Some(Usage(c.period, s.usage.value.stored, 0)))
  {
    var s := Run(Empty, steps);
    var n := |s.procs|;
    EntryReachesSwitch(s, c);
    RunSplit(Empty, steps, Entry(c, n));
    RunSnoc(Empty, steps + Entry(c, n), Move(n));
    longer := steps + Entry(c, n) + [Move(n)];
  }

  lemma FirstCall(c: Call) returns (steps: seq<Step>)
    requires c.content.Some? && Bytes(c) <= MAX_STORED_BYTES
    ensures var s := Run(Empty, steps);
      s.puts[c.period] == 2 && s.messages == {} && s.usage == Some(Usage(c.period, Bytes(c), 2))
  {
    EntryReachesSwitch(Empty, c);
    var s := Run(Empty, Entry(c, 0));
    ReserveAndPut(s, c, 0);
    RunSplit(Empty, Entry(c, 0), Moves(0, 2) + Moves(0, 2));
    steps := Entry(c, 0) + (Moves(0, 2) + Moves(0, 2));
  }

  /**
   From empty tables: one call of `month` makes its puts, a call of another month switches the row away,
   the next call of `month` switches it back, and the month gets more puts than its limit, here with
   journals and objects of 9000 bytes each.
   */
  lemma OverdrawnRun(month: int, other: int) returns (steps: seq<Step>)
    requires month != other
    ensures Run(Empty, steps).puts[month] > MAX_MONTHLY_WRITES
  {
    var content := Some(Content("object", 9000));
    var put := FirstCall(Call("m", month, 9000, content));
    var away := Visit(put, Call("m", other, 9000, content));
    var back := Visit(away, Call("m", month, 9000, content));
    RunInv(Empty, back);
    var s := Run(Empty, back);
    assert s.usage == Some(Usage(month, 18000, 0)) && s.puts[month] == 2;
    var more := AdmittedIsPut(s, month, 9000, 9000, MAX_MONTHLY_WRITES / 2);
    RunSplit(Empty, back, more);
    steps := back + more;
  }
}
