/**
 The LIVE portfolio delta: a reducer over observations, described from outside by the observations
 alone, and its two-key write, which survives a crash between the keys.
 */
module PortfolioDelta {
  import opened Options
  import opened Sorting
  import opened Lexicographic
  import opened Filters

  datatype State = LiveComplete | LkgValid | PortfolioUnknown

  /** `at` is the parsed timestamp, or `None` when it does not parse. */
  datatype Observation = Observation(state: State, hash: string, codes: seq<string>, at: Option<int>)

  datatype Baseline = Baseline(
    hash: string, codes: seq<string>, observedAt: int, eligible: bool, lastState: State, lastHash: string, lastAt: int)

  datatype Delta = Delta(previousHash: string, currentHash: string, added: seq<string>, removed: seq<string>, at: int)

  // ----- validation

  predicate IsHash(h: string) {
    |h| == 71 && h[..7] == "sha256:" && forall i :: 7 <= i < 71 ==> '0' <= h[i] <= '9' || 'a' <= h[i] <= 'f'
  }

  /** `CN:` or `HK:` and five or six digits. */
  predicate IsCode(c: string) {
    && 8 <= |c| <= 9 && (c[..3] == "CN:" || c[..3] == "HK:")
    && forall i :: 3 <= i < |c| ==> '0' <= c[i] <= '9'
  }

  /** The tag and 64 hexadecimal digits. */
  lemma HashFormat(text: string)
    ensures IsHash(text) <==> exists hex: string ::
      text == "sha256:" + hex && |hex| == 64 && forall i :: 0 <= i < |hex| ==> hex[i] in "0123456789abcdef"
  {
    HexDigits();
    if IsHash(text) {
      var hex := text[7..];
      assert text == "sha256:" + hex;
      assert forall i :: 0 <= i < |hex| ==> hex[i] == text[i + 7];
    }
  }

  /** The market and five or six decimal digits. */
  lemma CodeFormat(text: string)
    ensures IsCode(text) <==> exists digits: string :: IsListing(text, digits)
  {
    HexDigits();
    if IsCode(text) {
      var digits := text[3..];
      assert text == text[..3] + digits;
      assert forall i :: 0 <= i < |digits| ==> digits[i] == text[i + 3];
      assert IsListing(text, digits);
    }
    if digits: string :| IsListing(text, digits) {
      assert text[..3] == "CN:" || text[..3] == "HK:";
      assert forall i :: 3 <= i < |text| ==> text[i] == digits[i - 3];
    }
  }

  predicate IsListing(text: string, digits: string) {
    && (text == "CN:" + digits || text == "HK:" + digits) && (|digits| == 5 || |digits| == 6)
    && forall i :: 0 <= i < |digits| ==> digits[i] in "0123456789"
  }

  lemma HexDigits()
    ensures forall c: char :: c in "0123456789abcdef" <==> '0' <= c <= '9' || 'a' <= c <= 'f'
    ensures forall c: char :: c in "0123456789" <==> '0' <= c <= '9'
  {
  }

  predicate IsCanonical(codes: seq<string>) {
    (forall c :: c in codes ==> IsCode(c)) && NoDuplicates(codes) && SortedBy(codes, LexLeq)
  }

  predicate ValidObservation(o: Observation) {
    IsHash(o.hash) && o.at.Some? && (forall c :: c in o.codes ==> IsCode(c)) && NoDuplicates(o.codes)
  }

  predicate ValidBaseline(b: Baseline) {
    && IsHash(b.hash) && IsCanonical(b.codes) && IsHash(b.lastHash)
    && (b.eligible <==> b.lastState == LiveComplete)
    && b.observedAt <= b.lastAt
  }

  predicate ValidDelta(d: Delta) {
    && IsHash(d.previousHash) && IsHash(d.currentHash) && d.previousHash != d.currentHash
    && IsCanonical(d.added) && IsCanonical(d.removed) && Elements(d.added) !! Elements(d.removed)
  }

  // ----- the reducer

  datatype Reduction = Reduction(baseline: Option<Baseline>, delta: Option<Delta>)

  /** `None`: an argument, or the delta about to be returned, fails validation and the call throws. */
  function Reduce(previous: Option<Baseline>, o: Observation): Option<Reduction> {
    if !ValidObservation(o) || (previous.Some? && !ValidBaseline(previous.value)) then None
    else
      var at := o.at.value;
      if previous.Some? && at < previous.value.lastAt then Some(Reduction(previous, None))
      else if o.state != LiveComplete then
        Some(Reduction(
          match previous
          case None => None
          case Some(b) => Some(b.(eligible := false, lastState := o.state, lastHash := o.hash, lastAt := at)),
          None))
      else
        var codes := Sort(o.codes, LexLeq);
        var next := Baseline(o.hash, codes, at, true, LiveComplete, o.hash, at);
        if previous == None || !previous.value.eligible
           || (at == previous.value.lastAt
               && (o.state != previous.value.lastState || o.hash != previous.value.lastHash))
           || previous.value.hash == o.hash
        then Some(Reduction(Some(next), None))
        else
          var b := previous.value;
          var delta := Delta(b.hash, o.hash, Without(codes, Elements(b.codes)), Without(b.codes, Elements(codes)), at);
          if ValidDelta(delta) then Some(Reduction(Some(next), Some(delta))) else None
  }

  lemma SortIsCanonical(codes: seq<string>)
    requires (forall c :: c in codes ==> IsCode(c)) && NoDuplicates(codes)
    ensures IsCanonical(Sort(codes, LexLeq)) && Elements(Sort(codes, LexLeq)) == Elements(codes)
  {
    LexOrder();
    SortSorts(codes, LexLeq);
    SortPermutes(codes, LexLeq);
    PermutationKeepsDistinct(codes, Sort(codes, LexLeq));
  }

  lemma {:induction false} WithoutKeeps(codes: seq<string>, others: set<string>)
    requires IsCanonical(codes)
    ensures IsCanonical(Without(codes, others)) && Elements(Without(codes, others)) == Elements(codes) - others
  {
    WithoutMembers(codes, others);
    if codes != [] {
      WithoutKeeps(codes[1..], others);
      WithoutMembers(codes[1..], others);
      var rest := Without(codes[1..], others);
      forall k | 0 <= k < |rest| ensures LexLeq(codes[0], rest[k]) && rest[k] != codes[0] {
        assert rest[k] in rest;
        var i :| 0 <= i < |codes[1..]| && codes[1..][i] == rest[k];
        assert codes[i + 1] == rest[k];
      }
    }
  }

  /** On valid input the reducer never throws, and both outputs pass the validators. */
  lemma ReduceIsValid(previous: Option<Baseline>, o: Observation)
    requires ValidObservation(o) && (previous.Some? ==> ValidBaseline(previous.value))
    ensures var r := Reduce(previous, o);
            && r.Some?
            && (r.value.baseline.Some? ==> ValidBaseline(r.value.baseline.value))
            && (r.value.delta.Some? ==> ValidDelta(r.value.delta.value))
    ensures var r := Reduce(previous, o).value;
            r.delta.Some? ==>
              var before, after := Elements(previous.value.codes), Elements(o.codes); var d := r.delta.value;
              && (before - Elements(d.removed)) + Elements(d.added) == after
              && Elements(d.removed) == before - after && Elements(d.added) == after - before
  {
    SortIsCanonical(o.codes);
    if previous.Some? {
      WithoutKeeps(Sort(o.codes, LexLeq), Elements(previous.value.codes));
      WithoutKeeps(previous.value.codes, Elements(Sort(o.codes, LexLeq)));
    }
  }

  // ----- from the observations alone

  ghost predicate ValidTrace(trace: seq<Observation>) {
    forall o :: o in trace ==> ValidObservation(o)
  }

  function After(trace: seq<Observation>): Option<Baseline> {
    if trace == [] then None
    else
      match Reduce(After(trace[..|trace| - 1]), trace[|trace| - 1])
      case Some(r) => r.baseline
      case None => None
  }

  /** The last observation that counted: the first complete one opens the record, older ones never count. */
  function LastCounted(trace: seq<Observation>): Option<Observation> {
    if trace == [] then None
    else
      var o := trace[|trace| - 1];
      match LastCounted(trace[..|trace| - 1])
      case None => if o.state == LiveComplete then Some(o) else None
      case Some(p) => if o.at.Some? && p.at.Some? && o.at.value < p.at.value then Some(p) else Some(o)
  }

  ghost predicate Reflects(b: Option<Baseline>, p: Option<Observation>) {
    match (b, p)
    case (None, None) => true
    case (Some(b), Some(p)) =>
      && ValidBaseline(b) && ValidObservation(p)
      && b.lastState == p.state && b.lastHash == p.hash && p.at == Some(b.lastAt)
      && (b.eligible ==> b.hash == p.hash && Elements(b.codes) == Elements(p.codes) && p.at == Some(b.observedAt))
    case _ => false
  }

  lemma {:induction false} BaselineReflects(trace: seq<Observation>)
    requires ValidTrace(trace)
    ensures Reflects(After(trace), LastCounted(trace))
  {
    if trace != [] {
      var before, o := trace[..|trace| - 1], trace[|trace| - 1];
      assert o in trace && forall p :: p in before ==> p in trace;
      BaselineReflects(before);
      ReduceIsValid(After(before), o);
      SortIsCanonical(o.codes);
    }
  }

  /**
   A delta is emitted exactly between two consecutive counted LIVE_COMPLETE observations at strictly
   increasing times with different hashes; it names both hashes and is their exact difference.
   */
  lemma DeltaIffConsecutiveComplete(trace: seq<Observation>, o: Observation)
    requires ValidTrace(trace) && ValidObservation(o)
    ensures Reduce(After(trace), o).Some?
    ensures var delta := Reduce(After(trace), o).value.delta; var p := LastCounted(trace);
            && (delta.Some?
                <==> p.Some? && p.value.state == LiveComplete && o.state == LiveComplete
                     && p.value.at.value < o.at.value && p.value.hash != o.hash)
            && (delta.Some? ==>
                  var d := delta.value; var before, after := Elements(p.value.codes), Elements(o.codes);
                  && d.previousHash == p.value.hash && d.currentHash == o.hash && Some(d.at) == o.at
                  && Elements(d.removed) == before - after && Elements(d.added) == after - before
                  && (before - Elements(d.removed)) + Elements(d.added) == after)
  {
    BaselineReflects(trace);
    ReduceIsValid(After(trace), o);
  }

  /** An observation older than the last one that counted leaves the state alone. */
  lemma OlderIsIgnored(trace: seq<Observation>, o: Observation)
    requires ValidTrace(trace) && ValidObservation(o)
    requires match LastCounted(trace) case Some(p) => p.at.Some? && o.at.value < p.at.value case None => false
    ensures After(trace + [o]) == After(trace) && LastCounted(trace + [o]) == LastCounted(trace)
  {
    BaselineReflects(trace);
    assert (trace + [o])[..|trace|] == trace;
  }

  // ----- the two-key write

  datatype Kv = Kv(baseline: Option<Baseline>, delta: Option<Delta>)

  predicate Readable(kv: Kv) {
    && (kv.baseline.Some? ==> ValidBaseline(kv.baseline.value))
    && (kv.delta.Some? ==> ValidDelta(kv.delta.value))
  }

  /** How far a call got before the process died. */
  datatype Reached = Nothing | DeltaKey | BothKeys

  function Recorded(kv: Kv, o: Observation, reached: Reached): Kv {
    if !Readable(kv) || reached == Nothing then kv
    else
      match Reduce(kv.baseline, o)
      case None => kv
      case Some(r) =>
        Kv(if reached == BothKeys && r.baseline.Some? then r.baseline else kv.baseline,
           if r.delta.Some? then r.delta else kv.delta)
  }

  ghost function Redelivered(kv: Kv, o: Observation, attempts: seq<Reached>): Kv
    decreases |attempts|
  {
    if attempts == [] then kv else Redelivered(Recorded(kv, o, attempts[0]), o, attempts[1..])
  }

  lemma RecordOnceMore(kv: Kv, o: Observation, reached: Reached)
    ensures Recorded(Recorded(kv, o, reached), o, BothKeys) == Recorded(kv, o, BothKeys)
    ensures Recorded(Recorded(kv, o, BothKeys), o, reached) == Recorded(kv, o, BothKeys)
  {
    if Readable(kv) && ValidObservation(o) {
      ReduceIsValid(kv.baseline, o);
      var r := Reduce(kv.baseline, o).value;
      if r.baseline.Some? {
        ReduceIsValid(r.baseline, o);
        assert Reduce(r.baseline, o).value == Reduction(r.baseline, None);
      }
    }
  }

  /**
   However many deliveries of one observation die before, between or after the two puts, a delivery
   that completes reaches the keys of an undisturbed run, and nothing after it changes them.
   */
  lemma {:induction false} CrashesDoNotShow(kv: Kv, o: Observation, crashed: seq<Reached>, after: seq<Reached>)
    ensures Redelivered(Recorded(Redelivered(kv, o, crashed), o, BothKeys), o, after) == Recorded(kv, o, BothKeys)
    decreases |crashed| + |after|
  {
    if crashed != [] {
      CrashesDoNotShow(Recorded(kv, o, crashed[0]), o, crashed[1..], after);
      RecordOnceMore(kv, o, crashed[0]);
    } else if after != [] {
      RecordOnceMore(kv, o, after[0]);
      RecordOnceMore(kv, o, BothKeys);
      CrashesDoNotShow(Recorded(kv, o, BothKeys), o, [], after[1..]);
    }
  }

  /** What a call leaves: nothing on invalid input, and otherwise the keys it reached, from the reduction. */
  lemma RecordedMeaning(kv: Kv, o: Observation, reached: Reached)
    ensures !Readable(kv) || !ValidObservation(o) || reached == Nothing ==> Recorded(kv, o, reached) == kv
    ensures Readable(kv) && ValidObservation(o) && reached != Nothing ==>
      var r := Reduce(kv.baseline, o);
      && r.Some?
      && (Recorded(kv, o, reached).delta == if r.value.delta.Some? then r.value.delta else kv.delta)
      && (Recorded(kv, o, reached).baseline
          == if reached == BothKeys && r.value.baseline.Some? then r.value.baseline else kv.baseline)
  {
    if Readable(kv) && ValidObservation(o) {
      ReduceIsValid(kv.baseline, o);
    }
  }

  /** Every observation of a trace delivered once, from empty keys. */
  function Delivered(trace: seq<Observation>): Kv {
    if trace == [] then Kv(None, None) else Recorded(Delivered(trace[..|trace| - 1]), trace[|trace| - 1], BothKeys)
  }

  /** Observation `i` gives a delta: it and the last counted one before it are complete, later and different. */
  ghost predicate Emits(trace: seq<Observation>, i: int) {
    0 <= i < |trace|
    && match LastCounted(trace[..i])
       case None => false
       case Some(p) =>
         && p.state == LiveComplete && trace[i].state == LiveComplete && p.hash != trace[i].hash
         && p.at.Some? && trace[i].at.Some? && p.at.value < trace[i].at.value
  }

  /** The delta tells the difference of two observations. */
  ghost predicate Tells(d: Delta, p: Observation, o: Observation) {
    && d.previousHash == p.hash && d.currentHash == o.hash && Some(d.at) == o.at
    && Elements(d.added) == Elements(o.codes) - Elements(p.codes)
    && Elements(d.removed) == Elements(p.codes) - Elements(o.codes)
  }

  ghost predicate LastEmission(trace: seq<Observation>, i: int, d: Delta) {
    && Emits(trace, i) && LastCounted(trace[..i]).Some? && Tells(d, LastCounted(trace[..i]).value, trace[i])
    && forall k :: i < k < |trace| ==> !Emits(trace, k)
  }

  ghost predicate IsLastDelta(trace: seq<Observation>, delta: Option<Delta>) {
    match delta
    case None => forall i :: 0 <= i < |trace| ==> !Emits(trace, i)
    case Some(d) => exists i :: LastEmission(trace, i, d)
  }

  lemma EmitsBefore(trace: seq<Observation>, o: Observation, i: int)
    requires 0 <= i < |trace|
    ensures Emits(trace + [o], i) <==> Emits(trace, i)
    ensures LastCounted((trace + [o])[..i]) == LastCounted(trace[..i])
  {
    assert (trace + [o])[..i] == trace[..i];
  }

  lemma EmitsLast(trace: seq<Observation>, o: Observation)
    requires ValidTrace(trace) && ValidObservation(o)
    ensures Reduce(After(trace), o).Some?
    ensures Emits(trace + [o], |trace|) <==> Reduce(After(trace), o).value.delta.Some?
    ensures Reduce(After(trace), o).value.delta.Some? ==>
      LastEmission(trace + [o], |trace|, Reduce(After(trace), o).value.delta.value)
  {
    DeltaIffConsecutiveComplete(trace, o);
    BaselineReflects(trace);
    assert (trace + [o])[..|trace|] == trace;
  }

  lemma LastDeltaStays(trace: seq<Observation>, o: Observation, delta: Option<Delta>)
    requires IsLastDelta(trace, delta) && !Emits(trace + [o], |trace|)
    ensures IsLastDelta(trace + [o], delta)
  {
    forall i | 0 <= i < |trace| ensures Emits(trace + [o], i) <==> Emits(trace, i) {
      EmitsBefore(trace, o, i);
    }
    if delta.Some? {
      var i :| LastEmission(trace, i, delta.value);
      EmitsBefore(trace, o, i);
      assert LastEmission(trace + [o], i, delta.value);
    }
  }

  /**
   What the two keys hold after any trace: the baseline reflects the last observation that counted, and the delta
   is the last one that any observation gave.
   */
  lemma {:induction false} DeliveredMeaning(trace: seq<Observation>)
    requires ValidTrace(trace)
    ensures var kv := Delivered(trace);
      && Readable(kv) && kv.baseline == After(trace)
      && Reflects(kv.baseline, LastCounted(trace)) && IsLastDelta(trace, kv.delta)
  {
    BaselineReflects(trace);
    if trace != [] {
      var before, o := trace[..|trace| - 1], trace[|trace| - 1];
      assert o in trace && forall p :: p in before ==> p in trace;
      assert trace == before + [o];
      DeliveredMeaning(before);
      RecordedMeaning(Delivered(before), o, BothKeys);
      ReduceIsValid(After(before), o);
      EmitsLast(before, o);
      if Reduce(After(before), o).value.delta == None {
        LastDeltaStays(before, o, Delivered(before).delta);
      }
    }
  }

  /** Each observation is delivered any number of times, dying anywhere, once completely, and again. */
  ghost function DeliveredWithCrashes(trace: seq<Observation>, crashed: nat -> seq<Reached>,
                                      after: nat -> seq<Reached>): Kv {
    if trace == [] then Kv(None, None) else
      var n := |trace| - 1;
      var before := Redelivered(DeliveredWithCrashes(trace[..n], crashed, after), trace[n], crashed(n));
      Redelivered(Recorded(before, trace[n], BothKeys), trace[n], after(n))
  }

  /** So crashes and redeliveries never show in the keys. */
  lemma {:induction false} CrashedTraceIsDelivered(trace: seq<Observation>, crashed: nat -> seq<Reached>,
                                                   after: nat -> seq<Reached>)
    ensures DeliveredWithCrashes(trace, crashed, after) == Delivered(trace)
  {
    if trace != [] {
      var n := |trace| - 1;
      CrashedTraceIsDelivered(trace[..n], crashed, after);
      CrashesDoNotShow(Delivered(trace[..n]), trace[n], crashed(n), after(n));
    }
  }

  class DeltaStore {
    var baseline: Option<Baseline>
    var delta: Option<Delta>

    function Contents(): Kv
      reads this
    {
      Kv(baseline, delta)
    }

    constructor ()
      ensures Contents() == Kv(None, None)
    {
      baseline, delta := None, None;
    }

    /** Read and validate both keys, reduce, put the delta, put the baseline; `reached` is where the process dies. */
    method Record(o: Observation, reached: Reached) returns (emitted: Option<Delta>)
      modifies this
      ensures Contents() == Recorded(old(Contents()), o, reached)
      ensures emitted == (if reached == BothKeys && Readable(old(Contents())) && Reduce(old(baseline), o).Some?
                          then Reduce(old(baseline), o).value.delta else None)
    {
      emitted := None;
      if !Readable(Contents()) || reached == Nothing {
        return;
      }
      var reduction := Reduce(baseline, o);
      if reduction == None {
        return;
      }
      var r := reduction.value;
      if r.delta.Some? {
        delta := r.delta;
      }
      if reached == DeltaKey {
        return;
      }
      if r.baseline.Some? {
        baseline := r.baseline;
      }
      emitted := r.delta;
    }
  }
}
