/**
 Building a checkpoint from an observation and appending it: references, universe transition, replay and
 conflict, chain checks.
 */
module MarketAppend {
  import opened Options
  import opened Sorting
  import opened Lexicographic
  import opened Filters
  import opened Text
  import opened MarketLedger

  // ----- active instruments

  datatype InstrumentKey = GoodKey(key: string) | ConflictingKeys | MissingKey

  function Present(text: Option<string>): Option<string> {
    if text.Some? && Trim(text.value) != "" then Some(Trim(text.value)) else None
  }

  function KeyOf(r: Record): InstrumentKey {
    var subject, instrument := Present(r.subjectKey), Present(r.instrumentKey);
    if subject.Some? && instrument.Some? && subject != instrument then ConflictingKeys
    else if subject.Some? then GoodKey(subject.value)
    else if instrument.Some? then GoodKey(instrument.value)
    else MissingKey
  }

  function Trimmed(text: Option<string>): string {
    match text case Some(t) => Trim(t) case None => ""
  }

  /** A record goes by the one key it names, under either name or both; blank keys do not count. */
  lemma KeyMeaning(r: Record, key: string)
    ensures var subject, instrument := Trimmed(r.subjectKey), Trimmed(r.instrumentKey);
      && (KeyOf(r) == GoodKey(key) <==>
            key != "" && ((subject == key && instrument in ["", key]) || (subject == "" && instrument == key)))
      && (KeyOf(r) == ConflictingKeys <==> subject != "" && instrument != "" && subject != instrument)
      && (KeyOf(r) == MissingKey <==> subject == "" && instrument == "")
  {
    var subject, instrument := Present(r.subjectKey), Present(r.instrumentKey);
    assert Trimmed(r.subjectKey) == if subject.Some? then subject.value else "";
    assert Trimmed(r.instrumentKey) == if instrument.Some? then instrument.value else "";
  }

  predicate WellKeyed(records: seq<Record>) {
    forall i :: 0 <= i < |records| && records[i].active ==> KeyOf(records[i]).GoodKey?
  }

  ghost predicate Holds(records: seq<Record>, key: string) {
    exists i :: 0 <= i < |records| && records[i].active && KeyOf(records[i]) == GoodKey(key)
  }

  /** The keys a JavaScript `Set` collects: each once, in order of first insertion. */
  function Collected(records: seq<Record>): seq<string> {
    if records == [] then [] else
      var before, r := Collected(records[..|records| - 1]), records[|records| - 1];
      if r.active && KeyOf(r).GoodKey? && KeyOf(r).key !in before then before + [KeyOf(r).key] else before
  }

  /** `None`: some ACTIVE record has no key or two different ones. */
  function ActiveKeys(records: seq<Record>): Option<seq<string>> {
    if WellKeyed(records) then Some(Sort(Collected(records), LexLeq)) else None
  }

  lemma HoldsSnoc(init: seq<Record>, r: Record, key: string)
    ensures Holds(init + [r], key) <==> Holds(init, key) || (r.active && KeyOf(r) == GoodKey(key))
  {
    var records := init + [r];
    if i :| 0 <= i < |init| && init[i].active && KeyOf(init[i]) == GoodKey(key) {
      assert records[i] == init[i];
    }
    if i :| 0 <= i < |records| && records[i].active && KeyOf(records[i]) == GoodKey(key) {
      assert i < |init| ==> init[i] == records[i];
    }
    assert records[|init|] == r;
  }

  lemma {:induction false} CollectedMeaning(records: seq<Record>)
    ensures NoDuplicates(Collected(records))
    ensures forall key :: key in Collected(records) <==> Holds(records, key)
  {
    if records != [] {
      var init, r := records[..|records| - 1], records[|records| - 1];
      CollectedMeaning(init);
      assert records == init + [r];
      forall key ensures key in Collected(records) <==> Holds(records, key) {
        HoldsSnoc(init, r, key);
      }
    }
  }

  /** The keys of the ACTIVE records, each once, sorted. */
  lemma ActiveKeysMeaning(records: seq<Record>)
    requires ActiveKeys(records).Some?
    ensures NoDuplicates(ActiveKeys(records).value) && SortedBy(ActiveKeys(records).value, LexLeq)
    ensures forall key :: key in ActiveKeys(records).value <==> Holds(records, key)
  {
    CollectedMeaning(records);
    LexOrder();
    SortSorts(Collected(records), LexLeq);
    SortPermutes(Collected(records), LexLeq);
    PermutationKeepsDistinct(Collected(records), Sort(Collected(records), LexLeq));
  }

  lemma CollectOne(records: seq<Record>, i: nat)
    requires i < |records|
    ensures Collected(records[..i + 1]) ==
            var before, key := Collected(records[..i]), KeyOf(records[i]);
            if records[i].active && key.GoodKey? && key.key !in before then before + [key.key] else before
    ensures WellKeyed(records[..i + 1])
            <==> WellKeyed(records[..i]) && (records[i].active ==> KeyOf(records[i]).GoodKey?)
    ensures WellKeyed(records) ==> WellKeyed(records[..i + 1])
  {
    assert records[..i + 1][..i] == records[..i];
  }

  method ActiveInstrumentKeys(records: seq<Record>) returns (keys: Option<seq<string>>)
    ensures keys == ActiveKeys(records)
  {
    var found: seq<string> := [];
    for i := 0 to |records|
      invariant found == Collected(records[..i]) && WellKeyed(records[..i])
    {
      var key := KeyOf(records[i]);
      CollectOne(records, i);
      if records[i].active {
        if !key.GoodKey? {
          return None;
        }
        if key.key !in found {
          found := found + [key.key];
        }
      }
    }
    assert records[..|records|] == records;
    keys := Some(Sort(found, LexLeq));
  }

  // ----- universe transitions

  /** `withUniverseTransition`; `None` when it throws. */
  function TransitionFrom(c: Checkpoint, previous: Option<Checkpoint>): Option<Transition> {
    if c.slot == PREOPEN || previous.None? then
      Some(Transition(Baseline, None, c.universeHash, false, false, [], []))
    else
      var p := previous.value;
      var before, now := ActiveKeys(p.records), ActiveKeys(c.records);
      if before.None? || now.None? then None else
        var added, removed := Without(now.value, Elements(before.value)), Without(before.value, Elements(now.value));
        var membership, hash := added != [] || removed != [], c.universeHash != p.universeHash;
        if membership && !hash then None
        else Some(Transition(if membership then MembershipChanged else if hash then MetadataChanged else Unchanged,
                             Some(p.universeHash), c.universeHash, hash, membership, added, removed))
  }

  method Difference(keys: seq<string>, other: set<string>) returns (r: seq<string>)
    ensures r == Without(keys, other)
  {
    r := [];
    for i := |keys| downto 0
      invariant r == Without(keys[i..], other)
    {
      r := (if keys[i] in other then [] else [keys[i]]) + r;
    }
  }

  method WithUniverseTransition(c: Checkpoint, previous: Option<Checkpoint>) returns (transition: Option<Transition>)
    ensures transition == TransitionFrom(c, previous)
  {
    if c.slot == PREOPEN || previous.None? {
      return Some(Transition(Baseline, None, c.universeHash, false, false, [], []));
    }
    var before := ActiveInstrumentKeys(previous.value.records);
    if before.None? {
      return None;
    }
    var now := ActiveInstrumentKeys(c.records);
    if now.None? {
      return None;
    }
    var added := Difference(now.value, Elements(before.value));
    var removed := Difference(before.value, Elements(now.value));
    var membershipChanged := |added| > 0 || |removed| > 0;
    var hashChanged := c.universeHash != previous.value.universeHash;
    if membershipChanged && !hashChanged {
      return None;
    }
    transition := Some(Transition(
      if membershipChanged then MembershipChanged else if hashChanged then MetadataChanged else Unchanged,
      Some(previous.value.universeHash), c.universeHash, hashChanged, membershipChanged, added, removed));
  }

  function Keys(c: Checkpoint): set<string> {
    match ActiveKeys(c.records) case Some(keys) => Elements(keys) case None => {}
  }

  /** Old keys minus removed plus added are the new keys; nothing is added that was there or removed that was not. */
  ghost predicate Moves(t: Transition, before: set<string>, after: set<string>) {
    && after == (before - Elements(t.removed)) + Elements(t.added)
    && (forall k :: k in t.added ==> k !in before)
    && (forall k :: k in t.removed ==> k in before)
  }

  lemma Differences(before: seq<string>, now: seq<string>)
    ensures var added, removed := Without(now, Elements(before)), Without(before, Elements(now));
      && Elements(added) == Elements(now) - Elements(before) && Elements(removed) == Elements(before) - Elements(now)
      && (added == [] && removed == [] <==> Elements(before) == Elements(now))
  {
    var added, removed := Without(now, Elements(before)), Without(before, Elements(now));
    WithoutMembers(now, Elements(before));
    WithoutMembers(before, Elements(now));
    if added != [] {
      assert added[0] in Elements(added);
    } else if removed != [] {
      assert removed[0] in Elements(removed);
    }
  }

  lemma TransitionMoves(before: seq<string>, now: seq<string>, t: Transition)
    requires t.added == Without(now, Elements(before)) && t.removed == Without(before, Elements(now))
    ensures Moves(t, Elements(before), Elements(now))
  {
    Differences(before, now);
    assert forall k :: k in t.added ==> k in Elements(t.added);
    assert forall k :: k in t.removed ==> k in Elements(t.removed);
  }

  lemma TransitionMeaning(c: Checkpoint, p: Checkpoint)
    requires c.slot != PREOPEN && TransitionFrom(c, Some(p)).Some?
    ensures var t := TransitionFrom(c, Some(p)).value;
      && Moves(t, Keys(p), Keys(c))
      && (t.status == Unchanged <==> Keys(p) == Keys(c) && p.universeHash == c.universeHash)
      && (t.status == MetadataChanged <==> Keys(p) == Keys(c) && p.universeHash != c.universeHash)
      && (t.status == MembershipChanged <==> Keys(p) != Keys(c))
      && t.previousHash == Some(p.universeHash) && t.currentHash == c.universeHash
      && (t.hashChanged <==> p.universeHash != c.universeHash) && (t.membershipChanged <==> Keys(p) != Keys(c))
  {
    var before, now := ActiveKeys(p.records).value, ActiveKeys(c.records).value;
    TransitionMoves(before, now, TransitionFrom(c, Some(p)).value);
    Differences(before, now);
  }

  /** Both lists of a transition are sorted, each key once. */
  lemma TransitionIsSorted(c: Checkpoint, p: Checkpoint)
    requires c.slot != PREOPEN && TransitionFrom(c, Some(p)).Some?
    ensures var t := TransitionFrom(c, Some(p)).value;
      && SortedBy(t.added, LexLeq) && NoDuplicates(t.added) && SortedBy(t.removed, LexLeq) && NoDuplicates(t.removed)
  {
    ActiveKeysMeaning(p.records);
    ActiveKeysMeaning(c.records);
    WithoutKeepsSorted(ActiveKeys(c.records).value, Elements(ActiveKeys(p.records).value));
    WithoutKeepsSorted(ActiveKeys(p.records).value, Elements(ActiveKeys(c.records).value));
  }

  lemma WithoutKeepsSorted(keys: seq<string>, other: set<string>)
    requires SortedBy(keys, LexLeq) && NoDuplicates(keys)
    ensures SortedBy(Without(keys, other), LexLeq) && NoDuplicates(Without(keys, other))
  {
    WithoutKeepsOrder(keys, other, LexLeq);
    WithoutKeepsOrder(keys, other, (x: string, y: string) => x != y);
  }

  /** The preopen checkpoint and the first one of a day compare with nothing, whatever their records are. */
  lemma BaselineMeaning(c: Checkpoint, previous: Option<Checkpoint>)
    ensures c.slot == PREOPEN || previous.None? <==>
      exists t :: TransitionFrom(c, previous) == Some(t) && t.status == Baseline
    ensures c.slot == PREOPEN || previous.None? ==>
      var t := TransitionFrom(c, previous).value;
      && t.previousHash == None && t.currentHash == c.universeHash && !t.hashChanged && !t.membershipChanged
      && t.added == [] && t.removed == []
  {
    if c.slot == PREOPEN || previous.None? {
      var t := TransitionFrom(c, previous).value;
      assert t.status == Baseline;
    }
  }

  // ----- building and appending

  /** A parsed observation command. */
  datatype Command = Command(date: string, asOf: int, slot: Slot, productionRef: string, records: seq<Record>)

  function IdOf(c: Option<Comment>): Option<string> {
    match c case Some(x) => Some(x.id) case None => None
  }

  function PayloadOf(c: Option<Comment>): Option<Checkpoint> {
    match c case Some(x) => x.payload case None => None
  }

  function ObservationOf(slot: Slot): Observation {
    if slot == PREOPEN then Premarket else if slot == CLOSING then Close else Intraday
  }

  /** `buildMarketObservationBatch` on the state it read; `None`: the ledger has duplicate keys. */
  function BuildBatch(s: State, cmd: Command, portfolioVersion: string, universeHash: string): Option<Checkpoint> {
    if s.conflict then None else
      var premarket := cmd.slot == PREOPEN;
      Some(Checkpoint(
        if premarket then PremarketPlan else MarketObservation, cmd.productionRef, portfolioVersion,
        Key(cmd.date, cmd.slot), cmd.date, cmd.asOf, cmd.slot, ObservationOf(cmd.slot), if premarket then None
          else IdOf(s.previous),
        if premarket then None else IdOf(s.preopen), universeHash, cmd.records, None))
  }

  /** What an observation becomes: its own fields, the shape of its slot, and at a later slot the references. */
  lemma BatchMeaning(s: State, cmd: Command, version: string, hash: string)
    ensures BuildBatch(s, cmd, version, hash).None? <==> s.conflict
    ensures !s.conflict ==>
      var b := BuildBatch(s, cmd, version, hash).value;
      && Related(b) && b.date == cmd.date && b.slot == cmd.slot && b.asOf == cmd.asOf && b.records == cmd.records
      && b.productionRef == cmd.productionRef && b.portfolioVersion == version && b.universeHash == hash
      && b.transition == None
      && (cmd.slot == PREOPEN ==> b.previousId == None && b.preopenId == None)
      && (cmd.slot != PREOPEN && s.previous.Some? ==> b.previousId == Some(s.previous.value.id))
      && (cmd.slot != PREOPEN && s.preopen.Some? ==> b.preopenId == Some(s.preopen.value.id))
  {
  }

  datatype Verdict =
    | ValidationFailed
    | Conflict
    | Replay(comment: Comment)
    | ChainMismatch
    | Store(checkpoint: Checkpoint)

  /** What `appendMarketCheckpoint` decides on the state it read, before it posts anything. */
  function Decide(s: State, submitted: Checkpoint): Verdict {
    if !Related(submitted) then ValidationFailed
    else if s.conflict then Conflict
    else
      var transition := TransitionFrom(submitted, PayloadOf(s.previous));
      if transition.None? then ValidationFailed else
        var checkpoint := submitted.(transition := transition);
        if s.current.Some? then
          if Some(submitted) == s.current.value.payload || Some(checkpoint) == s.current.value.payload
          then Replay(s.current.value) else Conflict
        else if checkpoint.previousId != IdOf(s.previous) then ChainMismatch
        else if checkpoint.preopenId != (if checkpoint.slot == PREOPEN then None else IdOf(s.preopen))
        then ChainMismatch
        else Store(checkpoint)
  }

  /** Before the first slot of a day nothing is earlier, so nothing precedes a preopen checkpoint. */
  lemma NothingBeforePreopen(s: State, cs: seq<Comment>, date: string)
    requires Describes(s, cs, date, PREOPEN)
    ensures s.previous == None
  {
  }

  /** Without duplicate keys two reads of one ledger pick the same comments. */
  lemma ReadsAgree(s: State, t: State, cs: seq<Comment>, date: string, slot: Slot)
    requires Describes(s, cs, date, slot) && Describes(t, cs, date, slot) && !s.conflict
    ensures !t.conflict && s.previous == t.previous && s.preopen == t.preopen && s.current == t.current
  {
    if s.previous.Some? {
      SameSlotSame(cs, s.previous.value, t.previous.value);
    }
    if s.preopen.Some? {
      SameSlotSame(cs, s.preopen.value, t.preopen.value);
    }
    if s.current.Some? {
      SameSlotSame(cs, s.current.value, t.current.value);
    }
  }

  lemma SameSlotSame(cs: seq<Comment>, a: Comment, b: Comment)
    requires NoConflict(cs) && a in cs && b in cs && IsCheckpoint(a) && IsCheckpoint(b)
    requires a.payload.value.date == b.payload.value.date && a.payload.value.slot == b.payload.value.slot
    ensures a == b
  {
    var i :| 0 <= i < |cs| && cs[i] == a;
    var k :| 0 <= k < |cs| && cs[k] == b;
    assert a.payload.value.key == b.payload.value.key;
  }

  /**
   A batch built on a ledger and appended to the same ledger never fails the relation or the chain checks:
   what remains is the transition, and a checkpoint of the slot that is already there.
   */
  lemma BuiltBatchFitsTheLedger(s: State, t: State, cs: seq<Comment>, cmd: Command, version: string, hash: string)
    requires Describes(s, cs, cmd.date, cmd.slot) && Describes(t, cs, cmd.date, cmd.slot) && !s.conflict
    ensures var batch := BuildBatch(s, cmd, version, hash).value;
      && Related(batch)
      && Decide(t, batch) != ChainMismatch
      && (Decide(t, batch) == ValidationFailed <==> TransitionFrom(batch, PayloadOf(t.previous)) == None)
      && (Decide(t, batch).Store? <==> TransitionFrom(batch, PayloadOf(t.previous)).Some? && t.current == None)
  {
    ReadsAgree(s, t, cs, cmd.date, cmd.slot);
    if cmd.slot == PREOPEN {
      NothingBeforePreopen(t, cs, cmd.date);
    }
  }

  /** A transition is refused only for an ill-keyed ACTIVE record, or for new members under an old hash. */
  lemma RefusedTransitions(c: Checkpoint, p: Checkpoint)
    requires c.slot != PREOPEN
    ensures TransitionFrom(c, Some(p)) == None <==>
      !WellKeyed(c.records) || !WellKeyed(p.records) || (Keys(c) != Keys(p) && c.universeHash == p.universeHash)
  {
    if WellKeyed(c.records) && WellKeyed(p.records) {
      Differences(ActiveKeys(p.records).value, ActiveKeys(c.records).value);
    }
  }

  /** The references of a built batch name checkpoints of the same day, of an earlier slot, that are in the ledger. */
  lemma ReferencesPointBack(s: State, cs: seq<Comment>, cmd: Command, version: string, hash: string)
    requires Describes(s, cs, cmd.date, cmd.slot) && !s.conflict
    ensures var batch := BuildBatch(s, cmd, version, hash).value;
      && (batch.previousId.Some? ==>
            exists c :: c in cs && c.id == batch.previousId.value && EarlierThan(cmd.date, cmd.slot)(c))
      && (batch.preopenId.Some? ==>
            exists c :: c in cs && c.id == batch.preopenId.value && OfSlot(cmd.date, PREOPEN)(c) && PREOPEN < cmd.slot)
      && (cmd.slot != PREOPEN && (exists c :: c in cs && EarlierThan(cmd.date, cmd.slot)(c)) ==> batch.previousId.Some?)
  {
    if s.previous.Some? {
      assert s.previous.value in cs && EarlierThan(cmd.date, cmd.slot)(s.previous.value);
    }
    if s.preopen.Some? {
      assert s.preopen.value in cs && OfSlot(cmd.date, PREOPEN)(s.preopen.value);
    }
  }

  /** The stored checkpoint, submitted again to the ledger that now ends with it, is a replay of that comment. */
  lemma ResubmissionReplays(s: State, t: State, cs: seq<Comment>, submitted: Checkpoint, posted: Comment)
    requires Describes(s, cs, submitted.date, submitted.slot) && Decide(s, submitted).Store?
    requires IsCheckpoint(posted) && posted.payload == Some(Decide(s, submitted).checkpoint)
    requires Describes(t, cs + [posted], submitted.date, submitted.slot)
    ensures Decide(t, submitted) == Replay(posted)
  {
    var after := cs + [posted];
    AppendedSlotIsNew(cs, posted, s, submitted);
    assert posted in after && OfSlot(submitted.date, submitted.slot)(posted);
    assert t.current.Some?;
    SameSlotSame(after, t.current.value, posted);
    if s.previous.Some? {
      assert s.previous.value in after;
      assert t.previous.value in cs;
      SameSlotSame(cs, s.previous.value, t.previous.value);
    } else {
      assert t.previous == None;
    }
  }

  lemma AppendedSlotIsNew(cs: seq<Comment>, posted: Comment, s: State, submitted: Checkpoint)
    requires Describes(s, cs, submitted.date, submitted.slot) && Decide(s, submitted).Store?
    requires IsCheckpoint(posted) && posted.payload == Some(Decide(s, submitted).checkpoint)
    ensures NoConflict(cs + [posted])
  {
    forall i | 0 <= i < |cs| && IsCheckpoint(cs[i]) ensures cs[i].payload.value.key != posted.payload.value.key {
      assert cs[i] in cs && !OfSlot(submitted.date, submitted.slot)(cs[i]);
      if cs[i].payload.value.key == posted.payload.value.key {
        KeysDiffer(cs[i].payload.value.date, cs[i].payload.value.slot, submitted.date, submitted.slot);
      }
    }
  }

  // ----- what a verdict means for the ledger

  /** The checkpoint of the latest slot before this one, on this day. */
  ghost predicate IsLatest(cs: seq<Comment>, date: string, slot: Slot, c: Comment) {
    && c in cs && EarlierThan(date, slot)(c)
    && forall d :: d in cs && EarlierThan(date, slot)(d) ==> d.payload.value.slot <= c.payload.value.slot
  }

  lemma PreviousIsLatest(s: State, cs: seq<Comment>, date: string, slot: Slot)
    requires Describes(s, cs, date, slot) && NoConflict(cs)
    ensures forall c :: IsLatest(cs, date, slot, c) <==> s.previous == Some(c)
  {
    forall c ensures IsLatest(cs, date, slot, c) <==> s.previous == Some(c) {
      if s.previous == Some(c) {
        forall d | d in cs && EarlierThan(date, slot)(d) ensures d.payload.value.slot <= c.payload.value.slot {
          assert Before(d, c);
        }
      }
      if IsLatest(cs, date, slot, c) {
        var p := s.previous.value;
        assert EarlierThan(date, slot)(p) && Before(c, p);
        SameSlotSame(cs, p, c);
      }
    }
  }

  ghost predicate NamesPrevious(cs: seq<Comment>, c: Checkpoint) {
    match c.previousId
    case None => forall d :: !IsLatest(cs, c.date, c.slot, d)
    case Some(id) => exists d :: IsLatest(cs, c.date, c.slot, d) && d.id == id
  }

  ghost predicate NamesPreopen(cs: seq<Comment>, c: Checkpoint) {
    if c.slot == PREOPEN then c.preopenId == None else
      match c.preopenId
      case None => forall d :: d in cs ==> !OfSlot(c.date, PREOPEN)(d)
      case Some(id) => exists d :: d in cs && OfSlot(c.date, PREOPEN)(d) && d.id == id
  }

  lemma PreopenIsNamed(s: State, cs: seq<Comment>, c: Checkpoint)
    requires Describes(s, cs, c.date, c.slot) && NoConflict(cs)
    ensures NamesPreopen(cs, c) <==> c.preopenId == if c.slot == PREOPEN then None else IdOf(s.preopen)
  {
    if c.slot != PREOPEN && s.preopen.Some? {
      var p := s.preopen.value;
      assert p in cs && OfSlot(c.date, PREOPEN)(p);
      forall d | d in cs && OfSlot(c.date, PREOPEN)(d) ensures d == p {
        SameSlotSame(cs, d, p);
      }
    }
  }

  ghost predicate TransitionDefined(cs: seq<Comment>, c: Checkpoint) {
    forall d :: IsLatest(cs, c.date, c.slot, d) ==> TransitionFrom(c, d.payload).Some?
  }

  lemma TransitionIsDefined(s: State, cs: seq<Comment>, c: Checkpoint)
    requires Describes(s, cs, c.date, c.slot) && NoConflict(cs)
    ensures TransitionDefined(cs, c) <==> TransitionFrom(c, PayloadOf(s.previous)).Some?
    ensures NamesPrevious(cs, c) <==> c.previousId == IdOf(s.previous)
  {
    PreviousIsLatest(s, cs, c.date, c.slot);
    if s.previous.Some? {
      assert IsLatest(cs, c.date, c.slot, s.previous.value);
    }
  }

  /**
   A submission is stored exactly when it is well formed, the ledger has no duplicate and no checkpoint of its
   slot, and its references name the latest earlier checkpoint and the preopen one of its day.
   */
  lemma StoredIff(s: State, cs: seq<Comment>, submitted: Checkpoint)
    requires Describes(s, cs, submitted.date, submitted.slot)
    ensures Decide(s, submitted).Store?
            <==> && Related(submitted) && NoConflict(cs) && TransitionDefined(cs, submitted)
                 && (forall c :: c in cs ==> !OfSlot(submitted.date, submitted.slot)(c))
                 && NamesPrevious(cs, submitted) && NamesPreopen(cs, submitted)
    ensures Decide(s, submitted).Store? ==>
      var stored := Decide(s, submitted).checkpoint;
      && stored == submitted.(transition := stored.transition)
      && (forall d :: IsLatest(cs, submitted.date, submitted.slot, d)
            ==> stored.transition == TransitionFrom(submitted, d.payload))
      && ((forall d :: !IsLatest(cs, submitted.date, submitted.slot, d))
            ==> stored.transition == TransitionFrom(submitted, None))
  {
    if NoConflict(cs) {
      TransitionIsDefined(s, cs, submitted);
      PreviousIsLatest(s, cs, submitted.date, submitted.slot);
      PreopenIsNamed(s, cs, submitted);
      if s.current.Some? {
        assert s.current.value in cs && OfSlot(submitted.date, submitted.slot)(s.current.value);
      }
    }
  }

  /** And it is a replay of `c` exactly when `c` holds it already, as submitted or with the ledger's transition. */
  lemma ReplayedIff(s: State, cs: seq<Comment>, submitted: Checkpoint, c: Comment)
    requires Describes(s, cs, submitted.date, submitted.slot)
    ensures Decide(s, submitted) == Replay(c)
            <==> && Related(submitted) && NoConflict(cs) && TransitionDefined(cs, submitted)
                 && c in cs && OfSlot(submitted.date, submitted.slot)(c)
                 && (c.payload == Some(submitted)
                     || c.payload == Some(submitted.(transition := TransitionFrom(submitted, PayloadOf(s.previous)))))
  {
    if NoConflict(cs) {
      TransitionIsDefined(s, cs, submitted);
      if c in cs && OfSlot(submitted.date, submitted.slot)(c) {
        SameSlotSame(cs, c, s.current.value);
      }
    }
  }

  /** The checkpoint of `c` is not the submitted one, neither as submitted nor with the ledger's transition. */
  ghost predicate Differs(cs: seq<Comment>, submitted: Checkpoint, c: Comment) {
    && c.payload != Some(submitted)
    && (forall d :: IsLatest(cs, submitted.date, submitted.slot, d) ==>
          c.payload != Some(submitted.(transition := TransitionFrom(submitted, d.payload))))
    && ((forall d :: !IsLatest(cs, submitted.date, submitted.slot, d)) ==>
          c.payload != Some(submitted.(transition := TransitionFrom(submitted, None))))
  }

  lemma DiffersMeaning(s: State, cs: seq<Comment>, submitted: Checkpoint, c: Comment)
    requires Describes(s, cs, submitted.date, submitted.slot) && NoConflict(cs)
    ensures Differs(cs, submitted, c) <==>
      && c.payload != Some(submitted)
      && c.payload != Some(submitted.(transition := TransitionFrom(submitted, PayloadOf(s.previous))))
  {
    PreviousIsLatest(s, cs, submitted.date, submitted.slot);
    if s.previous.Some? {
      assert IsLatest(cs, submitted.date, submitted.slot, s.previous.value);
    }
  }

  /** The three refusals, in the order they are found. */
  lemma RefusedIff(s: State, cs: seq<Comment>, submitted: Checkpoint)
    requires Describes(s, cs, submitted.date, submitted.slot)
    ensures Decide(s, submitted) == ValidationFailed
            <==> !Related(submitted) || (NoConflict(cs) && !TransitionDefined(cs, submitted))
    ensures Decide(s, submitted) == ChainMismatch
            <==> && Related(submitted) && NoConflict(cs) && TransitionDefined(cs, submitted)
                 && (forall c :: c in cs ==> !OfSlot(submitted.date, submitted.slot)(c))
                 && !(NamesPrevious(cs, submitted) && NamesPreopen(cs, submitted))
    ensures Decide(s, submitted) == Conflict
            <==> && Related(submitted)
                 && (!NoConflict(cs)
                     || (TransitionDefined(cs, submitted)
                         && exists c :: c in cs && OfSlot(submitted.date, submitted.slot)(c)
                                        && Differs(cs, submitted, c)))
  {
    if NoConflict(cs) {
      TransitionIsDefined(s, cs, submitted);
      PreopenIsNamed(s, cs, submitted);
      if s.current.Some? {
        var c := s.current.value;
        assert c in cs && OfSlot(submitted.date, submitted.slot)(c);
        DiffersMeaning(s, cs, submitted, c);
        forall d | d in cs && OfSlot(submitted.date, submitted.slot)(d) ensures d == c {
          SameSlotSame(cs, d, c);
        }
      }
    }
  }

  // ----- ill-keyed checkpoints

  /** The first checkpoint of a day is stored whatever its records are. */
  lemma FirstCheckpointIsUnchecked(s: State, cs: seq<Comment>, submitted: Checkpoint)
    requires Describes(s, cs, submitted.date, submitted.slot) && NoConflict(cs)
    requires forall c :: c in cs && IsCheckpoint(c) ==> c.payload.value.date != submitted.date
    requires Related(submitted) && submitted.previousId == None && submitted.preopenId == None
    ensures Decide(s, submitted).Store?
  {
    assert s.previous == None && s.current == None && s.preopen == None;
  }

  /** Behind a checkpoint with ill-keyed records nothing is stored. */
  lemma IllKeyedPreviousRefuses(s: State, submitted: Checkpoint)
    requires s.previous.Some? && s.previous.value.payload.Some? && !WellKeyed(s.previous.value.payload.value.records)
    requires submitted.slot != PREOPEN
    ensures !Decide(s, submitted).Store? && !Decide(s, submitted).Replay?
  {
  }

  function Successor(s: State, date: string, slot: Slot): Checkpoint {
    var p := PayloadOf(s.previous);
    Checkpoint(if slot == PREOPEN then PremarketPlan else MarketObservation, "", "", Key(date, slot), date, 0, slot,
               ObservationOf(slot), IdOf(s.previous), IdOf(s.preopen), if p.Some? then p.value.universeHash else "",
               if p.Some? then p.value.records else [], None)
  }

  /** A later slot that is still empty can be filled if and only if the checkpoint before it is well keyed. */
  lemma SlotOpenIffWellKeyed(s: State, cs: seq<Comment>, date: string, slot: Slot)
    requires Describes(s, cs, date, slot) && !s.conflict && s.current == None && slot != PREOPEN
    ensures (exists c: Checkpoint :: c.date == date && c.slot == slot && Decide(s, c).Store?)
            <==> s.previous == None || WellKeyed(s.previous.value.payload.value.records)
  {
    if s.previous == None || WellKeyed(s.previous.value.payload.value.records) {
      var c := Successor(s, date, slot);
      if s.previous.Some? {
        RefusedTransitions(c, s.previous.value.payload.value);
      }
      assert Decide(s, c).Store?;
    }
  }
}
