/**
 The market checkpoint ledger: the comments of one issue, read as checkpoints of trading days with seven
 slots each.  What a read of the ledger says, which checkpoint the server builds from an observation, and
 when an append is stored.
 */
module MarketLedger {
  import opened Options
  import opened Sorting
  import opened Lexicographic
  import opened Filters

  const SLOTS: seq<string> := ["09:10", "09:50", "10:50", "11:50", "13:50", "14:50", "16:45"]

  /** An index into `SLOTS`. */
  type Slot = i: nat | i < 7

  const PREOPEN: Slot := 0
  const CLOSING: Slot := 6

  datatype Schema = PremarketPlan | MarketObservation
  datatype Observation = Premarket | Intraday | Close

  /** `other` stands for the fields nothing here looks at. */
  datatype Gate = BadGate | Gate(id: string, condition: string)
  datatype Gates = BadGates | Gates(list: seq<Gate>)
  datatype Record = Record(active: bool, subjectKey: Option<string>, instrumentKey: Option<string>,
                           mappingVersion: Option<string>, gates: Gates, other: string)

  datatype TransitionStatus = Baseline | Unchanged | MembershipChanged | MetadataChanged
  datatype Transition = Transition(status: TransitionStatus, previousHash: Option<string>, currentHash: string,
                                   hashChanged: bool, membershipChanged: bool, added: seq<string>, removed: seq<string>)

  datatype Checkpoint = Checkpoint(
    schema: Schema, productionRef: string, portfolioVersion: string, key: string, date: string, asOf: int, slot: Slot,
    observation: Observation, previousId: Option<string>, preopenId: Option<string>, universeHash: string,
    records: seq<Record>, transition: Option<Transition>)

  /** A comment of the issue; most comments carry no checkpoint. */
  datatype Comment = Comment(id: string, url: string, createdAt: string, payload: Option<Checkpoint>)

  function Key(date: string, slot: Slot): string {
    "holding-assistant:" + date + ":" + SLOTS[slot]
  }

  lemma KeysDiffer(d: string, s: Slot, e: string, t: Slot)
    requires Key(d, s) == Key(e, t)
    ensures d == e && s == t
  {
    var a, b := Key(d, s), Key(e, t);
    assert |d| == |e|;
    assert d == a[18..18 + |d|] && e == b[18..18 + |e|];
    assert SLOTS[s] == a[19 + |d|..] && SLOTS[t] == b[19 + |e|..];
    assert SLOTS[s][0] == SLOTS[t][0] && SLOTS[s][1] == SLOTS[t][1] && SLOTS[s][3] == SLOTS[t][3];
  }

  // ----- which comments are checkpoints, and their order

  /** `validateCheckpointRelations`. */
  predicate Related(c: Checkpoint) {
    && c.key == Key(c.date, c.slot)
    && if c.slot == PREOPEN
       then c.schema == PremarketPlan && c.observation == Premarket && c.previousId == None && c.preopenId == None
       else c.schema == MarketObservation && c.observation == (if c.slot == CLOSING then Close else Intraday)
  }

  /** The shape of a checkpoint, slot by slot. */
  lemma RelatedMeaning(c: Checkpoint)
    ensures Related(c) <==>
      && c.key == "holding-assistant:" + c.date + ":"
                  + ["09:10", "09:50", "10:50", "11:50", "13:50", "14:50", "16:45"][c.slot]
      && (c.schema == PremarketPlan <==> c.slot == 0)
      && (c.observation == Premarket <==> c.slot == 0) && (c.observation == Close <==> c.slot == 6)
      && (c.slot == 0 ==> c.previousId == None && c.preopenId == None)
  {
  }

  predicate IsCheckpoint(c: Comment) {
    c.payload.Some? && Related(c.payload.value) && c.id != "" && c.createdAt != "" && c.url != ""
  }

  /** A comment without its id, its time or its address is no checkpoint, whatever it carries. */
  lemma CheckpointMeaning(c: Comment)
    ensures IsCheckpoint(c) <==> c.payload.Some? && Related(c.payload.value) && "" !in [c.id, c.createdAt, c.url]
  {
  }

  datatype Rank = Rank(date: string, slot: nat, createdAt: string, id: string)

  function RankOf(c: Comment): Rank {
    match c.payload
    case Some(p) => Rank(p.date, p.slot, c.createdAt, c.id)
    case None => Rank("", 0, c.createdAt, c.id)
  }

  predicate RankLeq(x: Rank, y: Rank) {
    if x.date != y.date then LexLeq(x.date, y.date)
    else if x.slot != y.slot then x.slot < y.slot
    else if x.createdAt != y.createdAt then LexLeq(x.createdAt, y.createdAt)
    else LexLeq(x.id, y.id)
  }

  /** `compareCheckpointOrder(a, b) <= 0`. */
  predicate Before(a: Comment, b: Comment) {
    RankLeq(RankOf(a), RankOf(b))
  }

  lemma BeforeIsOrder()
    ensures Total(Before) && Transitive(Before)
  {
    forall a, b ensures Before(a, b) || Before(b, a) {
      RankTotal(RankOf(a), RankOf(b));
    }
    forall a, b, c | Before(a, b) && Before(b, c) ensures Before(a, c) {
      RankTransitive(RankOf(a), RankOf(b), RankOf(c));
    }
  }

  lemma RankTotal(x: Rank, y: Rank)
    ensures RankLeq(x, y) || RankLeq(y, x)
  {
    LexTotal(x.date, y.date);
    LexTotal(x.createdAt, y.createdAt);
    LexTotal(x.id, y.id);
  }

  lemma RankTransitive(x: Rank, y: Rank, z: Rank)
    requires RankLeq(x, y) && RankLeq(y, z)
    ensures RankLeq(x, z)
  {
    if x.date != y.date || y.date != z.date {
      if x.date != y.date && y.date != z.date {
        LexTransitive(x.date, y.date, z.date);
        if x.date == z.date {
          LexAntisymmetric(x.date, y.date);
        }
      }
    } else if x.slot == y.slot == z.slot {
      if x.createdAt != y.createdAt && y.createdAt != z.createdAt {
        LexTransitive(x.createdAt, y.createdAt, z.createdAt);
        if x.createdAt == z.createdAt {
          LexAntisymmetric(x.createdAt, y.createdAt);
        }
      } else if x.createdAt == y.createdAt == z.createdAt {
        LexTransitive(x.id, y.id, z.id);
      }
    }
  }

  // ----- what a read of the ledger says

  datatype State = State(conflict: bool, preopen: Option<Comment>, previous: Option<Comment>, current: Option<Comment>,
                         previousClose: Option<Comment>)

  function HasKey(key: string): Comment -> bool {
    (c: Comment) => IsCheckpoint(c) && c.payload.value.key == key
  }

  function OfSlot(date: string, slot: Slot): Comment -> bool {
    (c: Comment) => IsCheckpoint(c) && c.payload.value.date == date && c.payload.value.slot == slot
  }

  function EarlierThan(date: string, slot: Slot): Comment -> bool {
    (c: Comment) => IsCheckpoint(c) && c.payload.value.date == date && c.payload.value.slot < slot
  }

  function CloseBefore(date: string): Comment -> bool {
    (c: Comment) => IsCheckpoint(c) && c.payload.value.date != date && LexLeq(c.payload.value.date, date)
                    && c.payload.value.observation == Close
  }

  /** `r` is the first of the comments of `cs` that pass, or there are none. */
  ghost predicate FirstOf(r: Option<Comment>, cs: seq<Comment>, passes: Comment -> bool) {
    match r
    case None => forall c :: c in cs ==> !passes(c)
    case Some(x) => x in cs && passes(x) && forall c :: c in cs && passes(c) ==> Before(x, c)
  }

  ghost predicate LastOf(r: Option<Comment>, cs: seq<Comment>, passes: Comment -> bool) {
    match r
    case None => forall c :: c in cs ==> !passes(c)
    case Some(x) => x in cs && passes(x) && forall c :: c in cs && passes(c) ==> Before(c, x)
  }

  /** No two comments are checkpoints of the same slot. */
  ghost predicate NoConflict(cs: seq<Comment>) {
    forall i, k :: 0 <= i < k < |cs| && IsCheckpoint(cs[i]) && IsCheckpoint(cs[k])
      ==> cs[i].payload.value.key != cs[k].payload.value.key
  }

  ghost predicate Describes(s: State, cs: seq<Comment>, date: string, slot: Slot) {
    && (s.conflict <==> !NoConflict(cs))
    && FirstOf(s.preopen, cs, OfSlot(date, PREOPEN))
    && LastOf(s.previous, cs, EarlierThan(date, slot))
    && FirstOf(s.current, cs, OfSlot(date, slot))
    && LastOf(s.previousClose, cs, CloseBefore(date))
  }

  function Head(s: seq<Comment>): Option<Comment> {
    if s == [] then None else Some(s[0])
  }

  function Last(s: seq<Comment>): Option<Comment> {
    if s == [] then None else Some(s[|s| - 1])
  }

  lemma SortedEnds(list: seq<Comment>, c: Comment)
    requires SortedBy(list, Before) && c in list
    ensures Before(list[0], c) && Before(c, list[|list| - 1])
  {
    var i :| 0 <= i < |list| && list[i] == c;
    RankTotal(RankOf(c), RankOf(c));
  }

  lemma PickedMembers(cs: seq<Comment>, passes: Comment -> bool, c: Comment)
    requires passes(c) ==> IsCheckpoint(c)
    ensures c in Filter(Sort(Filter(cs, IsCheckpoint), Before), passes) <==> c in cs && passes(c)
  {
    FilterMembers(cs, IsCheckpoint, c);
    SortPermutes(Filter(cs, IsCheckpoint), Before);
    FilterMembers(Sort(Filter(cs, IsCheckpoint), Before), passes, c);
  }

  lemma Picks(cs: seq<Comment>, passes: Comment -> bool)
    requires forall c :: passes(c) ==> IsCheckpoint(c)
    ensures var valid := Sort(Filter(cs, IsCheckpoint), Before);
      && FirstOf(Head(Filter(valid, passes)), cs, passes)
      && LastOf(Last(Filter(valid, passes)), cs, passes)
  {
    var list := Filter(Sort(Filter(cs, IsCheckpoint), Before), passes);
    BeforeIsOrder();
    SortSorts(Filter(cs, IsCheckpoint), Before);
    FilterKeepsOrder(Sort(Filter(cs, IsCheckpoint), Before), Before, passes);
    forall c ensures c in list <==> c in cs && passes(c) {
      PickedMembers(cs, passes, c);
    }
    forall c | c in list ensures Before(list[0], c) && Before(c, list[|list| - 1]) {
      SortedEnds(list, c);
    }
    if list != [] {
      assert list[0] in list && list[|list| - 1] in list;
    }
  }

  /** Grouping by key finds a group of two exactly when two comments share a slot. */
  lemma ConflictMeaning(cs: seq<Comment>, byKey: map<string, seq<Comment>>)
    requires forall key :: Group(byKey, key) == Filter(Sort(Filter(cs, IsCheckpoint), Before), HasKey(key))
    ensures (exists key :: key in byKey && |byKey[key]| > 1) <==> !NoConflict(cs)
  {
    forall key ensures |Filter(Sort(Filter(cs, IsCheckpoint), Before), HasKey(key))| == |Filter(cs, HasKey(key))| {
      FilterSort(Filter(cs, IsCheckpoint), Before, HasKey(key));
      FilterWithin(cs, IsCheckpoint, HasKey(key));
    }
    if key :| key in byKey && |byKey[key]| > 1 {
      assert Group(byKey, key) == byKey[key];
      var i, k := FilterPositions(cs, HasKey(key));
    }
    if !NoConflict(cs) {
      var i, k :| 0 <= i < k < |cs| && IsCheckpoint(cs[i]) && IsCheckpoint(cs[k])
        && cs[i].payload.value.key == cs[k].payload.value.key;
      var key := cs[i].payload.value.key;
      FilterTwo(cs, i, k, HasKey(key));
      assert |Group(byKey, key)| > 1;
    }
  }

  lemma CurrentMeaning(valid: seq<Comment>, date: string, slot: Slot)
    ensures Filter(valid, HasKey(Key(date, slot))) == Filter(valid, OfSlot(date, slot))
  {
    forall c | c in valid ensures HasKey(Key(date, slot))(c) <==> OfSlot(date, slot)(c) {
      if IsCheckpoint(c) && c.payload.value.key == Key(date, slot) {
        KeysDiffer(c.payload.value.date, c.payload.value.slot, date, slot);
      }
    }
    FilterSame(valid, HasKey(Key(date, slot)), OfSlot(date, slot));
  }

  function Group(byKey: map<string, seq<Comment>>, key: string): seq<Comment> {
    if key in byKey then byKey[key] else []
  }

  method GroupByKey(valid: seq<Comment>) returns (byKey: map<string, seq<Comment>>)
    requires forall c :: c in valid ==> IsCheckpoint(c)
    ensures forall key :: Group(byKey, key) == Filter(valid, HasKey(key))
  {
    byKey := map[];
    for i := 0 to |valid|
      invariant forall key :: Group(byKey, key) == Filter(valid[..i], HasKey(key))
    {
      var c := valid[i];
      assert IsCheckpoint(c) && valid[..i + 1] == valid[..i] + [c];
      forall k
        ensures Filter(valid[..i + 1], HasKey(k))
                == Filter(valid[..i], HasKey(k)) + if HasKey(k)(c) then [c] else [] {
        FilterSnoc(valid[..i], c, HasKey(k));
      }
      byKey := byKey[c.payload.value.key := Group(byKey, c.payload.value.key) + [c]];
    }
    assert valid[..|valid|] == valid;
  }

  /** `buildState`: sort the checkpoints, group them by key, pick from the sorted list. */
  method BuildState(cs: seq<Comment>, date: string, slot: Slot) returns (s: State)
    ensures Describes(s, cs, date, slot)
  {
    var valid := Sort(Filter(cs, IsCheckpoint), Before);
    SortPermutes(Filter(cs, IsCheckpoint), Before);
    forall c | c in valid ensures IsCheckpoint(c) {
      FilterMembers(cs, IsCheckpoint, c);
    }
    var byKey := GroupByKey(valid);
    s := State(exists key :: key in byKey && |byKey[key]| > 1,
               Head(Filter(valid, OfSlot(date, PREOPEN))),
               Last(Filter(valid, EarlierThan(date, slot))),
               Head(Group(byKey, Key(date, slot))),
               Last(Filter(valid, CloseBefore(date))));
    ConflictMeaning(cs, byKey);
    CurrentMeaning(valid, date, slot);
    Picks(cs, OfSlot(date, PREOPEN));
    Picks(cs, OfSlot(date, slot));
    Picks(cs, EarlierThan(date, slot));
    Picks(cs, CloseBefore(date));
  }

  /** The previous close is the closing checkpoint of the latest earlier day that has one. */
  lemma PreviousCloseMeaning(s: State, cs: seq<Comment>, date: string, slot: Slot)
    requires Describes(s, cs, date, slot)
    ensures s.previousClose.Some? ==>
      var c := s.previousClose.value;
      && c in cs && IsCheckpoint(c) && c.payload.value.slot == 6
      && c.payload.value.date != date && LexLeq(c.payload.value.date, date)
      && forall d :: d in cs && IsCheckpoint(d) && d.payload.value.slot == 6
                     && d.payload.value.date != date && LexLeq(d.payload.value.date, date)
           ==> LexLeq(d.payload.value.date, c.payload.value.date)
    ensures s.previousClose.None? ==>
      forall d :: d in cs && IsCheckpoint(d) && d.payload.value.slot == 6 && LexLeq(d.payload.value.date, date)
        ==> d.payload.value.date == date
  {
    forall d | d in cs && IsCheckpoint(d) && d.payload.value.slot == 6 ensures d.payload.value.observation == Close {
      RelatedMeaning(d.payload.value);
    }
    if s.previousClose.Some? {
      var c := s.previousClose.value;
      RelatedMeaning(c.payload.value);
      forall d | d in cs && CloseBefore(date)(d) ensures LexLeq(d.payload.value.date, c.payload.value.date) {
        assert Before(d, c);
        LexTotal(d.payload.value.date, d.payload.value.date);
      }
    }
  }

  /** Among several checkpoints of a slot the oldest comment is the current one, by id when they are equally old. */
  lemma CurrentIsOldest(s: State, cs: seq<Comment>, date: string, slot: Slot, c: Comment)
    requires Describes(s, cs, date, slot)
    requires c in cs && IsCheckpoint(c) && c.payload.value.date == date && c.payload.value.slot == slot
    ensures s.current.Some?
    ensures var first := s.current.value;
      && first in cs && IsCheckpoint(first) && first.payload.value.date == date && first.payload.value.slot == slot
      && LexLeq(first.createdAt, c.createdAt)
      && (first.createdAt == c.createdAt ==> LexLeq(first.id, c.id))
  {
    assert OfSlot(date, slot)(c);
    var first := s.current.value;
    assert Before(first, c);
    LexTotal(c.createdAt, c.createdAt);
  }
}
