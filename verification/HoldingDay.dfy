/**
 The independent checker of one trading day: which days it passes, and which days of a ledger grown by
 serial appends those are.
 */
module HoldingDay {
  import opened Options
  import opened Filters
  import opened MarketLedger
  import opened MarketAppend
  import opened MarketBook

  // ----- gates

  /** Record `i` lists gate `k`. */
  predicate GateAt(records: seq<Record>, i: nat, k: nat, id: string, condition: string) {
    && i < |records| && records[i].gates.Gates? && k < |records[i].gates.list|
    && records[i].gates.list[k] == Gate(id, condition)
  }

  ghost predicate Lists(records: seq<Record>, id: string, condition: string) {
    exists i: nat, k: nat :: GateAt(records, i, k, id, condition)
  }

  predicate GateFormed(g: Gate) {
    g.Gate? && g.id != "" && g.condition != ""
  }

  predicate RecordFormed(r: Record) {
    r.gates.Gates? && forall k :: 0 <= k < |r.gates.list| ==> GateFormed(r.gates.list[k])
  }

  /** Every gate is well formed and no gate is listed with two conditions. */
  ghost predicate GatesOk(records: seq<Record>) {
    && (forall i :: 0 <= i < |records| ==> RecordFormed(records[i]))
    && (forall id, c, d :: Lists(records, id, c) && Lists(records, id, d) ==> c == d)
  }

  ghost predicate IsGateMap(gates: map<string, string>, records: seq<Record>) {
    forall id, c :: (id in gates && gates[id] == c) <==> Lists(records, id, c)
  }

  /** Gates of the records before `n`, and of record `n` before its gate `m`. */
  ghost predicate ListsUpTo(records: seq<Record>, n: nat, m: nat, id: string, condition: string) {
    exists i: nat, k: nat :: GateAt(records, i, k, id, condition) && (i < n || (i == n && k < m))
  }

  ghost predicate EntryOk(gates: map<string, string>, records: seq<Record>, n: nat, m: nat, id: string,
                          condition: string) {
    (id in gates && gates[id] == condition) <==> ListsUpTo(records, n, m, id, condition)
  }

  ghost predicate IsPartialMap(gates: map<string, string>, records: seq<Record>, n: nat, m: nat) {
    forall id, c :: EntryOk(gates, records, n, m, id, c)
  }

  lemma OneMoreGate(records: seq<Record>, n: nat, m: nat, id: string, c: string)
    requires n < |records| && records[n].gates.Gates? && m < |records[n].gates.list|
    ensures ListsUpTo(records, n, m + 1, id, c)
      <==> ListsUpTo(records, n, m, id, c) || records[n].gates.list[m] == Gate(id, c)
  {
    if records[n].gates.list[m] == Gate(id, c) {
      assert GateAt(records, n, m, id, c);
    }
  }

  lemma ExtendMap(found: map<string, string>, records: seq<Record>, n: nat, m: nat, id: string, condition: string)
    requires n < |records| && records[n].gates.Gates? && m < |records[n].gates.list|
    requires records[n].gates.list[m] == Gate(id, condition) && IsPartialMap(found, records, n, m)
    requires id in found ==> found[id] == condition
    ensures IsPartialMap(found[id := condition], records, n, m + 1)
  {
    var next, after := found[id := condition], m + 1;
    forall x, c ensures EntryOk(next, records, n, after, x, c) {
      OneMoreGate(records, n, m, x, c);
      assert EntryOk(found, records, n, m, x, c);
    }
  }

  lemma NextRecord(found: map<string, string>, records: seq<Record>, n: nat)
    requires n < |records| && records[n].gates.Gates? && IsPartialMap(found, records, n, |records[n].gates.list|)
    ensures IsPartialMap(found, records, n + 1, 0)
  {
    var after := n + 1;
    forall x, c ensures EntryOk(found, records, after, 0, x, c) {
      assert EntryOk(found, records, n, |records[n].gates.list|, x, c);
      assert ListsUpTo(records, n, |records[n].gates.list|, x, c) <==> ListsUpTo(records, after, 0, x, c);
    }
  }

  lemma AllRecords(found: map<string, string>, records: seq<Record>)
    requires IsPartialMap(found, records, |records|, 0)
    ensures IsGateMap(found, records)
  {
    forall x, c ensures (x in found && found[x] == c) <==> Lists(records, x, c) {
      assert EntryOk(found, records, |records|, 0, x, c);
      assert ListsUpTo(records, |records|, 0, x, c) <==> Lists(records, x, c);
    }
  }

  /** The inner loop of `_gate_map` over one record; `None`: it raised. */
  method RecordGates(records: seq<Record>, n: nat, before: map<string, string>)
    returns (gates: Option<map<string, string>>)
    requires n < |records| && IsPartialMap(before, records, n, 0)
    ensures gates.Some? ==> RecordFormed(records[n]) && IsPartialMap(gates.value, records, n + 1, 0)
    ensures gates.None? ==> !GatesOk(records)
  {
    if records[n].gates.BadGates? {
      assert !RecordFormed(records[n]);
      return None;
    }
    var list := records[n].gates.list;
    var found := before;
    for m := 0 to |list|
      invariant IsPartialMap(found, records, n, m)
      invariant forall k :: 0 <= k < m ==> GateFormed(list[k])
    {
      var gate := list[m];
      if gate.BadGate? || gate.id == "" || gate.condition == "" {
        assert !GateFormed(records[n].gates.list[m]) && !RecordFormed(records[n]);
        return None;
      }
      if gate.id in found && found[gate.id] != gate.condition {
        assert EntryOk(found, records, n, m, gate.id, found[gate.id]);
        assert ListsUpTo(records, n, m, gate.id, found[gate.id]);
        assert GateAt(records, n, m, gate.id, gate.condition);
        assert Lists(records, gate.id, gate.condition) && Lists(records, gate.id, found[gate.id]);
        return None;
      }
      ExtendMap(found, records, n, m, gate.id, gate.condition);
      found := found[gate.id := gate.condition];
    }
    NextRecord(found, records, n);
    gates := Some(found);
  }

  method GateMap(records: seq<Record>) returns (gates: Option<map<string, string>>)
    ensures gates.Some? <==> GatesOk(records)
    ensures gates.Some? ==> IsGateMap(gates.value, records)
  {
    var found: map<string, string> := map[];
    for n := 0 to |records|
      invariant IsPartialMap(found, records, n, 0)
      invariant forall i :: 0 <= i < n ==> RecordFormed(records[i])
    {
      var next := RecordGates(records, n, found);
      if next.None? {
        return None;
      }
      found := next.value;
    }
    AllRecords(found, records);
    gates := Some(found);
  }

  /** No gate of `later` has another condition than the preopen plan gave it. */
  ghost predicate Unmutated(plan: seq<Record>, later: seq<Record>) {
    forall id, c, d :: Lists(plan, id, c) && Lists(later, id, d) ==> c == d
  }

  method SameConditions(plan: map<string, string>, current: map<string, string>) returns (ok: bool)
    ensures ok <==> forall id :: id in plan && id in current ==> plan[id] == current[id]
  {
    ok := forall id :: id in current && id in plan ==> plan[id] == current[id];
  }

  // ----- benchmark mappings

  /** Record `i` maps this instrument with this version. */
  predicate MapsAt(records: seq<Record>, i: nat, instrument: string, version: string) {
    i < |records| && records[i].instrumentKey == Some(instrument) && records[i].mappingVersion == Some(version)
      && version != ""
  }

  ghost predicate Maps(records: seq<Record>, instrument: string, version: string) {
    exists i: nat :: MapsAt(records, i, instrument, version)
  }

  ghost predicate Consistent(records: seq<Record>) {
    forall x, v, w :: Maps(records, x, v) && Maps(records, x, w) ==> v == w
  }

  ghost predicate IsVersionMap(versions: map<string, string>, records: seq<Record>) {
    forall x, v :: (x in versions && versions[x] == v) <==> Maps(records, x, v)
  }

  lemma MapsConcat(a: seq<Record>, b: seq<Record>, x: string, v: string)
    ensures Maps(a + b, x, v) <==> Maps(a, x, v) || Maps(b, x, v)
  {
    if i: nat :| MapsAt(a, i, x, v) {
      assert MapsAt(a + b, i, x, v);
    }
    if i: nat :| MapsAt(b, i, x, v) {
      assert MapsAt(a + b, |a| + i, x, v);
    }
    if i: nat :| MapsAt(a + b, i, x, v) {
      assert if i < |a| then MapsAt(a, i, x, v) else MapsAt(b, i - |a|, x, v);
    }
  }

  lemma OneMoreRecord(seen: seq<Record>, r: Record, x: string, v: string)
    ensures Maps(seen + [r], x, v) <==>
      Maps(seen, x, v) || (r.instrumentKey == Some(x) && r.mappingVersion == Some(v) && v != "")
  {
    MapsConcat(seen, [r], x, v);
    if r.instrumentKey == Some(x) && r.mappingVersion == Some(v) && v != "" {
      assert MapsAt([r], 0, x, v);
    }
  }

  lemma InconsistentPrefix(a: seq<Record>, b: seq<Record>)
    requires !Consistent(a)
    ensures !Consistent(a + b)
  {
    var x, v, w :| Maps(a, x, v) && Maps(a, x, w) && v != w;
    MapsConcat(a, b, x, v);
    MapsConcat(a, b, x, w);
  }

  /** `mapping_versions.setdefault` over the records of one slot; `None`: it raised. */
  method MergeVersions(versions: map<string, string>, ghost seen: seq<Record>, records: seq<Record>)
    returns (merged: Option<map<string, string>>)
    requires IsVersionMap(versions, seen) && Consistent(seen)
    ensures merged.Some? <==> Consistent(seen + records)
    ensures merged.Some? ==> IsVersionMap(merged.value, seen + records)
  {
    var found := versions;
    assert seen + records[..0] == seen;
    for i := 0 to |records|
      invariant IsVersionMap(found, seen + records[..i]) && Consistent(seen + records[..i])
    {
      var r := records[i];
      ghost var before := seen + records[..i];
      assert seen + records[..i + 1] == before + [r];
      forall x, v ensures Maps(before + [r], x, v) <==>
          Maps(before, x, v) || (r.instrumentKey == Some(x) && r.mappingVersion == Some(v) && v != "") {
        OneMoreRecord(before, r, x, v);
      }
      if r.instrumentKey.Some? && r.mappingVersion.Some? && r.mappingVersion.value != "" {
        var instrument, version := r.instrumentKey.value, r.mappingVersion.value;
        if instrument in found && found[instrument] != version {
          assert Maps(before + [r], instrument, version) && Maps(before + [r], instrument, found[instrument]);
          InconsistentPrefix(before + [r], records[i + 1..]);
          assert before + [r] + records[i + 1..] == seen + records;
          return None;
        }
        found := found[instrument := version];
      }
    }
    assert records[..|records|] == records;
    merged := Some(found);
  }

  // ----- the day

  function OnDay(date: string): Comment -> bool {
    (c: Comment) => c.payload.Some? && c.payload.value.date == date
  }

  /** `load_checkpoints`. */
  function Found(cs: seq<Comment>, date: string): seq<Comment> {
    Filter(cs, OnDay(date))
  }

  predicate WellFormed(c: Comment, date: string) {
    c.id != "" && c.createdAt != "" && OnDay(date)(c) && c.payload.value.key == Key(date, c.payload.value.slot)
  }

  /** `day` holds the comments of the day, one for each slot and no other. */
  ghost predicate Arranged(cs: seq<Comment>, date: string, day: seq<Comment>) {
    var found := Found(cs, date);
    && (forall c :: c in found ==> WellFormed(c, date))
    && OneEach(found) && |day| == 7
    && (forall s: Slot :: day[s] in found && day[s].payload.Some? && day[s].payload.value.slot == s)
  }

  ghost predicate OneEach(found: seq<Comment>) {
    forall i, k :: 0 <= i < k < |found| && found[i].payload.Some? && found[k].payload.Some?
      ==> found[i].payload.value.slot != found[k].payload.value.slot
  }

  /** The seven payloads. */
  predicate IsDay(day: seq<Comment>) {
    |day| == 7 && forall i :: 0 <= i < |day| ==> day[i].payload.Some?
  }

  function P(day: seq<Comment>, s: Slot): Checkpoint
    requires IsDay(day)
  {
    day[s].payload.value
  }

  predicate LinksOk(day: seq<Comment>, s: Slot)
    requires IsDay(day) && s > 0
  {
    P(day, s).previousId == Some(day[s - 1].id) && P(day, s).preopenId == Some(day[0].id)
  }

  predicate ChainOk(day: seq<Comment>)
    requires IsDay(day)
  {
    forall s: Slot :: s > 0 ==> LinksOk(day, s)
  }

  ghost predicate SlotOk(day: seq<Comment>, s: Slot)
    requires IsDay(day) && s > 0
  {
    && LinksOk(day, s)
    && P(day, s).productionRef == P(day, 0).productionRef && P(day, s).universeHash == P(day, 0).universeHash
    && GatesOk(P(day, s).records) && Unmutated(P(day, 0).records, P(day, s).records)
  }

  ghost predicate PlanOk(day: seq<Comment>)
    requires IsDay(day)
  {
    && P(day, 0).schema == PremarketPlan && P(day, 0).observation == Premarket
    && GatesOk(P(day, 0).records) && exists id, c :: Lists(P(day, 0).records, id, c)
  }

  /** The records of the slots 1 to `s`. */
  function LaterRecords(day: seq<Comment>, s: Slot): seq<Record>
    requires IsDay(day)
  {
    if s == 0 then [] else LaterRecords(day, s - 1) + P(day, s).records
  }

  ghost predicate DayOk(day: seq<Comment>)
    requires IsDay(day)
  {
    && PlanOk(day) && (forall s: Slot :: s > 0 ==> SlotOk(day, s))
    && Consistent(LaterRecords(day, CLOSING)) && P(day, CLOSING).observation == Close
  }

  /** Slot `t` after the preopen maps this instrument with this version. */
  ghost predicate MapsInSlot(day: seq<Comment>, t: nat, x: string, v: string)
    requires IsDay(day)
  {
    1 <= t < 7 && Maps(day[t].payload.value.records, x, v)
  }

  lemma {:induction false} LaterMaps(day: seq<Comment>, s: Slot, x: string, v: string)
    requires IsDay(day)
    ensures Maps(LaterRecords(day, s), x, v) <==> exists t: nat :: t <= s && MapsInSlot(day, t, x, v)
    decreases s
  {
    if s > 0 {
      LaterMaps(day, s - 1, x, v);
      MapsConcat(LaterRecords(day, s - 1), P(day, s).records, x, v);
      assert Maps(P(day, s).records, x, v) <==> MapsInSlot(day, s, x, v);
    }
  }

  lemma OneVersionEach(day: seq<Comment>)
    requires IsDay(day)
    ensures Consistent(LaterRecords(day, CLOSING)) <==>
      forall s: nat, t: nat, x, v, w :: MapsInSlot(day, s, x, v) && MapsInSlot(day, t, x, w) ==> v == w
  {
    var all := LaterRecords(day, CLOSING);
    if Consistent(all) {
      forall s: nat, t: nat, x, v, w | MapsInSlot(day, s, x, v) && MapsInSlot(day, t, x, w) ensures v == w {
        LaterMaps(day, CLOSING, x, v);
        LaterMaps(day, CLOSING, x, w);
      }
    } else {
      var x, v, w :| Maps(all, x, v) && Maps(all, x, w) && v != w;
      LaterMaps(day, CLOSING, x, v);
      LaterMaps(day, CLOSING, x, w);
    }
  }

  /** A later slot links back, keeps the plan's run and universe, and contradicts none of its gates. */
  ghost predicate FollowsPlan(plan: Checkpoint, planId: string, beforeId: string, c: Checkpoint) {
    && c.previousId == Some(beforeId) && c.preopenId == Some(planId)
    && c.productionRef == plan.productionRef && c.universeHash == plan.universeHash
    && GatesOk(c.records)
    && forall id, c1, c2 :: Lists(plan.records, id, c1) && Lists(c.records, id, c2) ==> c1 == c2
  }

  lemma SlotMeaning(day: seq<Comment>, s: Slot)
    requires IsDay(day) && s > 0
    ensures SlotOk(day, s) <==> FollowsPlan(day[0].payload.value, day[0].id, day[s - 1].id, day[s].payload.value)
  {
  }

  /** All that is asked of a day. */
  lemma DayMeaning(day: seq<Comment>)
    requires IsDay(day)
    ensures DayOk(day) <==>
      && day[0].payload.value.schema == PremarketPlan && day[0].payload.value.observation == Premarket
      && GatesOk(day[0].payload.value.records) && (exists id, c :: Lists(day[0].payload.value.records, id, c))
      && (forall s :: 1 <= s < 7 ==>
            FollowsPlan(day[0].payload.value, day[0].id, day[s - 1].id, day[s].payload.value))
      && (forall s: nat, t: nat, x, v, w :: MapsInSlot(day, s, x, v) && MapsInSlot(day, t, x, w) ==> v == w)
      && day[6].payload.value.observation == Close
  {
    OneVersionEach(day);
    var follows := forall s :: 1 <= s < 7 ==>
      FollowsPlan(day[0].payload.value, day[0].id, day[s - 1].id, day[s].payload.value);
    if follows {
      forall s: Slot | s > 0 ensures SlotOk(day, s) {
        SlotMeaning(day, s);
      }
    }
    if forall s: Slot :: s > 0 ==> SlotOk(day, s) {
      forall s | 1 <= s < 7
        ensures FollowsPlan(day[0].payload.value, day[0].id, day[s - 1].id, day[s].payload.value) {
        SlotMeaning(day, s);
      }
    }
  }

  datatype DayResult = Failed | Passed(day: seq<Comment>)

  lemma NotArranged(cs: seq<Comment>, date: string, s: Slot)
    requires forall k :: 0 <= k < |Found(cs, date)| ==> OfDay(Found(cs, date)[k]) != Some(s)
    ensures forall day :: !Arranged(cs, date, day)
  {
    forall day ensures !Arranged(cs, date, day) {
      assert Arranged(cs, date, day) ==> day[s] in Found(cs, date) && OfDay(day[s]) == Some(s);
    }
  }

  function OfDay(c: Comment): Option<Slot> {
    match c.payload case Some(p) => Some(p.slot) case None => None
  }

  /** Where each slot's comment is in the list. */
  ghost predicate FiledAt(found: seq<Comment>, bySlot: map<Slot, Comment>, place: map<Slot, nat>, n: nat)
    requires n <= |found|
  {
    && place.Keys == bySlot.Keys
    && (forall s :: s in place ==> place[s] < n && found[place[s]] == bySlot[s] && OfDay(bySlot[s]) == Some(s))
    && (forall k :: 0 <= k < n ==> found[k].payload.Some? && found[k].payload.value.slot in place
                                   && place[found[k].payload.value.slot] == k)
  }

  lemma FileNext(found: seq<Comment>, bySlot: map<Slot, Comment>, place: map<Slot, nat>, n: nat, slot: Slot)
    requires n < |found| && FiledAt(found, bySlot, place, n) && OfDay(found[n]) == Some(slot) && slot !in bySlot
    ensures FiledAt(found, bySlot[slot := found[n]], place[slot := n], n + 1)
  {
  }

  lemma FiledTwice(found: seq<Comment>, bySlot: map<Slot, Comment>, place: map<Slot, nat>, n: nat, slot: Slot)
    requires n < |found| && FiledAt(found, bySlot, place, n) && OfDay(found[n]) == Some(slot) && slot in bySlot
    ensures !OneEach(found)
  {
    assert found[place[slot]].payload.Some? && found[n].payload.Some? && place[slot] < n;
  }

  lemma FiledAll(cs: seq<Comment>, date: string, bySlot: map<Slot, Comment>, place: map<Slot, nat>, day: seq<Comment>)
    requires FiledAt(Found(cs, date), bySlot, place, |Found(cs, date)|)
    requires forall k :: 0 <= k < |Found(cs, date)| ==> WellFormed(Found(cs, date)[k], date)
    requires |day| == 7 && forall s: Slot :: s in bySlot && day[s] == bySlot[s]
    ensures Arranged(cs, date, day) && IsDay(day)
  {
    var found := Found(cs, date);
    forall i | 0 <= i < |day| ensures day[i] in found && OfDay(day[i]) == Some(i) {
      var s: Slot := i;
      assert day[s] == bySlot[s] && found[place[s]] == bySlot[s];
    }
    forall i, k | 0 <= i < k < |found| && found[i].payload.Some? && found[k].payload.Some?
      ensures found[i].payload.value.slot != found[k].payload.value.slot {
      assert place[found[i].payload.value.slot] == i && place[found[k].payload.value.slot] == k;
    }
  }

  /** The loop that files each comment under its slot. */
  method FileBySlot(cs: seq<Comment>, date: string)
    returns (ok: bool, bySlot: map<Slot, Comment>, ghost place: map<Slot, nat>)
    ensures ok ==> FiledAt(Found(cs, date), bySlot, place, |Found(cs, date)|)
    ensures ok ==> forall k :: 0 <= k < |Found(cs, date)| ==> WellFormed(Found(cs, date)[k], date)
    ensures !ok ==> forall day :: !Arranged(cs, date, day)
  {
    var found := Found(cs, date);
    bySlot, place, ok := map[], map[], false;
    for i := 0 to |found|
      invariant FiledAt(found, bySlot, place, i)
      invariant forall k :: 0 <= k < i ==> WellFormed(found[k], date)
    {
      var c := found[i];
      FilterMembers(cs, OnDay(date), c);
      assert c in found && OnDay(date)(c);
      var slot := c.payload.value.slot;
      if c.id == "" || c.createdAt == "" || c.payload.value.key != Key(date, slot) {
        assert !WellFormed(c, date);
        return;
      }
      if slot in bySlot {
        FiledTwice(found, bySlot, place, i, slot);
        return;
      }
      FileNext(found, bySlot, place, i, slot);
      bySlot, place := bySlot[slot := c], place[slot := i];
    }
    ok := true;
  }

  lemma SlotMissing(cs: seq<Comment>, date: string, bySlot: map<Slot, Comment>, place: map<Slot, nat>, slot: Slot)
    requires FiledAt(Found(cs, date), bySlot, place, |Found(cs, date)|) && slot !in bySlot
    ensures forall day :: !Arranged(cs, date, day)
  {
    NotArranged(cs, date, slot);
  }

  /** The slots in order, or one that is missing. */
  method ListSlots(bySlot: map<Slot, Comment>) returns (list: seq<Comment>, missing: Option<Slot>)
    ensures missing.Some? ==> missing.value !in bySlot
    ensures missing.None? ==> |list| == 7 && forall s: Slot :: s in bySlot && list[s] == bySlot[s]
  {
    list := [];
    for i := 0 to 7
      invariant |list| == i
      invariant forall s: Slot :: s < i ==> s in bySlot && list[s] == bySlot[s]
    {
      var slot: Slot := i;
      if slot !in bySlot {
        return list, Some(slot);
      }
      list := list + [bySlot[slot]];
    }
    missing := None;
  }

  method BySlot(cs: seq<Comment>, date: string) returns (day: Option<seq<Comment>>)
    ensures day.Some? ==> Arranged(cs, date, day.value) && IsDay(day.value)
    ensures day.None? ==> forall d :: !Arranged(cs, date, d)
  {
    var ok, bySlot, place := FileBySlot(cs, date);
    if !ok {
      return None;
    }
    var list, missing := ListSlots(bySlot);
    if missing.Some? {
      SlotMissing(cs, date, bySlot, place, missing.value);
      return None;
    }
    FiledAll(cs, date, bySlot, place, list);
    day := Some(list);
  }

  // ----- the checks on the seven comments

  method CheckPlan(day: seq<Comment>) returns (gates: Option<map<string, string>>)
    requires IsDay(day)
    ensures gates.Some? <==> PlanOk(day)
    ensures gates.Some? ==> IsGateMap(gates.value, P(day, 0).records)
  {
    if P(day, 0).schema != PremarketPlan || P(day, 0).observation != Premarket {
      return None;
    }
    gates := GateMap(P(day, 0).records);
    if gates.Some? {
      if gates.value == map[] {
        assert forall id, c :: !Lists(P(day, 0).records, id, c);
        return None;
      }
      ghost var id :| id in gates.value;
      assert Lists(P(day, 0).records, id, gates.value[id]);
    }
  }

  /** The checks on one slot of the chain except the mappings. */
  method CheckSlot(day: seq<Comment>, s: Slot, previousId: string, plan: map<string, string>) returns (ok: bool)
    requires IsDay(day) && s > 0 && previousId == day[s - 1].id && IsGateMap(plan, P(day, 0).records)
    ensures ok <==> SlotOk(day, s)
  {
    if P(day, s).previousId != Some(previousId) || P(day, s).preopenId != Some(day[0].id) {
      return false;
    }
    if P(day, s).productionRef != P(day, 0).productionRef || P(day, s).universeHash != P(day, 0).universeHash {
      return false;
    }
    var current := GateMap(P(day, s).records);
    if current.None? {
      return false;
    }
    ok := SameConditions(plan, current.value);
    GateMapsAgree(plan, P(day, 0).records, current.value, P(day, s).records);
  }

  lemma GateMapsAgree(plan: map<string, string>, a: seq<Record>, current: map<string, string>, b: seq<Record>)
    requires IsGateMap(plan, a) && IsGateMap(current, b)
    ensures Unmutated(a, b) <==> forall id :: id in plan && id in current ==> plan[id] == current[id]
  {
    if Unmutated(a, b) {
      forall id | id in plan && id in current ensures plan[id] == current[id] {
        assert Lists(a, id, plan[id]) && Lists(b, id, current[id]);
      }
    }
  }

  /** `validate_day`: passes exactly the days that meet every clause. */
  method ValidateDay(cs: seq<Comment>, date: string) returns (r: DayResult)
    ensures r.Passed? ==> Arranged(cs, date, r.day) && IsDay(r.day) && DayOk(r.day)
    ensures r.Failed? ==> forall day :: Arranged(cs, date, day) && IsDay(day) ==> !DayOk(day)
  {
    var filed := BySlot(cs, date);
    if filed.None? {
      return Failed;
    }
    var ok := CheckDay(filed.value);
    forall day | Arranged(cs, date, day) && IsDay(day) ensures day == filed.value {
      ArrangedOnce(cs, date, day, filed.value);
    }
    r := if ok then Passed(filed.value) else Failed;
  }

  lemma ArrangedOnce(cs: seq<Comment>, date: string, a: seq<Comment>, b: seq<Comment>)
    requires Arranged(cs, date, a) && Arranged(cs, date, b)
    ensures a == b
  {
    forall i | 0 <= i < 7 ensures a[i] == b[i] {
      var s: Slot := i;
      assert a[s] in Found(cs, date) && b[s] in Found(cs, date);
      InFoundOnce(Found(cs, date), a[s], b[s]);
    }
  }

  lemma InFoundOnce(found: seq<Comment>, a: Comment, b: Comment)
    requires OneEach(found) && a in found && b in found && OfDay(a).Some? && OfDay(a) == OfDay(b)
    ensures a == b
  {
    var i :| 0 <= i < |found| && found[i] == a;
    var k :| 0 <= k < |found| && found[k] == b;
  }

  method CheckDay(day: seq<Comment>) returns (ok: bool)
    requires IsDay(day)
    ensures ok <==> DayOk(day)
  {
    var plan := CheckPlan(day);
    if plan.None? {
      return false;
    }
    var previousId := day[0].id;
    var versions: map<string, string> := map[];
    for i := 1 to 7
      invariant previousId == day[i - 1].id
      invariant forall s: Slot :: 0 < s < i ==> SlotOk(day, s)
      invariant Consistent(LaterRecords(day, i - 1)) && IsVersionMap(versions, LaterRecords(day, i - 1))
    {
      var slot: Slot := i;
      var fits := CheckSlot(day, slot, previousId, plan.value);
      if !fits {
        return false;
      }
      var merged := MergeVersions(versions, LaterRecords(day, slot - 1), P(day, slot).records);
      if merged.None? {
        InconsistentDay(day, slot, CLOSING);
        return false;
      }
      versions := merged.value;
      previousId := day[slot].id;
    }
    ok := P(day, CLOSING).observation == Close;
  }

  lemma {:induction false} InconsistentDay(day: seq<Comment>, s: Slot, t: Slot)
    requires IsDay(day) && s <= t && !Consistent(LaterRecords(day, s))
    ensures !Consistent(LaterRecords(day, t))
    decreases t
  {
    if s < t {
      InconsistentDay(day, s, t - 1);
      InconsistentPrefix(LaterRecords(day, t - 1), P(day, t).records);
    }
  }

  // ----- producer meets checker

  /** `x` was written before `y`. */
  ghost predicate Precedes(cs: seq<Comment>, x: Comment, y: Comment) {
    exists i, k :: 0 <= i < k < |cs| && cs[i] == x && cs[k] == y
  }

  ghost predicate InOrder(cs: seq<Comment>, day: seq<Comment>)
    requires IsDay(day)
  {
    forall s: Slot :: s > 0 ==> Precedes(cs, day[s - 1], day[s])
  }

  /** What an arranged day is on a ledger that only appends have grown. */
  lemma DayOnLedger(cs: seq<Comment>, date: string, day: seq<Comment>, s: Slot) returns (k: nat, read: State)
    requires Inv(cs) && Arranged(cs, date, day) && IsDay(day)
    ensures k < |cs| && cs[k] == day[s] && IsCheckpoint(day[s]) && P(day, s).date == date && P(day, s).slot == s
    ensures Describes(read, cs[..k], date, s) && !read.conflict
    ensures Decide(read, P(day, s).(transition := None)) == Store(P(day, s))
  {
    FilterMembers(cs, OnDay(date), day[s]);
    assert day[s] in Found(cs, date);
    k :| 0 <= k < |cs| && cs[k] == day[s];
    assert StoredAt(cs, k);
    assert WellFormed(day[s], date);
    read :| Describes(read, cs[..k], date, s) && Decide(read, P(day, s).(transition := None)) == Store(P(day, s));
  }

  lemma StoredFields(read: State, c: Checkpoint)
    requires Decide(read, c.(transition := None)) == Store(c)
    ensures c.previousId == IdOf(read.previous)
    ensures c.slot != PREOPEN ==> c.preopenId == IdOf(read.preopen)
    ensures c.transition == TransitionFrom(c.(transition := None), PayloadOf(read.previous))
  {
  }

  lemma DayInLedger(cs: seq<Comment>, date: string, day: seq<Comment>, s: Slot)
    requires Inv(cs) && Arranged(cs, date, day) && IsDay(day)
    ensures day[s] in cs && OfSlot(date, s)(day[s])
  {
    var k, _ := DayOnLedger(cs, date, day, s);
  }

  /** The read of the ledger before `day[s]` that its references and its transition come from. */
  lemma ReadBefore(cs: seq<Comment>, date: string, day: seq<Comment>, s: Slot) returns (k: nat, read: State)
    requires Inv(cs) && Arranged(cs, date, day) && IsDay(day)
    ensures k < |cs| && cs[k] == day[s]
    ensures Describes(read, cs[..k], date, s)
    ensures P(day, s).previousId == IdOf(read.previous)
    ensures s != PREOPEN ==> P(day, s).preopenId == IdOf(read.preopen)
    ensures P(day, s).transition == TransitionFrom(P(day, s).(transition := None), PayloadOf(read.previous))
    ensures P(day, s).transition.Some?
  {
    k, read := DayOnLedger(cs, date, day, s);
    StoredFields(read, P(day, s));
  }

  lemma SameId(cs: seq<Comment>, a: Comment, b: Comment)
    requires DistinctIds(cs) && a in cs && b in cs && a.id == b.id
    ensures a == b
  {
    var i :| 0 <= i < |cs| && cs[i] == a;
    var k :| 0 <= k < |cs| && cs[k] == b;
  }

  /** A read of the comments before `k` that picks a comment with the id of `x` picked `x`. */
  lemma PickedByIdPrecedes(cs: seq<Comment>, k: nat, picked: Comment, x: Comment)
    requires DistinctIds(cs) && k < |cs| && picked in cs[..k] && x in cs && picked.id == x.id
    ensures picked == x && Precedes(cs, x, cs[k])
  {
    var n :| 0 <= n < k && cs[n] == picked;
    SameId(cs, picked, x);
  }

  lemma PrecedesIsBefore(cs: seq<Comment>, x: Comment, k: nat)
    requires DistinctIds(cs) && k < |cs| && Precedes(cs, x, cs[k])
    ensures x in cs[..k]
  {
    var a, b :| 0 <= a < b < |cs| && cs[a] == x && cs[b] == cs[k];
    OnePlace(cs, b, k);
    assert cs[..k][a] == x;
  }

  /** The slot right before `s`, when it is there, is what a read picks as previous. */
  lemma PreviousIsNeighbour(cs: seq<Comment>, k: nat, read: State, date: string, s: Slot, x: Comment)
    requires NoConflict(cs) && k <= |cs| && Describes(read, cs[..k], date, s) && s > 0
    requires x in cs[..k] && OfSlot(date, s - 1)(x)
    ensures read.previous == Some(x)
  {
    assert EarlierThan(date, s)(x);
    var p := read.previous.value;
    assert p in cs[..k] && EarlierThan(date, s)(p) && Before(x, p);
    assert RankOf(p).slot == s - 1;
    SameSlotSame(cs, p, x);
  }

  /** A slot names the one before it exactly when that one had been written before it. */
  lemma LinkIffOrder(cs: seq<Comment>, date: string, day: seq<Comment>, s: Slot)
    requires Inv(cs) && Arranged(cs, date, day) && IsDay(day) && s > 0
    ensures P(day, s).previousId == Some(day[s - 1].id) <==> Precedes(cs, day[s - 1], day[s])
  {
    var k, read := ReadBefore(cs, date, day, s);
    DayInLedger(cs, date, day, s - 1);
    if P(day, s).previousId == Some(day[s - 1].id) {
      assert read.previous.Some? && read.previous.value in cs[..k];
      PickedByIdPrecedes(cs, k, read.previous.value, day[s - 1]);
    }
    if Precedes(cs, day[s - 1], day[s]) {
      PrecedesIsBefore(cs, day[s - 1], k);
      PreviousIsNeighbour(cs, k, read, date, s, day[s - 1]);
    }
  }

  lemma OnePlace(cs: seq<Comment>, i: nat, k: nat)
    requires DistinctIds(cs) && i < |cs| && k < |cs| && cs[i] == cs[k]
    ensures i == k
  {
  }

  lemma {:induction false} PreopenFirst(cs: seq<Comment>, day: seq<Comment>, s: Slot)
    requires IsDay(day) && InOrder(cs, day) && DistinctIds(cs) && s > 0
    ensures Precedes(cs, day[0], day[s])
    decreases s
  {
    if s > 1 {
      var t: Slot := s - 1;
      PreopenFirst(cs, day, t);
      var i, k :| 0 <= i < k < |cs| && cs[i] == day[0] && cs[k] == day[t];
      var m, n :| 0 <= m < n < |cs| && cs[m] == day[s - 1] && cs[n] == day[s];
      OnePlace(cs, k, m);
    }
  }

  lemma PreopenLink(cs: seq<Comment>, date: string, day: seq<Comment>, s: Slot)
    requires Inv(cs) && Arranged(cs, date, day) && IsDay(day) && s > 0 && Precedes(cs, day[0], day[s])
    ensures P(day, s).preopenId == Some(day[0].id)
  {
    var k, read := ReadBefore(cs, date, day, s);
    DayInLedger(cs, date, day, 0);
    PrecedesIsBefore(cs, day[0], k);
    assert OfSlot(date, PREOPEN)(day[0]);
    assert read.preopen.value in cs[..k];
    SameSlotSame(cs, read.preopen.value, day[0]);
  }

  /**
   Producer meets checker: on a ledger grown by serial appends the slot, key, previous-id and preopen-id
   clauses hold of a full day if and only if its seven slots were appended in slot order.
   */
  lemma ChainIffInOrder(cs: seq<Comment>, date: string, day: seq<Comment>)
    requires Inv(cs) && Arranged(cs, date, day) && IsDay(day)
    ensures ChainOk(day) <==> InOrder(cs, day)
  {
    forall s: Slot | s > 0 ensures P(day, s).previousId == Some(day[s - 1].id) <==> Precedes(cs, day[s - 1], day[s]) {
      LinkIffOrder(cs, date, day, s);
    }
    if InOrder(cs, day) {
      forall s: Slot | s > 0 ensures LinksOk(day, s) {
        PreopenFirst(cs, day, s);
        PreopenLink(cs, date, day, s);
      }
    }
    if ChainOk(day) {
      forall s: Slot | s > 0 ensures Precedes(cs, day[s - 1], day[s]) {
        assert LinksOk(day, s);
      }
    }
  }

  lemma TransitionIsStored(cs: seq<Comment>, date: string, day: seq<Comment>, s: Slot)
    requires Inv(cs) && Arranged(cs, date, day) && IsDay(day) && InOrder(cs, day) && s > 0
    ensures P(day, s).transition.Some?
    ensures P(day, s).transition == TransitionFrom(P(day, s).(transition := None), Some(P(day, s - 1)))
  {
    var k, read := ReadBefore(cs, date, day, s);
    DayInLedger(cs, date, day, s - 1);
    assert Precedes(cs, day[s - 1], day[s]);
    PrecedesIsBefore(cs, day[s - 1], k);
    PreviousIsNeighbour(cs, k, read, date, s, day[s - 1]);
  }

  /** In such a day each stored transition leads from the active set of the slot before to the slot's own. */
  lemma TransitionsLead(cs: seq<Comment>, date: string, day: seq<Comment>, s: Slot)
    requires Inv(cs) && Arranged(cs, date, day) && IsDay(day) && InOrder(cs, day) && s > 0
    ensures P(day, s).transition == TransitionFrom(P(day, s).(transition := None), Some(P(day, s - 1)))
    ensures P(day, s).transition.Some? && Moves(P(day, s).transition.value, Keys(P(day, s - 1)), Keys(P(day, s)))
  {
    TransitionIsStored(cs, date, day, s);
    TransitionMeaning(P(day, s).(transition := None), P(day, s - 1));
  }

  /** The active set after applying the stored transitions of the slots 1 to `s` to the first one. */
  function Folded(day: seq<Comment>, s: Slot): set<string>
    requires IsDay(day)
  {
    if s == 0 then Keys(P(day, 0)) else
      match P(day, s).transition
      case None => Folded(day, s - 1)
      case Some(t) => (Folded(day, s - 1) - Elements(t.removed)) + Elements(t.added)
  }

  ghost predicate Leads(day: seq<Comment>, s: Slot)
    requires IsDay(day) && s > 0
  {
    P(day, s).transition.Some? && Moves(P(day, s).transition.value, Keys(P(day, s - 1)), Keys(P(day, s)))
  }

  lemma {:induction false} LeadingFolds(day: seq<Comment>, s: Slot)
    requires IsDay(day) && forall t: Slot :: t > 0 ==> Leads(day, t)
    ensures Folded(day, s) == Keys(P(day, s))
    decreases s
  {
    if s > 0 {
      LeadingFolds(day, s - 1);
      assert Leads(day, s);
    }
  }

  /** So the stored transitions fold the first active set of the day into that of any later slot. */
  lemma TransitionsFold(cs: seq<Comment>, date: string, day: seq<Comment>, s: Slot)
    requires Inv(cs) && Arranged(cs, date, day) && IsDay(day) && InOrder(cs, day)
    ensures Folded(day, s) == Keys(P(day, s))
  {
    forall t: Slot | t > 0 ensures Leads(day, t) {
      TransitionsLead(cs, date, day, t);
    }
    LeadingFolds(day, s);
  }

  lemma PassedDayIsInOrder(cs: seq<Comment>, date: string, day: seq<Comment>)
    requires Inv(cs) && Arranged(cs, date, day) && IsDay(day) && DayOk(day)
    ensures InOrder(cs, day)
  {
    forall s: Slot | s > 0 ensures LinksOk(day, s) {
      assert SlotOk(day, s);
    }
    ChainIffInOrder(cs, date, day);
  }

  lemma SameHashSameKeys(c: Checkpoint, p: Checkpoint)
    requires c.slot != PREOPEN && TransitionFrom(c, Some(p)).Some? && c.universeHash == p.universeHash
    ensures Keys(c) == Keys(p) && TransitionFrom(c, Some(p)).value.status == Unchanged
  {
    TransitionMeaning(c, p);
  }

  predicate OneHash(day: seq<Comment>)
    requires IsDay(day)
  {
    forall s: Slot :: P(day, s).universeHash == P(day, 0).universeHash
  }

  lemma {:induction false} OneHashOneSet(cs: seq<Comment>, date: string, day: seq<Comment>, s: Slot)
    requires Inv(cs) && Arranged(cs, date, day) && IsDay(day) && InOrder(cs, day) && OneHash(day)
    ensures Keys(P(day, s)) == Keys(P(day, 0))
    ensures s > 0 ==> P(day, s).transition.Some? && P(day, s).transition.value.status == Unchanged
    decreases s
  {
    if s > 0 {
      var t: Slot := s - 1;
      OneHashOneSet(cs, date, day, t);
      TransitionsLead(cs, date, day, s);
      DayInLedger(cs, date, day, s);
      assert P(day, s).universeHash == P(day, t).universeHash;
      SameHashSameKeys(P(day, s).(transition := None), P(day, t));
    }
  }

  /**
   A day that passes on such a ledger never changed its active instruments: the checker asks for one universe
   hash, and an append that changes the members under the same hash is refused.
   */
  lemma PassedDayIsConstant(cs: seq<Comment>, date: string, day: seq<Comment>, s: Slot)
    requires Inv(cs) && Arranged(cs, date, day) && IsDay(day) && DayOk(day)
    ensures InOrder(cs, day) && Keys(P(day, s)) == Keys(P(day, 0))
    ensures s > 0 ==> P(day, s).transition.Some? && P(day, s).transition.value.status == Unchanged
  {
    PassedDayIsInOrder(cs, date, day);
    forall t: Slot ensures P(day, t).universeHash == P(day, 0).universeHash {
      if t > 0 {
        assert SlotOk(day, t);
      }
    }
    OneHashOneSet(cs, date, day, s);
  }
}
