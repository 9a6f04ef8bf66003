/** The ledger itself: an issue that grows by one comment at a time, and what holds of it after any run of appends. */
module MarketBook {
  import opened Options
  import opened MarketLedger
  import opened MarketAppend

  ghost predicate DistinctIds(cs: seq<Comment>) {
    forall i, k :: 0 <= i < k < |cs| ==> cs[i].id != cs[k].id
  }

  /** The checkpoint was stored against a read of exactly these comments. */
  ghost predicate StoredAgainst(before: seq<Comment>, c: Checkpoint) {
    exists s :: Describes(s, before, c.date, c.slot) && Decide(s, c.(transition := None)) == Store(c)
  }

  ghost predicate StoredAt(cs: seq<Comment>, i: nat)
    requires i < |cs|
  {
    cs[i].payload.Some? ==> IsCheckpoint(cs[i]) && StoredAgainst(cs[..i], cs[i].payload.value)
  }

  ghost predicate Inv(cs: seq<Comment>) {
    NoConflict(cs) && DistinctIds(cs) && forall i :: 0 <= i < |cs| ==> StoredAt(cs, i)
  }

  ghost predicate FreshId(cs: seq<Comment>, id: string) {
    forall i :: 0 <= i < |cs| ==> cs[i].id != id
  }

  lemma GrowInv(cs: seq<Comment>, c: Comment)
    requires Inv(cs) && FreshId(cs, c.id)
    requires c.payload.Some? ==> IsCheckpoint(c) && StoredAgainst(cs, c.payload.value)
    requires NoConflict(cs + [c])
    ensures Inv(cs + [c])
  {
    forall i | 0 <= i < |cs + [c]| ensures StoredAt(cs + [c], i) {
      if i < |cs| {
        assert StoredAt(cs, i) && (cs + [c])[..i] == cs[..i];
      } else {
        assert (cs + [c])[..i] == cs;
      }
    }
  }

  // ----- a checkpoint with ill-keyed records

  function LaterThan(date: string, slot: Slot): Comment -> bool {
    (c: Comment) => IsCheckpoint(c) && c.payload.value.date == date && c.payload.value.slot > slot
  }

  lemma NotStoredBehind(cs: seq<Comment>, i: nat, k: nat)
    requires Inv(cs) && i < k < |cs| && cs[i].payload.Some? && !WellKeyed(cs[i].payload.value.records)
    requires var p := cs[i].payload.value; forall j :: 0 <= j < k ==> !LaterThan(p.date, p.slot)(cs[j])
    ensures var p := cs[i].payload.value; !LaterThan(p.date, p.slot)(cs[k])
  {
    assert StoredAt(cs, i) && StoredAt(cs, k);
    var p := cs[i].payload.value;
    if LaterThan(p.date, p.slot)(cs[k]) {
      var c := cs[k].payload.value;
      var s :| Describes(s, cs[..k], c.date, c.slot) && Decide(s, c.(transition := None)) == Store(c);
      assert cs[..k][i] == cs[i];
      assert cs[i] in cs[..k] && EarlierThan(c.date, c.slot)(cs[i]);
      var x := s.previous.value;
      assert x in cs[..k] && EarlierThan(c.date, c.slot)(x) && Before(cs[i], x);
      var j :| 0 <= j < k && cs[j] == x;
      SameSlotSame(cs, x, cs[i]);
      IllKeyedPreviousRefuses(s, c.(transition := None));
    }
  }

  /**
   In every ledger: behind an ill-keyed checkpoint that came before any later slot of its day, the first of the
   day for instance, no later slot of that day is ever stored.
   */
  lemma {:induction false} IllKeyedCheckpointBlocksTheDay(cs: seq<Comment>, i: nat, n: nat)
    requires Inv(cs) && i < n <= |cs| && cs[i].payload.Some? && !WellKeyed(cs[i].payload.value.records)
    requires var p := cs[i].payload.value; forall j :: 0 <= j < i ==> !LaterThan(p.date, p.slot)(cs[j])
    ensures var p := cs[i].payload.value; forall j :: 0 <= j < n ==> !LaterThan(p.date, p.slot)(cs[j])
    decreases n
  {
    if n > i + 1 {
      IllKeyedCheckpointBlocksTheDay(cs, i, n - 1);
      NotStoredBehind(cs, i, n - 1);
    }
  }

  class Ledger {
    var comments: seq<Comment>

    ghost predicate Valid()
      reads this
    {
      Inv(comments)
    }

    constructor ()
      ensures Valid() && comments == []
    {
      comments := [];
    }

    /** Somebody writes a comment without a checkpoint. */
    method Remark(c: Comment)
      requires Valid() && c.payload == None && FreshId(comments, c.id)
      modifies this
      ensures Valid() && comments == old(comments) + [c]
    {
      GrowInv(comments, c);
      comments := comments + [c];
    }

    /**
     Append: checks, read, transition, replay or conflict, chain, post.  `id`, `url` and `createdAt` are
     what GitHub gives a new comment.
     */
    method Append(submitted: Checkpoint, id: string, url: string, createdAt: string) returns (verdict: Verdict)
      requires Valid() && submitted.transition == None
      requires FreshId(comments, id) && id != "" && url != "" && createdAt != ""
      modifies this
      ensures Valid()
      ensures Related(submitted) ==>
        exists s :: Describes(s, old(comments), submitted.date, submitted.slot) && verdict == Decide(s, submitted)
      ensures !Related(submitted) ==> verdict == ValidationFailed
      ensures comments == if verdict.Store? then old(comments) + [Comment(id, url, createdAt, Some(verdict.checkpoint))]
                          else old(comments)
    {
      if !Related(submitted) {
        return ValidationFailed;
      }
      var state := BuildState(comments, submitted.date, submitted.slot);
      verdict := Judge(state, submitted);
      if verdict.Store? {
        var posted := Comment(id, url, createdAt, Some(verdict.checkpoint));
        assert verdict.checkpoint.(transition := None) == submitted;
        assert StoredAgainst(comments, verdict.checkpoint);
        AppendedSlotIsNew(comments, posted, state, submitted);
        GrowInv(comments, posted);
        comments := comments + [posted];
      }
    }

    /** Everything the append decides on the state it read. */
    static method Judge(state: State, submitted: Checkpoint) returns (verdict: Verdict)
      requires Related(submitted)
      ensures verdict == Decide(state, submitted)
    {
      if state.conflict {
        return Conflict;
      }
      var transition := WithUniverseTransition(submitted, PayloadOf(state.previous));
      if transition.None? {
        return ValidationFailed;
      }
      var checkpoint := submitted.(transition := transition);
      if state.current.Some? {
        if Some(submitted) == state.current.value.payload || Some(checkpoint) == state.current.value.payload {
          return Replay(state.current.value);
        }
        return Conflict;
      }
      if checkpoint.previousId != IdOf(state.previous) {
        return ChainMismatch;
      }
      if checkpoint.preopenId != (if checkpoint.slot == PREOPEN then None else IdOf(state.preopen)) {
        return ChainMismatch;
      }
      verdict := Store(checkpoint);
    }

    /** One observation: build the batch from the ledger, append it to the ledger, nothing in between. */
    method Observe(cmd: Command, version: string, hash: string, id: string, url: string, createdAt: string)
      returns (verdict: Verdict)
      requires Valid() && FreshId(comments, id) && id != "" && url != "" && createdAt != ""
      modifies this
      ensures Valid() && verdict != ChainMismatch
      ensures comments == if verdict.Store? then old(comments) + [Comment(id, url, createdAt, Some(verdict.checkpoint))]
                          else old(comments)
      ensures verdict.Store? ==>
        && verdict.checkpoint.key == Key(cmd.date, cmd.slot) && verdict.checkpoint.records == cmd.records
        && verdict.checkpoint.universeHash == hash && verdict.checkpoint.productionRef == cmd.productionRef
        && verdict.checkpoint.date == cmd.date && verdict.checkpoint.slot == cmd.slot
        && verdict.checkpoint.asOf == cmd.asOf && verdict.checkpoint.portfolioVersion == version
      ensures verdict.Store? ==> forall i :: 0 <= i < |old(comments)| ==> !OfSlot(cmd.date, cmd.slot)(old(comments)[i])
      ensures verdict.Replay? ==>
        exists i :: 0 <= i < |comments| && comments[i] == verdict.comment && OfSlot(cmd.date, cmd.slot)(comments[i])
    {
      var state := BuildState(comments, cmd.date, cmd.slot);
      var batch := BuildBatch(state, cmd, version, hash);
      ghost var before := comments;
      verdict := Append(batch.value, id, url, createdAt);
      Fits(state, before, cmd, version, hash, verdict);
    }

    static lemma Fits(state: State, cs: seq<Comment>, cmd: Command, version: string, hash: string, verdict: Verdict)
      requires Describes(state, cs, cmd.date, cmd.slot) && NoConflict(cs)
      requires exists s ::
        Describes(s, cs, cmd.date, cmd.slot) && verdict == Decide(s, BuildBatch(state, cmd, version, hash).value)
      ensures verdict != ChainMismatch
      ensures verdict.Store? ==> forall i :: 0 <= i < |cs| ==> !OfSlot(cmd.date, cmd.slot)(cs[i])
      ensures verdict.Replay? ==>
        exists i :: 0 <= i < |cs| && cs[i] == verdict.comment && OfSlot(cmd.date, cmd.slot)(cs[i])
    {
      var s :| Describes(s, cs, cmd.date, cmd.slot)
        && verdict == Decide(s, BuildBatch(state, cmd, version, hash).value);
      BuiltBatchFitsTheLedger(state, s, cs, cmd, version, hash);
      if verdict.Store? {
        forall i | 0 <= i < |cs| ensures !OfSlot(cmd.date, cmd.slot)(cs[i]) {
          assert cs[i] in cs;
        }
      }
      if verdict.Replay? {
        assert s.current.value in cs;
      }
    }
  }
}
