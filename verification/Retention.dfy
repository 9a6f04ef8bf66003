/**
 Purging an expired PUBLIC document: content objects (unless another record still references them),
 ingest journals, rows, vectors, and last the flip to PURGED.  A run may die before any of its
 storage operations; a later run starts over from the captured id lists.
 */
module Retention {
  import opened Options

  const PARAM_CHUNK := 50
  const VERSION := "document_version"

  /** One row of `research_record_objects`. */
  datatype Link = Link(recordType: string, recordKey: string, role: string, hash: string)
  datatype VersionRow = VersionRow(doc: string, messageId: string)

  /** A row of `research_document_retention` with the id lists captured when it was marked. */
  datatype Marker = Marker(versionIds: seq<string>, journalIds: seq<string>, hashes: seq<string>, purged: bool)

  /** A document without versions has no linked content. */
  predicate Captured(m: Marker) {
    m.versionIds == [] ==> m.hashes == []
  }

  predicate Distinct(s: seq<string>) {
    forall i, k :: 0 <= i < k < |s| ==> s[i] != s[k]
  }

  function Chunk(ids: seq<string>, start: nat): seq<string>
    requires start <= |ids|
  {
    if start + PARAM_CHUNK <= |ids| then ids[start..start + PARAM_CHUNK] else ids[start..]
  }

  // ----- the reference guard

  /** Some record other than the captured versions links to this content. */
  ghost predicate Shared(links: set<Link>, hash: string, ids: seq<string>) {
    exists l :: l in links && l.hash == hash && l.recordKey !in ids
  }

  ghost predicate Linked(links: set<Link>, hash: string) {
    exists l :: l in links && l.hash == hash
  }

  ghost predicate OutsideChunk(links: set<Link>, hash: string, ids: seq<string>, s: nat, l: Link) {
    l in links && l.hash == hash && s % PARAM_CHUNK == 0 && s < |ids| && l.recordKey !in Chunk(ids, s)
  }

  /** No 50-key chunk of the captured ids leaves a link to this content outside. */
  ghost predicate Reclaimable(links: set<Link>, hash: string, ids: seq<string>) {
    forall s: nat, l :: !OutsideChunk(links, hash, ids, s, l)
  }

  /** The guard counts, for every 50-key chunk, the links whose key is not in that chunk. */
  method ForeignReferences(links: set<Link>, hash: string, ids: seq<string>) returns (count: nat)
    ensures count == 0 <==> Reclaimable(links, hash, ids)
  {
    count := 0;
    var start: nat := 0;
    while start < |ids|
      invariant count == 0 <==> forall s: nat, l :: s < start ==> !OutsideChunk(links, hash, ids, s, l)
      invariant start % PARAM_CHUNK == 0
    {
      var slice := Chunk(ids, start);
      var foreign := set l | l in links && l.hash == hash && l.recordKey !in slice;
      assert forall l :: OutsideChunk(links, hash, ids, start, l) <==> l in foreign;
      assert forall s: nat, l :: start < s < start + PARAM_CHUNK ==> !OutsideChunk(links, hash, ids, s, l);
      if foreign != {} {
        var l :| l in foreign;
        assert OutsideChunk(links, hash, ids, start, l);
        assert |foreign| > 0;
      }
      count := count + |foreign|;
      start := start + PARAM_CHUNK;
    }
  }

  /**
   What the chunked guard decides.  It never lets shared content go.  Up to 50 versions it decides
   exactly that; beyond 50 it keeps everything that is linked at all, the document's own links included.
   */
  lemma GuardMeaning(links: set<Link>, hash: string, ids: seq<string>)
    ensures ids != [] && Reclaimable(links, hash, ids) ==> !Shared(links, hash, ids)
    ensures 0 < |ids| <= 50 ==> (Reclaimable(links, hash, ids) <==> !Shared(links, hash, ids))
    ensures |ids| > 50 && Distinct(ids) ==> (Reclaimable(links, hash, ids) <==> !Linked(links, hash))
  {
    if l :| ids != [] && l in links && l.hash == hash && l.recordKey !in ids {
      assert OutsideChunk(links, hash, ids, 0, l);
    }
    if |ids| <= PARAM_CHUNK && !Reclaimable(links, hash, ids) {
      var s: nat, l :| OutsideChunk(links, hash, ids, s, l);
      assert s == 0;
      assert Chunk(ids, 0) == ids;
    }
    if |ids| > PARAM_CHUNK && Distinct(ids) && Linked(links, hash) {
      var l :| l in links && l.hash == hash;
      NotInTwoChunks(ids, l.recordKey);
      assert OutsideChunk(links, hash, ids, 0, l) || OutsideChunk(links, hash, ids, PARAM_CHUNK, l);
    }
  }

  lemma NotInTwoChunks(ids: seq<string>, key: string)
    requires |ids| > PARAM_CHUNK && Distinct(ids)
    ensures key !in Chunk(ids, 0) || key !in Chunk(ids, PARAM_CHUNK)
  {
    if key in Chunk(ids, 0) {
      var i :| 0 <= i < PARAM_CHUNK && ids[i] == key;
      var later := Chunk(ids, PARAM_CHUNK);
      forall k | 0 <= k < |later| ensures later[k] != key {
        assert later[k] == ids[PARAM_CHUNK + k] && ids[i] != ids[PARAM_CHUNK + k];
      }
    }
  }

  // ----- what a mark captures

  /** What one ingest of a PUBLIC version writes; `links` are its (role, hash) pairs. */
  datatype Batch = Batch(doc: string, version: string, messageId: string, links: set<(string, string)>)

  /** Everything of the document that these tables held is in the marker. */
  ghost predicate Complete(m: Marker, doc: string, rows: map<string, VersionRow>, messages: set<(string, string)>,
                           links: set<Link>) {
    && (forall v :: v in rows && rows[v].doc == doc ==> v in m.versionIds)
    && (forall x :: x in messages && x.1 in m.versionIds ==> x.0 in m.journalIds)
    && (forall l :: l in links && OwnLink(l, m) ==> l.hash in m.hashes)
  }

  /** And the marker holds nothing that these tables do not. */
  ghost predicate NothingElse(m: Marker, doc: string, rows: map<string, VersionRow>, messages: set<(string, string)>,
                              links: set<Link>) {
    && (forall v :: v in m.versionIds ==> v in rows && rows[v].doc == doc)
    && (forall j :: j in m.journalIds ==> exists v :: v in m.versionIds && (j, v) in messages)
    && (forall h :: h in m.hashes ==> exists l :: l in links && OwnLink(l, m) && l.hash == h)
  }

  // ----- what a run may remove

  predicate OwnLink(l: Link, m: Marker) {
    l.recordType == VERSION && l.recordKey in m.versionIds
  }

  ghost predicate OnlyOwnLinks(before: set<Link>, after: set<Link>, m: Marker) {
    after <= before && forall l :: l in before && l !in after ==> OwnLink(l, m)
  }

  ghost predicate OnlyOwnVersions(before: map<string, VersionRow>, after: map<string, VersionRow>, m: Marker) {
    && (forall v :: v in after ==> v in before && after[v] == before[v])
    && (forall v :: v in before && v !in after ==> v in m.versionIds)
  }

  /** Of the content in a table or in R2 only captured hashes are lost that the guard lets go. */
  ghost predicate OnlyReclaimable(before: set<string>, after: set<string>, links: set<Link>, m: Marker) {
    after <= before && forall h :: h in before && h !in after ==> h in m.hashes && Reclaimable(links, h, m.versionIds)
  }

  /** Only captured hashes that no other record links to. */
  ghost predicate OnlyUnshared(before: set<string>, after: set<string>, links: set<Link>, m: Marker) {
    after <= before && forall h :: h in before && h !in after ==> h in m.hashes && !Shared(links, h, m.versionIds)
  }

  ghost predicate OnlyOwnJournals(before: set<string>, after: set<string>, m: Marker) {
    after <= before && forall j :: j in before && j !in after ==> j in m.journalIds
  }

  /** Only index rows or vectors of this document. */
  ghost predicate OnlyOfDocument(before: set<(string, string)>, after: set<(string, string)>, doc: string) {
    after <= before && forall x :: x in before && x !in after ==> x.0 == doc
  }

  /** Removing own links does not change which content other records share. */
  lemma SharedStays(links0: set<Link>, links: set<Link>, h: string, m: Marker)
    requires OnlyOwnLinks(links0, links, m)
    ensures Shared(links, h, m.versionIds) <==> Shared(links0, h, m.versionIds)
  {
  }

  /** So content deleted by a later run was not shared when the first run began. */
  lemma NeverShared(links0: set<Link>, links: set<Link>, h: string, m: Marker)
    requires OnlyOwnLinks(links0, links, m) && Captured(m) && h in m.hashes && Reclaimable(links, h, m.versionIds)
    ensures !Shared(links0, h, m.versionIds)
  {
    GuardMeaning(links, h, m.versionIds);
    SharedStays(links0, links, h, m);
  }

  lemma LeftForLast(links0: set<Link>, links: set<Link>, h: string, m: Marker)
    requires OnlyOwnLinks(links0, links, m) && Captured(m) && h in m.hashes && |m.versionIds| <= 50
    requires !Shared(links0, h, m.versionIds)
    ensures Reclaimable(links, h, m.versionIds)
  {
    GuardMeaning(links, h, m.versionIds);
    SharedStays(links0, links, h, m);
  }

  /** More than 50 versions: a run that is not interrupted keeps every object it should have deleted. */
  lemma ManyVersionsLeak(links: set<Link>, h: string, m: Marker)
    requires |m.versionIds| > 50 && Distinct(m.versionIds)
    requires exists l :: l in links && l.hash == h && OwnLink(l, m)
    ensures !Reclaimable(links, h, m.versionIds)
  {
    GuardMeaning(links, h, m.versionIds);
  }

  // ----- the stores

  class Stores {
    /** R2: content objects by hash, ingest journals by message id. */
    var objects: set<string>
    var journals: set<string>
    /** D1. */
    var links: set<Link>
    var versionRows: map<string, VersionRow>
    var objectRecords: set<string>
    var objectRows: set<string>
    var states: set<(string, string)>  // index rows that are not retired
    var messages: set<(string, string)>
    var markers: map<string, Marker>
    /** Vectorize: the (document, version) pairs that have vectors. */
    var vectors: set<(string, string)>

    constructor ()
    {
      objects, journals, links, versionRows, objectRecords := {}, {}, {}, map[], {};
      objectRows, states, messages, markers, vectors := {}, {}, {}, map[], {};
    }

    // ----- marking

    /** The rows of a query as a list, in some order. */
    method Listing(s: set<string>) returns (r: seq<string>)
      ensures Distinct(r) && forall x :: x in r <==> x in s
    {
      r := [];
      var rest := s;
      while rest != {}
        invariant Distinct(r) && rest <= s
        invariant forall x :: x in r <==> x in s - rest
        decreases rest
      {
        var x :| x in rest;
        assert x !in r;
        r := r + [x];
        rest := rest - {x};
      }
    }

    /** The batch of one ingest; a version id stays with its document. */
    method IngestOne(b: Batch)
      modifies `links, `versionRows, `messages, `states
      ensures old(links) <= links && old(messages) <= messages && old(states) <= states
      ensures versionRows == if b.version in old(versionRows) ==> old(versionRows)[b.version].doc == b.doc
                             then old(versionRows)[b.version := VersionRow(b.doc, b.messageId)] else old(versionRows)
      ensures (b.version in old(versionRows) ==> old(versionRows)[b.version].doc == b.doc) ==>
        && messages == old(messages) + {(b.messageId, b.version)} && states == old(states) + {(b.doc, b.version)}
        && forall l :: l in links <==>
             l in old(links) || (l.recordType == VERSION && l.recordKey == b.version && (l.role, l.hash) in b.links)
      ensures b.version in old(versionRows) && old(versionRows)[b.version].doc != b.doc ==>
        messages == old(messages) && states == old(states) && links == old(links)
    {
      if b.version in versionRows ==> versionRows[b.version].doc == b.doc {
        versionRows := versionRows[b.version := VersionRow(b.doc, b.messageId)];
        messages := messages + {(b.messageId, b.version)};
        var own := set l | l in b.links :: Link(VERSION, b.version, l.0, l.1);
        forall l: Link
          ensures l in own <==> l.recordType == VERSION && l.recordKey == b.version && (l.role, l.hash) in b.links {
          if (l.role, l.hash) in b.links {
            assert Link(VERSION, b.version, (l.role, l.hash).0, (l.role, l.hash).1) in own;
          }
        }
        links := links + own;
        states := states + {(b.doc, b.version)};
      }
    }

    /** The ingests that commit between two reads. */
    method Ingests(batches: seq<Batch>)
      modifies `links, `versionRows, `messages, `states
      ensures old(links) <= links && old(messages) <= messages && old(states) <= states
      ensures forall v :: v in old(versionRows) ==> v in versionRows && versionRows[v].doc == old(versionRows)[v].doc
      ensures batches == [] ==> links == old(links) && messages == old(messages) && versionRows == old(versionRows)
      ensures batches == [] ==> states == old(states)
    {
      for i := 0 to |batches|
        invariant old(links) <= links && old(messages) <= messages && old(states) <= states
        invariant forall v :: v in old(versionRows) ==>
          v in versionRows && versionRows[v].doc == old(versionRows)[v].doc
        invariant i == 0 ==> links == old(links) && messages == old(messages) && versionRows == old(versionRows)
        invariant i == 0 ==> states == old(states)
      {
        IngestOne(batches[i]);
      }
    }

    method QueryVersions(doc: string) returns (ids: seq<string>)
      ensures Distinct(ids) && forall v :: v in ids <==> v in versionRows && versionRows[v].doc == doc
    {
      ids := Listing(set v | v in versionRows && versionRows[v].doc == doc);
    }

    method QueryJournals(versionIds: seq<string>) returns (ids: seq<string>)
      ensures forall j :: j in ids <==> exists v :: v in versionIds && (j, v) in messages
    {
      ids := Listing(set x | x in messages && x.1 in versionIds :: x.0);
      forall j ensures j in ids <==> exists v :: v in versionIds && (j, v) in messages {
        if j in ids {
          var x :| x in messages && x.1 in versionIds && x.0 == j;
          assert (j, x.1) in messages;
        }
      }
    }

    method QueryHashes(versionIds: seq<string>) returns (hashes: seq<string>)
      ensures forall h ::
        h in hashes <==> exists l :: l in links && l.recordType == VERSION && l.recordKey in versionIds && l.hash == h
      ensures versionIds == [] ==> hashes == []
    {
      hashes := Listing(set l | l in links && l.recordType == VERSION && l.recordKey in versionIds :: l.hash);
      if hashes != [] {
        assert hashes[0] in hashes;
      }
    }

    /** The ids the three capture queries find, each at its own moment. */
    method Capture(doc: string, env: nat -> seq<Batch>) returns (m: Marker)
      modifies `links, `versionRows, `messages, `states
      ensures old(links) <= links && old(messages) <= messages && old(states) <= states
      ensures !m.purged && Captured(m) && Distinct(m.versionIds)
      ensures Complete(m, doc, old(versionRows), old(messages), old(links))
      ensures NothingElse(m, doc, versionRows, messages, links)
      ensures (forall n :: env(n) == []) ==>
        links == old(links) && messages == old(messages) && versionRows == old(versionRows)
      ensures (forall n :: env(n) == []) ==> states == old(states)
    {
      Ingests(env(0));
      var versionIds := QueryVersions(doc);
      Ingests(env(1));
      var journalIds := QueryJournals(versionIds);
      Ingests(env(2));
      var hashes := QueryHashes(versionIds);
      m := Marker(versionIds, journalIds, hashes, false);
      forall x | x in old(messages) && x.1 in versionIds ensures x.0 in journalIds {
        assert (x.0, x.1) in messages;
      }
    }

    /** Mark EXPIRED with the captured ids, unless the document has a row already; retire its index rows. */
    method MarkExpired(doc: string, env: nat -> seq<Batch>) returns (marked: bool)
      modifies `markers, `links, `versionRows, `messages, `states
      ensures marked <==> doc !in old(markers)
      ensures !marked ==> markers == old(markers)
      ensures marked ==>
        && doc in markers && markers == old(markers)[doc := markers[doc]]
        && !markers[doc].purged && Captured(markers[doc]) && Distinct(markers[doc].versionIds)
        && Complete(markers[doc], doc, old(versionRows), old(messages), old(links))
        && NothingElse(markers[doc], doc, versionRows, messages, links)
      ensures forall s :: s in states ==> s.0 != doc
      ensures forall s :: s in old(states) && s.0 != doc ==> s in states
      ensures old(links) <= links && old(messages) <= messages
      ensures (forall n :: env(n) == []) ==>
        links == old(links) && messages == old(messages) && versionRows == old(versionRows)
      ensures (forall n :: env(n) == []) ==> states == set s | s in old(states) && s.0 != doc
    {
      var m := Capture(doc, env);
      marked := doc !in markers;
      if marked {
        markers := markers[doc := m];
      }
      states := set s | s in states && s.0 != doc;
    }

    // ----- the steps of a purge; `n` numbers the storage operations and a run dies before operation `crash`

    method DeleteObjects(m: Marker, crash: Option<nat>, n: nat) returns (deleted: seq<string>, next: nat, died: bool)
      modifies `objects
      ensures objects == old(objects) - (set h | h in deleted)
      ensures forall h :: h in deleted ==> h in m.hashes && Reclaimable(links, h, m.versionIds)
      ensures !died ==> forall h :: h in m.hashes && Reclaimable(links, h, m.versionIds) ==> h in deleted
      ensures crash == None ==> !died
    {
      deleted, next, died := [], n, false;
      for i := 0 to |m.hashes|
        invariant objects == old(objects) - (set h | h in deleted)
        invariant forall h :: h in deleted ==> h in m.hashes && Reclaimable(links, h, m.versionIds)
        invariant forall k :: 0 <= k < i && Reclaimable(links, m.hashes[k], m.versionIds) ==> m.hashes[k] in deleted
      {
        var hash := m.hashes[i];
        var references := ForeignReferences(links, hash, m.versionIds);
        if references == 0 {
          if crash == Some(next) {
            return deleted, next, true;
          }
          next := next + 1;
          objects := objects - {hash};
          deleted := deleted + [hash];
        }
      }
    }

    method DeleteJournals(m: Marker, crash: Option<nat>, n: nat) returns (next: nat, died: bool)
      modifies `journals
      ensures old(journals) - (set j | j in m.journalIds) <= journals <= old(journals)
      ensures !died ==> journals == old(journals) - (set j | j in m.journalIds)
      ensures crash == None ==> !died
    {
      next, died := n, false;
      for i := 0 to |m.journalIds|
        invariant journals == old(journals) - (set j | j in m.journalIds[..i])
      {
        if crash == Some(next) {
          return next, true;
        }
        next := next + 1;
        journals := journals - {m.journalIds[i]};
        assert m.journalIds[..i + 1] == m.journalIds[..i] + [m.journalIds[i]];
      }
      assert m.journalIds[..|m.journalIds|] == m.journalIds;
    }

    method DeleteLinks(m: Marker, crash: Option<nat>, n: nat) returns (next: nat, died: bool)
      modifies `links
      ensures links <= old(links)
      ensures forall l :: l in old(links) && l !in links ==> l.recordType == VERSION && l.recordKey in m.versionIds
      ensures !died ==> forall l :: l in links ==> !(l.recordType == VERSION && l.recordKey in m.versionIds)
      ensures crash == None ==> !died
    {
      next, died := n, false;
      var start: nat := 0;
      while start < |m.versionIds|
        invariant links <= old(links)
        invariant forall l :: l in old(links) && l !in links ==> l.recordType == VERSION && l.recordKey in m.versionIds
        invariant forall l, k :: l in links && l.recordType == VERSION && 0 <= k < start && k < |m.versionIds|
                    ==> l.recordKey != m.versionIds[k]
      {
        if crash == Some(next) {
          return next, true;
        }
        next := next + 1;
        var slice := Chunk(m.versionIds, start);
        assert forall k :: start <= k < start + PARAM_CHUNK && k < |m.versionIds| ==>
          m.versionIds[k] == slice[k - start];
        links := set l | l in links && !(l.recordType == VERSION && l.recordKey in slice);
        start := start + PARAM_CHUNK;
      }
    }

    method DeleteVersionRows(m: Marker, crash: Option<nat>, n: nat) returns (next: nat, died: bool)
      modifies `versionRows
      ensures forall v :: v in versionRows ==> v in old(versionRows) && versionRows[v] == old(versionRows)[v]
      ensures forall v :: v in old(versionRows) && v !in versionRows ==> v in m.versionIds
      ensures !died ==> forall v :: v in m.versionIds ==> v !in versionRows
      ensures crash == None ==> !died
    {
      next, died := n, false;
      var start: nat := 0;
      while start < |m.versionIds|
        invariant forall v :: v in versionRows ==> v in old(versionRows) && versionRows[v] == old(versionRows)[v]
        invariant forall v :: v in old(versionRows) && v !in versionRows ==> v in m.versionIds
        invariant forall k :: 0 <= k < start && k < |m.versionIds| ==> m.versionIds[k] !in versionRows
      {
        if crash == Some(next) {
          return next, true;
        }
        next := next + 1;
        var slice := Chunk(m.versionIds, start);
        assert forall k :: start <= k < start + PARAM_CHUNK && k < |m.versionIds| ==>
          m.versionIds[k] == slice[k - start];
        versionRows := map v | v in versionRows && v !in slice :: versionRows[v];
        start := start + PARAM_CHUNK;
      }
    }

    method DeleteObjectRecords(deleted: seq<string>, crash: Option<nat>, n: nat) returns (next: nat, died: bool)
      modifies `objectRecords
      ensures objectRecords <= old(objectRecords)
      ensures forall h :: h in old(objectRecords) && h !in objectRecords ==> h in deleted
      ensures !died ==> forall h :: h in deleted ==> h !in objectRecords
      ensures crash == None ==> !died
    {
      next, died := n, false;
      var start: nat := 0;
      while start < |deleted|
        invariant objectRecords <= old(objectRecords)
        invariant forall h :: h in old(objectRecords) && h !in objectRecords ==> h in deleted
        invariant forall k :: 0 <= k < start && k < |deleted| ==> deleted[k] !in objectRecords
      {
        if crash == Some(next) {
          return next, true;
        }
        next := next + 1;
        var slice := Chunk(deleted, start);
        assert forall k :: start <= k < start + PARAM_CHUNK && k < |deleted| ==> deleted[k] == slice[k - start];
        objectRecords := set h | h in objectRecords && h !in slice;
        start := start + PARAM_CHUNK;
      }
    }

    method DeleteObjectRows(deleted: seq<string>, crash: Option<nat>, n: nat) returns (next: nat, died: bool)
      modifies `objectRows
      ensures objectRows <= old(objectRows)
      ensures forall h :: h in old(objectRows) && h !in objectRows ==> h in deleted
      ensures !died ==> forall h :: h in deleted ==> h !in objectRows
      ensures crash == None ==> !died
    {
      next, died := n, false;
      for i := 0 to |deleted|
        invariant objectRows <= old(objectRows)
        invariant forall h :: h in old(objectRows) && h !in objectRows ==> h in deleted
        invariant forall k :: 0 <= k < i ==> deleted[k] !in objectRows
      {
        if crash == Some(next) {
          return next, true;
        }
        next := next + 1;
        objectRows := objectRows - {deleted[i]};
      }
    }

    method DeleteVectors(doc: string, m: Marker, crash: Option<nat>, n: nat) returns (next: nat, died: bool)
      modifies `vectors
      ensures vectors <= old(vectors)
      ensures forall v :: v in old(vectors) && v !in vectors ==> v.0 == doc
      ensures !died ==> forall id :: id in m.versionIds ==> (doc, id) !in vectors
      ensures crash == None ==> !died
    {
      next, died := n, false;
      for i := 0 to |m.versionIds|
        invariant vectors <= old(vectors)
        invariant forall v :: v in old(vectors) && v !in vectors ==> v.0 == doc
        invariant forall k :: 0 <= k < i ==> (doc, m.versionIds[k]) !in vectors
      {
        if crash == Some(next) {
          return next, true;
        }
        next := next + 1;
        vectors := vectors - {(doc, m.versionIds[i])};
      }
    }

    // ----- one run

    /** The rows captured for the document are gone. */
    ghost predicate RowsGone(doc: string, m: Marker)
      reads this
    {
      && (forall l :: l in links ==> !OwnLink(l, m))
      && (forall v :: v in m.versionIds ==> v !in versionRows && (doc, v) !in vectors)
      && (forall s :: s in states ==> s.0 != doc)
    }

    /** Everything captured for the document is gone, except content that another record still links to. */
    ghost predicate Gone(doc: string, m: Marker, links0: set<Link>)
      reads this
    {
      && RowsGone(doc, m)
      && (forall j :: j in m.journalIds ==> j !in journals)
      && (forall h :: h in m.hashes && Reclaimable(links0, h, m.versionIds)
            ==> h !in objects && h !in objectRows && h !in objectRecords)
    }

    ghost predicate Finished(doc: string, m: Marker, links0: set<Link>)
      reads this
    {
      && RowsGone(doc, m)
      && (forall j :: j in m.journalIds ==> j !in journals)
      && (|m.versionIds| <= 50 ==>
            forall h :: h in m.hashes && !Shared(links0, h, m.versionIds) ==>
              h !in objects && h !in objectRows && h !in objectRecords)
    }

    lemma Finish(doc: string, m: Marker, links0: set<Link>, links: set<Link>)
      requires OnlyOwnLinks(links0, links, m) && Captured(m) && Gone(doc, m, links)
      ensures Finished(doc, m, links0)
    {
      if |m.versionIds| <= PARAM_CHUNK {
        forall h | h in m.hashes && !Shared(links0, h, m.versionIds) ensures Reclaimable(links, h, m.versionIds) {
          LeftForLast(links0, links, h, m);
        }
      }
    }

    static lemma CarryContent(links0: set<Link>, links: set<Link>, before: set<string>, after: set<string>, m: Marker)
      requires OnlyOwnLinks(links0, links, m) && Captured(m) && OnlyReclaimable(before, after, links, m)
      ensures OnlyUnshared(before, after, links0, m)
    {
      forall h | h in before && h !in after ensures !Shared(links0, h, m.versionIds) {
        NeverShared(links0, links, h, m);
      }
    }

    method PurgeContent(m: Marker, crash: Option<nat>) returns (deleted: seq<string>, next: nat, died: bool)
      modifies `objects, `journals
      ensures OnlyReclaimable(old(objects), objects, links, m) && OnlyOwnJournals(old(journals), journals, m)
      ensures forall h :: h in deleted ==> h in m.hashes && Reclaimable(links, h, m.versionIds)
      ensures !died ==> (forall j :: j in m.journalIds ==> j !in journals)
      ensures !died ==> forall h :: h in m.hashes && Reclaimable(links, h, m.versionIds) ==>
        h in deleted && h !in objects
      ensures crash == None ==> !died
    {
      deleted, next, died := DeleteObjects(m, crash, 0);
      if !died {
        next, died := DeleteJournals(m, crash, next);
      }
    }

    method PurgeRows(doc: string, m: Marker, deleted: seq<string>, crash: Option<nat>, n: nat)
      returns (next: nat, died: bool)
      modifies `links, `versionRows, `objectRecords, `objectRows, `states, `vectors
      ensures OnlyOwnLinks(old(links), links, m)
      ensures OnlyOwnVersions(old(versionRows), versionRows, m)
      ensures old(objectRows) - (set h | h in deleted) <= objectRows <= old(objectRows)
      ensures old(objectRecords) - (set h | h in deleted) <= objectRecords <= old(objectRecords)
      ensures OnlyOfDocument(old(vectors), vectors, doc) && OnlyOfDocument(old(states), states, doc)
      ensures !died ==> RowsGone(doc, m) && forall h :: h in deleted ==> h !in objectRows && h !in objectRecords
      ensures crash == None ==> !died
    {
      next, died := DeleteLinks(m, crash, n);
      if died { return; }
      next, died := DeleteVersionRows(m, crash, next);
      if died { return; }
      next, died := DeleteObjectRecords(deleted, crash, next);
      if died { return; }
      next, died := DeleteObjectRows(deleted, crash, next);
      if died { return; }
      if crash == Some(next) { return next, true; }
      states := set s | s in states && s.0 != doc;
      next, died := DeleteVectors(doc, m, crash, next + 1);
    }

    /**
     One run.  However it ends, only the document's own rows and only content that no foreign link
     needed are missing; only a complete run flips the row.
     */
    method Purge(doc: string, crash: Option<nat>) returns (done: bool)
      requires doc in markers && !markers[doc].purged
      modifies this
      ensures OnlyReclaimable(old(objects), objects, old(links), old(markers[doc]))
      ensures OnlyReclaimable(old(objectRows), objectRows, old(links), old(markers[doc]))
      ensures OnlyReclaimable(old(objectRecords), objectRecords, old(links), old(markers[doc]))
      ensures OnlyOwnJournals(old(journals), journals, old(markers[doc]))
      ensures OnlyOwnLinks(old(links), links, old(markers[doc]))
      ensures OnlyOwnVersions(old(versionRows), versionRows, old(markers[doc]))
      ensures OnlyOfDocument(old(vectors), vectors, doc) && OnlyOfDocument(old(states), states, doc)
      ensures messages == old(messages)
      ensures markers == if done then old(markers)[doc := old(markers[doc]).(purged := true)] else old(markers)
      ensures done ==> Gone(doc, old(markers[doc]), old(links))
      ensures crash == None ==> done
    {
      var m := markers[doc];
      var deleted, n, died := PurgeContent(m, crash);
      if died { return false; }
      n, died := PurgeRows(doc, m, deleted, crash, n);
      if died || crash == Some(n) { return false; }
      markers := markers[doc := m.(purged := true)];
      done := true;
    }

    /**
     What is missing since `objects0` and the others were current: own rows, and content of the document
     that no other record linked to.
     */
    ghost predicate OnlyOwnLost(doc: string, m: Marker, links0: set<Link>, objects0: set<string>, rows0: set<string>,
                                records0: set<string>, journals0: set<string>, versions0: map<string, VersionRow>,
                                vectors0: set<(string, string)>, states0: set<(string, string)>)
      reads this
    {
      && OnlyUnshared(objects0, objects, links0, m) && OnlyUnshared(rows0, objectRows, links0, m)
      && OnlyUnshared(records0, objectRecords, links0, m) && OnlyOwnJournals(journals0, journals, m)
      && OnlyOwnLinks(links0, links, m) && OnlyOwnVersions(versions0, versionRows, m)
      && OnlyOfDocument(vectors0, vectors, doc) && OnlyOfDocument(states0, states, doc)
    }

    /**
     Any number of runs that die anywhere, then one that does not: the row is PURGED, everything captured
     is gone, nothing that another record links to was deleted at any point, and with at most 50 versions
     no other content is left.
     */
    method PurgeUntilDone(doc: string, ghost m: Marker, crashes: seq<Option<nat>>)
      requires doc in markers && markers[doc] == m && !m.purged && Captured(m)
      modifies this
      ensures markers == old(markers)[doc := m.(purged := true)] && messages == old(messages)
      ensures Finished(doc, m, old(links))
      ensures OnlyOwnLost(doc, m, old(links), old(objects), old(objectRows), old(objectRecords), old(journals),
                          old(versionRows), old(vectors), old(states))
      ensures crashes == [] ==> Gone(doc, m, old(links)) && OnlyReclaimable(old(objects), objects, old(links), m)
    {
      var done := false;
      for i := 0 to |crashes|
        invariant markers == if done then old(markers)[doc := m.(purged := true)] else old(markers)
        invariant messages == old(messages)
        invariant OnlyOwnLost(doc, m, old(links), old(objects), old(objectRows), old(objectRecords), old(journals),
                              old(versionRows), old(vectors), old(states))
        invariant done ==> Finished(doc, m, old(links))
        invariant i == 0 ==> !done && links == old(links) && objects == old(objects)
      {
        if !done {
          done := PurgeAgain(doc, m, old(links), crashes[i]);
        }
      }
      if !done {
        done := PurgeAgain(doc, m, old(links), None);
      }
    }

    /** One more run, told from the links `links0` as they were before the first. */
    method PurgeAgain(doc: string, ghost m: Marker, ghost links0: set<Link>, crash: Option<nat>) returns (done: bool)
      requires doc in markers && markers[doc] == m && !m.purged && Captured(m) && OnlyOwnLinks(links0, links, m)
      modifies this
      ensures OnlyOwnLost(doc, m, links0, old(objects), old(objectRows), old(objectRecords), old(journals),
                          old(versionRows), old(vectors), old(states))
      ensures markers == if done then old(markers)[doc := m.(purged := true)] else old(markers)
      ensures messages == old(messages)
      ensures done ==> Finished(doc, m, links0) && Gone(doc, m, old(links))
      ensures OnlyReclaimable(old(objects), objects, old(links), m)
      ensures crash == None ==> done
    {
      ghost var before, held, rows, records := links, objects, objectRows, objectRecords;
      done := Purge(doc, crash);
      CarryContent(links0, before, held, objects, m);
      CarryContent(links0, before, rows, objectRows, m);
      CarryContent(links0, before, records, objectRecords, m);
      if done {
        Finish(doc, m, links0, before);
      }
    }

    /**
     A document that is marked, purged and ingested again is not marked again: its PURGED row is in the way, and
     the new version stays.
     */
    method ReturnAfterPurge(doc: string, crashes: seq<Option<nat>>, batch: Batch) returns (marked: bool)
      requires doc !in markers && batch.doc == doc
      requires batch.version in versionRows ==> versionRows[batch.version].doc == doc
      modifies this
      ensures !marked && doc in markers && markers[doc].purged
      ensures batch.version in versionRows && versionRows[batch.version] == VersionRow(doc, batch.messageId)
    {
      var _ := MarkExpired(doc, _ => []);
      PurgeUntilDone(doc, markers[doc], crashes);
      IngestOne(batch);
      marked := MarkExpired(doc, _ => []);
    }
  }
}
