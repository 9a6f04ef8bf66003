/**
 The vector index as an accelerator: every candidate is re-validated against the replica, and a hit
 that survives names the version, and the content, that `getDocument` serves.  The validation reads the
 index row, the versions and the object one after the other, and the stores may change in between.
 */
module SemanticIndex {
  import opened Options
  import opened Sorting
  import opened Lexicographic
  import opened Filters
  import opened PublicReplica

  const MODEL_ID := "@cf/baai/bge-m3"

  /** SHA-256 of an object, and the normalized text it decodes to. */
  datatype Env = Env(sha: Bytes -> string, text: Bytes -> string)

  // ----- the current version

  function VersionIdOf(r: Row): string {
    if r.payload.version.Some? && r.payload.version.value.versionId.Some?
    then r.payload.version.value.versionId.value else ""
  }

  /** The index's own comparator: a number that is not finite counts as minus infinity, ties go by version id. */
  predicate IndexLeq(a: Row, b: Row) {
    match (NumberOf(a), NumberOf(b))
    case (Finite(x), Finite(y)) => x > y || (x == y && LexLeq(VersionIdOf(a), VersionIdOf(b)))
    case (Finite(_), NotFinite) => true
    case (NotFinite, Finite(_)) => false
    case (NotFinite, NotFinite) => LexLeq(VersionIdOf(a), VersionIdOf(b))
  }

  function WithVersionId(rows: seq<Row>): seq<Row> {
    if rows == [] then []
    else
      (if rows[0].payload.version.Some? && rows[0].payload.version.value.versionId.Some? then [rows[0]] else [])
      + WithVersionId(rows[1..])
  }

  function FirstServable(sorted: seq<Row>): Option<Row> {
    if sorted == [] then None
    else if ServableBody(sorted[0].payload).Some? then Some(sorted[0])
    else FirstServable(sorted[1..])
  }

  datatype Current = NoVersion | Current(row: Row, servable: bool)

  /** The first servable version, or failing that the highest one. */
  function CurrentVersion(store: Store, doc: string): Current {
    var sorted := Sort(WithVersionId(RowsOf(store.rows, doc)), IndexLeq);
    match FirstServable(sorted)
    case Some(row) => Current(row, true)
    case None => if sorted == [] then NoVersion else Current(sorted[0], false)
  }

  // ----- validation of one hit

  datatype Hit = NoHit | BodyHit(hash: string) | TitleHit | HitIntegrityFailed

  predicate RowUsable(store: Store, doc: string, version: string) {
    && doc !in store.expired && (doc, version) in store.states
    && var s := store.states[(doc, version)];
       s.state == Ready && !s.retired && s.model == MODEL_ID && s.expected >= 1 && s.confirmed == s.expected
  }

  /** The stores as the three reads of one validation find them. */
  datatype View = View(index: Store, rows: Store, objects: Store)

  function ValidateHit(view: View, env: Env, doc: string, version: string): Hit {
    if !RowUsable(view.index, doc, version) then NoHit
    else
      var s := view.index.states[(doc, version)];
      match CurrentVersion(view.rows, doc)
      case NoVersion => NoHit
      case Current(row, servable) =>
        if VersionIdOf(row) != version then NoHit
        else if s.titleOnly then
          if servable || row.payload.title == "" || s.hash.Some? then NoHit else TitleHit
        else
          var body := if servable then ServableBody(row.payload) else None;
          var objects := view.objects.objects;
          if body == None || s.hash != Some(body.value.hash) || body.value.hash !in objects then NoHit
          else if env.sha(objects[body.value.hash]) != body.value.hash then HitIntegrityFailed
          else if env.text(objects[body.value.hash]) == "" then NoHit
          else BodyHit(body.value.hash)
  }

  function Steady(store: Store): View {
    View(store, store, store)
  }

  // ----- when both faces put the same version first

  /** Record keys are unique, and the key of a version of `doc` is its version id. */
  ghost predicate Keyed(store: Store, doc: string) {
    && (forall i, j :: 0 <= i < j < |store.rows| ==> store.rows[i].recordKey != store.rows[j].recordKey)
    && forall r :: r in store.rows && r.payload.documentId == doc ==>
         r.payload.version.Some? && r.payload.version.value.versionId == Some(r.recordKey)
  }

  predicate IsServable(r: Row) {
    ServableBody(r.payload).Some?
  }

  /** In table order. */
  function ServableRows(store: Store, doc: string): seq<Row> {
    Filter(RowsOf(store.rows, doc), IsServable)
  }

  /**
   Some servable version has a finite number, or there is no servable version, or the first one in the table
   has the least version id of them.
   */
  ghost predicate Settled(rows: seq<Row>) {
    || rows == []
    || (exists r :: r in rows && NumberOf(r).Finite?)
    || (forall r :: r in rows ==> LexLeq(VersionIdOf(rows[0]), VersionIdOf(r)))
  }

  ghost predicate Agreeable(store: Store, doc: string) {
    Keyed(store, doc) && Settled(ServableRows(store, doc))
  }

  lemma IndexOrder()
    ensures Total(IndexLeq) && Transitive(IndexLeq)
  {
    forall a, b ensures IndexLeq(a, b) || IndexLeq(b, a) {
      LexTotal(VersionIdOf(a), VersionIdOf(b));
    }
    forall a, b, c | IndexLeq(a, b) && IndexLeq(b, c) ensures IndexLeq(a, c) {
      if LexLeq(VersionIdOf(a), VersionIdOf(b)) && LexLeq(VersionIdOf(b), VersionIdOf(c)) {
        LexTransitive(VersionIdOf(a), VersionIdOf(b), VersionIdOf(c));
      }
    }
  }

  lemma {:induction false} AllHaveIds(rows: seq<Row>)
    requires forall r :: r in rows ==> r.payload.version.Some? && r.payload.version.value.versionId.Some?
    ensures WithVersionId(rows) == rows
  {
    if rows != [] {
      assert rows == [rows[0]] + rows[1..];
      AllHaveIds(rows[1..]);
    }
  }

  lemma {:induction false} FirstServableIsHead(sorted: seq<Row>)
    ensures FirstServable(sorted) ==
            var kept := Filter(sorted, IsServable); if kept == [] then None else Some(kept[0])
  {
    if sorted != [] && !IsServable(sorted[0]) {
      FirstServableIsHead(sorted[1..]);
    }
  }

  /** The first servable version of a walk is the least servable one. */
  lemma FirstServableIsLeast(rows: seq<Row>, leq: (Row, Row) -> bool)
    requires Total(leq) && Transitive(leq)
    ensures var kept := Filter(rows, IsServable);
            FirstServable(Sort(rows, leq)) == if kept == [] then None else Some(Sort(kept, leq)[0])
  {
    FirstServableIsHead(Sort(rows, leq));
    FilterSorted(rows, leq, IsServable);
    SortPermutes(Filter(rows, IsServable), leq);
  }

  lemma HeadIsLeast(rows: seq<Row>, leq: (Row, Row) -> bool)
    requires rows != [] && Total(leq) && Transitive(leq)
    ensures |Sort(rows, leq)| == |rows| && Sort(rows, leq)[0] in rows
    ensures forall r :: r in rows ==> leq(Sort(rows, leq)[0], r)
  {
    SortPermutes(rows, leq);
    SortSorts(rows, leq);
    var sorted := Sort(rows, leq);
    assert sorted[0] in sorted;
    forall r | r in rows ensures leq(sorted[0], r) {
      assert r in sorted;
      var i :| 0 <= i < |sorted| && sorted[i] == r;
      assert leq(r, r);
    }
  }

  /** Rows that are all tied stay in table order. */
  lemma {:induction false} TiedStay(rows: seq<Row>)
    requires forall r :: r in rows ==> NumberOf(r).NotFinite?
    ensures Sort(rows, ReadLeq) == rows
  {
    if rows != [] {
      assert rows == [rows[0]] + rows[1..];
      TiedStay(rows[1..]);
      assert rows[1..] != [] ==> rows[1..][0] in rows;
    }
  }

  /** Different rows have different ids, and each id is the key. */
  ghost predicate Identified(rows: seq<Row>) {
    && (forall r :: r in rows ==> VersionIdOf(r) == r.recordKey)
    && (forall a, b :: a in rows && b in rows && a.recordKey == b.recordKey ==> a == b)
  }

  lemma SameLeastIfFinite(rows: seq<Row>, f: Row)
    requires Identified(rows) && f in rows && NumberOf(f).Finite?
    ensures |Sort(rows, ReadLeq)| == |Sort(rows, IndexLeq)| == |rows|
      && Sort(rows, ReadLeq)[0] == Sort(rows, IndexLeq)[0]
  {
    ReadOrder();
    IndexOrder();
    HeadIsLeast(rows, ReadLeq);
    HeadIsLeast(rows, IndexLeq);
    var h, g := Sort(rows, ReadLeq)[0], Sort(rows, IndexLeq)[0];
    assert ReadLeq(h, f) && ReadLeq(h, g) && IndexLeq(g, h);
    if LexLeq(h.recordKey, g.recordKey) && LexLeq(g.recordKey, h.recordKey) {
      LexAntisymmetric(h.recordKey, g.recordKey);
    }
  }

  lemma SameLeastIffFirst(rows: seq<Row>)
    requires rows != [] && Identified(rows) && forall r :: r in rows ==> NumberOf(r).NotFinite?
    ensures |Sort(rows, ReadLeq)| == |Sort(rows, IndexLeq)| == |rows|
    ensures Sort(rows, ReadLeq)[0] == Sort(rows, IndexLeq)[0]
            <==> forall r :: r in rows ==> LexLeq(VersionIdOf(rows[0]), VersionIdOf(r))
  {
    TiedStay(rows);
    IndexOrder();
    HeadIsLeast(rows, IndexLeq);
    var g := Sort(rows, IndexLeq)[0];
    assert rows[0] in rows && IndexLeq(g, rows[0]);
    if forall r :: r in rows ==> LexLeq(VersionIdOf(rows[0]), VersionIdOf(r)) {
      LexAntisymmetric(g.recordKey, rows[0].recordKey);
    } else {
      var r :| r in rows && !LexLeq(VersionIdOf(rows[0]), VersionIdOf(r));
      assert IndexLeq(g, r);
    }
  }

  lemma KeyedRows(store: Store, doc: string)
    requires Keyed(store, doc)
    ensures var rows := RowsOf(store.rows, doc);
            && WithVersionId(rows) == rows && Identified(ServableRows(store, doc))
            && (forall r :: r in rows ==> r in store.rows && r.payload.version.Some? && VersionIdOf(r) == r.recordKey)
            && (forall r :: r in ServableRows(store, doc) ==> r in rows && IsServable(r))
  {
    var rows := RowsOf(store.rows, doc);
    RowsOfMembers(store.rows, doc);
    AllHaveIds(rows);
    forall r ensures r in ServableRows(store, doc) <==> r in rows && IsServable(r) {
      FilterMembers(rows, IsServable, r);
    }
    forall a, b | a in ServableRows(store, doc) && b in ServableRows(store, doc) && a.recordKey == b.recordKey
      ensures a == b {
      SameKeySameRow(store, a, b);
    }
  }

  function FirstRead(store: Store, doc: string): Option<Row> {
    FirstServable(Sort(RowsOf(store.rows, doc), ReadLeq))
  }

  function FirstIndexed(store: Store, doc: string): Option<Row> {
    FirstServable(Sort(WithVersionId(RowsOf(store.rows, doc)), IndexLeq))
  }

  /** The two walks meet the same servable version first exactly on settled rows. */
  lemma SameFirstIffSettled(store: Store, doc: string)
    requires Keyed(store, doc)
    ensures FirstRead(store, doc) == FirstIndexed(store, doc) <==> Settled(ServableRows(store, doc))
    ensures FirstRead(store, doc).Some? <==> ServableRows(store, doc) != []
    ensures FirstIndexed(store, doc).Some? <==> ServableRows(store, doc) != []
  {
    var rows, kept := RowsOf(store.rows, doc), ServableRows(store, doc);
    KeyedRows(store, doc);
    ReadOrder();
    IndexOrder();
    FirstServableIsLeast(rows, ReadLeq);
    FirstServableIsLeast(rows, IndexLeq);
    if f :| f in kept && NumberOf(f).Finite? {
      SameLeastIfFinite(kept, f);
    } else if kept != [] {
      SameLeastIffFirst(kept);
    }
  }

  // ----- agreement with the read

  lemma SameKeySameRow(store: Store, a: Row, b: Row)
    requires forall i, j :: 0 <= i < j < |store.rows| ==> store.rows[i].recordKey != store.rows[j].recordKey
    requires a in store.rows && b in store.rows && a.recordKey == b.recordKey
    ensures a == b
  {
    var i :| 0 <= i < |store.rows| && store.rows[i] == a;
    var j :| 0 <= j < |store.rows| && store.rows[j] == b;
  }

  /** The read fetches the object of its first servable version first. */
  lemma {:induction false} FirstServableIsFetched(objectsAt: nat -> map<string, Bytes>, sha: Bytes -> string,
                                                  sorted: seq<Row>)
    ensures match FirstServable(sorted)
            case None => ServeFirstAt(objectsAt, 0, sha, sorted, false) == Unsupported
            case Some(row) =>
              && row in sorted && IsServable(row)
              && var body := ServableBody(row.payload).value;
                 body.hash in objectsAt(0) ==>
                   ServeFirstAt(objectsAt, 0, sha, sorted, false)
                   == if sha(objectsAt(0)[body.hash]) == body.hash then Served(row, body, objectsAt(0)[body.hash])
                      else IntegrityFailed
  {
    if sorted != [] {
      assert sorted == [sorted[0]] + sorted[1..];
      FirstServableIsFetched(objectsAt, sha, sorted[1..]);
    }
  }

  /** What the read says about a hit. */
  predicate Confirms(read: ReadResult, version: string, hit: Hit) {
    match hit
    case BodyHit(hash) => read.Served? && read.row.recordKey == version && read.body.hash == hash
    case HitIntegrityFailed => read == IntegrityFailed
    case TitleHit => read == Unsupported
    case NoHit => true
  }

  /** Any `getDocument` that reads the same versions, and whose first object read is at the same moment, confirms. */
  ghost predicate Confirmed(view: View, env: Env, doc: string, version: string, hit: Hit) {
    forall objectsAt: nat -> map<string, Bytes> :: objectsAt(0) == view.objects.objects ==>
      Confirms(ReadAt(view.rows, objectsAt, env.sha, doc), version, hit)
  }

  lemma ReadIsWalk(store: Store, objectsAt: nat -> map<string, Bytes>, sha: Bytes -> string, doc: string)
    requires Keyed(store, doc) && doc !in store.expired && RowsOf(store.rows, doc) != []
    ensures ReadAt(store, objectsAt, sha, doc)
      == ServeFirstAt(objectsAt, 0, sha, Sort(RowsOf(store.rows, doc), ReadLeq), false)
  {
    KeyedRows(store, doc);
  }

  /**
   Whatever vectors and index-state rows there are, and whatever changes between the reads: a body hit names
   the version and content hash that the read serves, a corrupt object fails both, and a title hit is a
   document the read cannot serve - if and only if the document is not marked expired when its versions are
   read.  The validation tests the mark in its first read only.
   */
  lemma HitAgreesIffNotExpiredMeanwhile(view: View, env: Env, doc: string, version: string)
    requires Agreeable(view.rows, doc) && ValidateHit(view, env, doc, version) != NoHit
    ensures doc !in view.index.expired
    ensures Confirmed(view, env, doc, version, ValidateHit(view, env, doc, version)) <==> doc !in view.rows.expired
  {
    var hit := ValidateHit(view, env, doc, version);
    if doc !in view.rows.expired {
      forall objectsAt: nat -> map<string, Bytes> | objectsAt(0) == view.objects.objects
        ensures Confirms(ReadAt(view.rows, objectsAt, env.sha, doc), version, hit) {
        HitIsConfirmed(view, env, doc, version, objectsAt);
      }
    } else {
      var objectsAt: nat -> map<string, Bytes> := _ => view.objects.objects;
      assert ReadAt(view.rows, objectsAt, env.sha, doc) == NotFound;
    }
  }

  /** In particular on stores where the mark is not set between the two reads. */
  lemma HitAgreesWithRead(view: View, env: Env, doc: string, version: string)
    requires Agreeable(view.rows, doc) && (doc in view.rows.expired ==> doc in view.index.expired)
    ensures Confirmed(view, env, doc, version, ValidateHit(view, env, doc, version))
  {
    if ValidateHit(view, env, doc, version) != NoHit {
      HitAgreesIffNotExpiredMeanwhile(view, env, doc, version);
    }
  }

  /** A document that is marked between the two reads: the search shows it, the read does not find it. */
  lemma ExpiredMeanwhileIsStillAHit(env: Env, bytes: Bytes, hash: string)
    requires IsHexSha256(hash) && IsText(env, bytes, hash)
    ensures var s := ReadyDocument(bytes, hash); var r := s.(expired := {"d"});
      && ValidateHit(View(s, r, r), env, "d", "a") == BodyHit(hash)
      && !Confirmed(View(s, r, r), env, "d", "a", BodyHit(hash))
  {
    var s := ReadyDocument(bytes, hash);
    var r := s.(expired := {"d"});
    var a := TextRow("a", Finite(1.0), hash);
    OneRow(s, a, hash);
    IndexHits(s, env, "d", a);
    assert CurrentVersion(r, "d") == CurrentVersion(s, "d");
    assert ValidateHit(View(s, r, r), env, "d", "a") == ValidateHit(Steady(s), env, "d", "a");
    assert Agreeable(r, "d");
    HitAgreesIffNotExpiredMeanwhile(View(s, r, r), env, "d", "a");
  }

  /** One version "a" of document "d", indexed and with its object in place. */
  function ReadyDocument(bytes: Bytes, hash: string): Store {
    Store([TextRow("a", Finite(1.0), hash)], {}, map[hash := bytes],
          map[("d", "a") := StateRow(Ready, false, MODEL_ID, false, Some(hash), 1, 1)])
  }

  lemma OneRow(store: Store, a: Row, hash: string)
    requires store.rows == [a] && a == TextRow("a", Finite(1.0), hash) && IsHexSha256(hash)
    ensures IsServable(a) && ContentHash(a) == hash && ServableRows(store, "d") == [a]
    ensures Keyed(store, "d") && FirstIndexed(store, "d") == Some(a)
  {
    PlainHasNoParameters(0);
    assert RowsOf([a], "d") == [a] by {
      assert [a][1..] == [] && [a] == [a] + RowsOf([], "d");
    }
    FilterCons(a, [], IsServable);
    assert [a] == [a] + [];
    SameFirstIffSettled(store, "d");
    FirstIsServable(store, "d");
    assert FirstIndexed(store, "d").value in [a];
  }

  lemma HitIsConfirmed(view: View, env: Env, doc: string, version: string, objectsAt: nat -> map<string, Bytes>)
    requires Agreeable(view.rows, doc) && doc !in view.rows.expired && objectsAt(0) == view.objects.objects
    requires ValidateHit(view, env, doc, version) != NoHit
    ensures Confirms(ReadAt(view.rows, objectsAt, env.sha, doc), version, ValidateHit(view, env, doc, version))
  {
    var rows := RowsOf(view.rows.rows, doc);
    SameFirstIffSettled(view.rows, doc);
    KeyedRows(view.rows, doc);
    SortPermutes(rows, IndexLeq);
    SortPermutes(rows, ReadLeq);
    assert rows != [];
    ReadIsWalk(view.rows, objectsAt, env.sha, doc);
    FirstServableIsFetched(objectsAt, env.sha, Sort(rows, ReadLeq));
  }

  function ContentHash(r: Row): string {
    match ServableBody(r.payload) case Some(body) => body.hash case None => ""
  }

  ghost predicate IsText(env: Env, bytes: Bytes, hash: string) {
    env.sha(bytes) == hash && env.text(bytes) != ""
  }

  /** Every declared content hash is that of some readable text. */
  ghost predicate Realizable(store: Store, env: Env, doc: string) {
    forall r :: r in ServableRows(store, doc) ==> exists bytes: Bytes :: IsText(env, bytes, ContentHash(r))
  }

  ghost predicate EveryHitConfirmed(store: Store, env: Env, doc: string) {
    forall states, objects, version ::
      Confirmed(Steady(store.(states := states, objects := objects)), env, doc, version,
                ValidateHit(Steady(store.(states := states, objects := objects)), env, doc, version))
  }

  /** A ready row of the first servable version, with its object in place, is a hit. */
  lemma IndexHits(store: Store, env: Env, doc: string, a: Row)
    requires FirstIndexed(store, doc) == Some(a) && IsServable(a) && VersionIdOf(a) == a.recordKey
      && doc !in store.expired
    requires (doc, a.recordKey) in store.states
    requires store.states[(doc, a.recordKey)] == StateRow(Ready, false, MODEL_ID, false, Some(ContentHash(a)), 1, 1)
    requires ContentHash(a) in store.objects && IsText(env, store.objects[ContentHash(a)], ContentHash(a))
    ensures ValidateHit(Steady(store), env, doc, a.recordKey) == BodyHit(ContentHash(a))
  {
    assert CurrentVersion(store, doc) == Current(a, true);
  }

  /** And the read serves its own first servable version. */
  lemma ReadServes(store: Store, env: Env, doc: string, b: Row, objectsAt: nat -> map<string, Bytes>)
    requires Keyed(store, doc) && doc !in store.expired && b in ServableRows(store, doc)
      && FirstRead(store, doc) == Some(b)
    requires ContentHash(b) in objectsAt(0) && IsText(env, objectsAt(0)[ContentHash(b)], ContentHash(b))
    ensures var read := ReadAt(store, objectsAt, env.sha, doc); read.Served? && read.row == b
  {
    KeyedRows(store, doc);
    assert b in RowsOf(store.rows, doc);
    ReadIsWalk(store, objectsAt, env.sha, doc);
    FirstServableIsFetched(objectsAt, env.sha, Sort(RowsOf(store.rows, doc), ReadLeq));
  }

  lemma HitNotConfirmed(store: Store, env: Env, doc: string, a: Row, b: Row)
    requires Keyed(store, doc) && doc !in store.expired
    requires b in ServableRows(store, doc) && FirstRead(store, doc) == Some(b)
    requires ContentHash(b) in store.objects && IsText(env, store.objects[ContentHash(b)], ContentHash(b))
    requires a.recordKey != b.recordKey
    ensures !Confirmed(Steady(store), env, doc, a.recordKey, BodyHit(ContentHash(a)))
  {
    var objectsAt: nat -> map<string, Bytes> := _ => store.objects;
    ReadServes(store, env, doc, b, objectsAt);
    assert !Confirms(ReadAt(store, objectsAt, env.sha, doc), a.recordKey, BodyHit(ContentHash(a)));
  }

  /** Index state and objects in which the hit on `a` and the read of `b` both succeed. */
  lemma Furnished(store: Store, env: Env, doc: string, a: Row, b: Row)
    returns (states: map<(string, string), StateRow>, objects: map<string, Bytes>)
    requires Realizable(store, env, doc) && a in ServableRows(store, doc) && b in ServableRows(store, doc)
    ensures (doc, a.recordKey) in states
    ensures states[(doc, a.recordKey)] == StateRow(Ready, false, MODEL_ID, false, Some(ContentHash(a)), 1, 1)
    ensures ContentHash(a) in objects && IsText(env, objects[ContentHash(a)], ContentHash(a))
    ensures ContentHash(b) in objects && IsText(env, objects[ContentHash(b)], ContentHash(b))
  {
    var p: Bytes :| IsText(env, p, ContentHash(a));
    var q: Bytes :| IsText(env, q, ContentHash(b));
    states := map[(doc, a.recordKey) := StateRow(Ready, false, MODEL_ID, false, Some(ContentHash(a)), 1, 1)];
    objects := map[ContentHash(a) := p, ContentHash(b) := q];
  }

  /** Different first versions: with both objects in place and a ready row, a hit is not confirmed. */
  lemma DifferentFirstsDisagree(store: Store, env: Env, doc: string, a: Row, b: Row)
    requires Keyed(store, doc) && Realizable(store, env, doc) && doc !in store.expired
    requires a in ServableRows(store, doc) && b in ServableRows(store, doc) && a != b
    requires FirstIndexed(store, doc) == Some(a) && FirstRead(store, doc) == Some(b)
    ensures !EveryHitConfirmed(store, env, doc)
  {
    KeyedRows(store, doc);
    var states, objects := Furnished(store, env, doc, a, b);
    var other := store.(states := states, objects := objects);
    IndexHits(other, env, doc, a);
    if a.recordKey == b.recordKey {
      SameKeySameRow(store, a, b);
    }
    HitNotConfirmed(other, env, doc, a, b);
    assert !Confirmed(Steady(store.(states := states, objects := objects)), env, doc, a.recordKey,
                      ValidateHit(Steady(store.(states := states, objects := objects)), env, doc, a.recordKey));
  }

  /**
   Exactly when index and read agree: for all index states and objects every hit is confirmed, if and only if
   the servable versions of the document are settled.
   */
  lemma EveryHitConfirmedIffSettled(store: Store, env: Env, doc: string)
    requires Keyed(store, doc) && Realizable(store, env, doc) && doc !in store.expired
    ensures EveryHitConfirmed(store, env, doc) <==> Settled(ServableRows(store, doc))
  {
    if Settled(ServableRows(store, doc)) {
      forall states, objects, version
        ensures Confirmed(Steady(store.(states := states, objects := objects)), env, doc, version,
                          ValidateHit(Steady(store.(states := states, objects := objects)), env, doc, version)) {
        HitAgreesWithRead(Steady(store.(states := states, objects := objects)), env, doc, version);
      }
    } else {
      SameFirstIffSettled(store, doc);
      FirstIsServable(store, doc);
      DifferentFirstsDisagree(store, env, doc, FirstIndexed(store, doc).value, FirstRead(store, doc).value);
    }
  }

  lemma FirstIsServable(store: Store, doc: string)
    requires Keyed(store, doc)
    ensures FirstRead(store, doc).Some? ==> FirstRead(store, doc).value in ServableRows(store, doc)
    ensures FirstIndexed(store, doc).Some? ==> FirstIndexed(store, doc).value in ServableRows(store, doc)
  {
    var rows := RowsOf(store.rows, doc);
    KeyedRows(store, doc);
    ReadOrder();
    IndexOrder();
    FirstServableIsLeast(rows, ReadLeq);
    FirstServableIsLeast(rows, IndexLeq);
    if ServableRows(store, doc) != [] {
      HeadIsLeast(ServableRows(store, doc), ReadLeq);
      HeadIsLeast(ServableRows(store, doc), IndexLeq);
    }
  }

  /** Finite numbers settle every document. */
  lemma FiniteNumbersSettle(store: Store, doc: string)
    requires WellFormed(store, doc)
    ensures Agreeable(store, doc)
  {
    RowsOfMembers(store.rows, doc);
    var kept := ServableRows(store, doc);
    if kept != [] {
      FilterMembers(RowsOf(store.rows, doc), IsServable, kept[0]);
      assert kept[0] in kept;
    }
  }

  /**
   And a READY row loses no document: when its version is the first servable one, it is a hit exactly
   when the read serves that version and its text is not empty.
   */
  lemma ReadyRowHitsIffServed(store: Store, env: Env, doc: string, version: string, hash: string)
    requires Agreeable(store, doc) && RowUsable(store, doc, version)
    requires var s := store.states[(doc, version)]; !s.titleOnly && s.hash == Some(hash)
    requires CurrentVersion(store, doc).Current? && CurrentVersion(store, doc).servable
    requires VersionIdOf(CurrentVersion(store, doc).row) == version
    ensures var read := ReadDocument(store, env.sha, doc);
            ValidateHit(Steady(store), env, doc, version) == BodyHit(hash)
            <==> read.Served? && read.row.recordKey == version && read.body.hash == hash && env.text(read.bytes) != ""
  {
    CurrentIsRead(store, env, doc);
    var read := ReadDocument(store, env.sha, doc);
    if read.Served? && read.row.recordKey == version {
      ServedIsStored(store, env.sha, doc);
      SameKeySameRow(store, read.row, CurrentVersion(store, doc).row);
    }
  }

  /** When the first servable version has its object, it is what the read serves. */
  lemma CurrentIsRead(store: Store, env: Env, doc: string)
    requires Agreeable(store, doc) && doc !in store.expired
    requires CurrentVersion(store, doc).Current? && CurrentVersion(store, doc).servable
    ensures var row := CurrentVersion(store, doc).row;
            && row in store.rows && VersionIdOf(row) == row.recordKey && IsServable(row)
            && var body := ServableBody(row.payload).value;
               body.hash in store.objects ==>
                 ReadDocument(store, env.sha, doc)
                 == if env.sha(store.objects[body.hash]) == body.hash then Served(row, body, store.objects[body.hash])
                    else IntegrityFailed
  {
    var objectsAt: nat -> map<string, Bytes> := _ => store.objects;
    SameFirstIffSettled(store, doc);
    KeyedRows(store, doc);
    FirstIsServable(store, doc);
    assert FirstIndexed(store, doc) == Some(CurrentVersion(store, doc).row);
    ReadIsWalk(store, objectsAt, env.sha, doc);
    FirstServableIsFetched(objectsAt, env.sha, Sort(RowsOf(store.rows, doc), ReadLeq));
    SteadyRead(store, objectsAt, env.sha, doc);
  }

  /** Two versions without finite numbers, the greater id first in the table: not every hit is confirmed. */
  lemma NotFiniteDisagrees(env: Env, bytes: Bytes, hash: string)
    requires IsHexSha256(hash) && IsText(env, bytes, hash)
    ensures var store := Store([TextRow("b", NotFinite, hash), TextRow("a", NotFinite, hash)], {}, map[], map[]);
            !EveryHitConfirmed(store, env, "d")
  {
    var a, b := TextRow("a", NotFinite, hash), TextRow("b", NotFinite, hash);
    var store := Store([b, a], {}, map[], map[]);
    PlainHasNoParameters(0);
    assert ServableBody(a.payload) == ServableBody(b.payload) == Some(Body(true, hash));
    assert RowsOf(store.rows, "d") == [b, a] by {
      assert [b, a][1..] == [a] && [a][1..] == [];
      assert RowsOf([a], "d") == [a] + RowsOf([], "d");
    }
    assert ServableRows(store, "d") == [b, a] by {
      assert [b, a] == [b] + [a] && [a] == [a] + [];
      FilterCons(b, [a], IsServable);
      FilterCons(a, [], IsServable);
    }
    forall r | r in ServableRows(store, "d") ensures exists text: Bytes :: IsText(env, text, ContentHash(r)) {
      assert r == a || r == b;
      assert IsText(env, bytes, ContentHash(r));
    }
    assert a in [b, a] && !LexLeq(VersionIdOf(b), VersionIdOf(a));
    EveryHitConfirmedIffSettled(store, env, "d");
  }

  function TextRow(key: string, number: VersionNumber, hash: string): Row {
    Row(key, Payload("d", "", Some(Version(Some(key), number, "ORIGINAL", "text/plain", hash)), []))
  }

  lemma {:induction false} PlainHasNoParameters(from: nat)
    requires from <= 10
    ensures WithoutParameters("text/plain", from) == "text/plain"
    decreases 10 - from
  {
    if from < 10 {
      assert "text/plain"[from] != ';';
      PlainHasNoParameters(from + 1);
    }
  }

  // ----- what a hit means, from the stored fields

  /** The index row is ready, current, complete and for this kind of chunk and content. */
  predicate ReadyFor(store: Store, doc: string, version: string, titleOnly: bool, hash: Option<string>) {
    && doc !in store.expired && (doc, version) in store.states
    && var s := store.states[(doc, version)];
       && s.state == Ready && !s.retired && s.model == "@cf/baai/bge-m3" && s.expected >= 1 && s.confirmed == s.expected
       && s.titleOnly == titleOnly && s.hash == hash
  }

  /** The version the index takes is servable, is this one, and has this content. */
  predicate TakesContent(store: Store, doc: string, version: string, hash: string) {
    var c := CurrentVersion(store, doc);
    c.Current? && c.servable && VersionIdOf(c.row) == version && IsServable(c.row) && ContentHash(c.row) == hash
  }

  lemma BodyHitIff(view: View, env: Env, doc: string, version: string, hash: string)
    requires var c := CurrentVersion(view.rows, doc); c.Current? && c.servable ==> IsServable(c.row)
    ensures ValidateHit(view, env, doc, version) == BodyHit(hash)
      <==> && ReadyFor(view.index, doc, version, false, Some(hash)) && TakesContent(view.rows, doc, version, hash)
           && hash in view.objects.objects && IsText(env, view.objects.objects[hash], hash)
    ensures TakesContent(view.rows, doc, version, hash) ==>
      (ValidateHit(view, env, doc, version) == HitIntegrityFailed
       <==> && ReadyFor(view.index, doc, version, false, Some(hash))
            && hash in view.objects.objects && env.sha(view.objects.objects[hash]) != hash)
    ensures ValidateHit(view, env, doc, version) == HitIntegrityFailed ==>
      exists content :: TakesContent(view.rows, doc, version, content)
  {
    var c := CurrentVersion(view.rows, doc);
    if ValidateHit(view, env, doc, version) == HitIntegrityFailed {
      assert TakesContent(view.rows, doc, version, ContentHash(c.row));
    }
  }

  lemma TakenIsFirst(store: Store, doc: string, version: string, hash: string)
    requires Keyed(store, doc)
    ensures TakesContent(store, doc, version, hash)
      <==> && FirstIndexed(store, doc).Some? && FirstIndexed(store, doc).value.recordKey == version
           && ShowsBody(FirstIndexed(store, doc).value, hash)
    ensures var c := CurrentVersion(store, doc); c.Current? && c.servable ==> IsServable(c.row)
  {
    KeyedRows(store, doc);
    FirstIsServable(store, doc);
    if FirstIndexed(store, doc).Some? {
      ShownIsContentHash(FirstIndexed(store, doc).value, hash);
    }
  }

  /** Exactly when a hit shows the body of a version. */
  lemma BodyHitMeaning(view: View, env: Env, doc: string, version: string, hash: string)
    requires Keyed(view.rows, doc)
    ensures ValidateHit(view, env, doc, version) == BodyHit(hash)
      <==> && ReadyFor(view.index, doc, version, false, Some(hash))
           && hash in view.objects.objects && IsText(env, view.objects.objects[hash], hash)
           && FirstIndexed(view.rows, doc).Some?
           && FirstIndexed(view.rows, doc).value.recordKey == version
           && ShowsBody(FirstIndexed(view.rows, doc).value, hash)
  {
    TakenIsFirst(view.rows, doc, version, hash);
    BodyHitIff(view, env, doc, version, hash);
  }

  ghost predicate ShowsBody(row: Row, hash: string) {
    exists own :: IsBodyOf(row.payload, Body(own, hash))
  }

  lemma ShownIsContentHash(row: Row, hash: string)
    requires IsServable(row)
    ensures ShowsBody(row, hash) <==> ContentHash(row) == hash
  {
    var body := ServableBody(row.payload).value;
    ServableBodyMeaning(row.payload, body);
    forall own ensures IsBodyOf(row.payload, Body(own, hash)) <==> body == Body(own, hash) {
      ServableBodyMeaning(row.payload, Body(own, hash));
    }
    if body.hash == hash {
      assert body == Body(body.own, hash);
    }
  }

  /** Of two versions the higher number wins, a finite one before any other, and of equals the lesser id. */
  predicate AtLeastAsHigh(a: Row, b: Row) {
    match (NumberOf(a), NumberOf(b))
    case (Finite(x), Finite(y)) => x > y || (x == y && LexLeq(a.recordKey, b.recordKey))
    case (Finite(_), NotFinite) => true
    case (NotFinite, Finite(_)) => false
    case (NotFinite, NotFinite) => LexLeq(a.recordKey, b.recordKey)
  }

  /** The servable version the index takes is the highest of them. */
  lemma FirstIndexedIsHighest(store: Store, doc: string, other: Row)
    requires Keyed(store, doc) && other in ServableRows(store, doc)
    ensures FirstIndexed(store, doc).Some? && AtLeastAsHigh(FirstIndexed(store, doc).value, other)
  {
    KeyedRows(store, doc);
    IndexOrder();
    FirstIsServable(store, doc);
    SameFirstIffSettled(store, doc);
    FirstServableIsLeast(RowsOf(store.rows, doc), IndexLeq);
    HeadIsLeast(ServableRows(store, doc), IndexLeq);
  }

  predicate IsHighestTitled(store: Store, doc: string, r: Row) {
    && r in store.rows && r.payload.documentId == doc && r.payload.title != ""
    && forall o :: o in store.rows && o.payload.documentId == doc ==> AtLeastAsHigh(r, o)
  }

  /** The version the index takes when none is servable. */
  lemma TitledIsHighest(store: Store, doc: string)
    requires Keyed(store, doc) && CurrentVersion(store, doc).Current? && !CurrentVersion(store, doc).servable
    ensures var r := CurrentVersion(store, doc).row;
      && ServableRows(store, doc) == [] && VersionIdOf(r) == r.recordKey
      && r in store.rows && r.payload.documentId == doc
      && forall o :: o in store.rows && o.payload.documentId == doc ==> AtLeastAsHigh(r, o)
  {
    var rows := RowsOf(store.rows, doc);
    KeyedRows(store, doc);
    RowsOfMembers(store.rows, doc);
    SameFirstIffSettled(store, doc);
    IndexOrder();
    SortPermutes(rows, IndexLeq);
    HeadIsLeast(rows, IndexLeq);
  }

  lemma NoneServable(store: Store, doc: string)
    requires Keyed(store, doc)
    ensures CurrentVersion(store, doc).Current? && !CurrentVersion(store, doc).servable
            <==> ServableRows(store, doc) == [] && RowsOf(store.rows, doc) != []
  {
    KeyedRows(store, doc);
    SameFirstIffSettled(store, doc);
    SortPermutes(RowsOf(store.rows, doc), IndexLeq);
  }

  lemma TopIsHighest(store: Store, doc: string, r: Row)
    requires Keyed(store, doc) && CurrentVersion(store, doc).Current? && !CurrentVersion(store, doc).servable
    ensures IsHighestTitled(store, doc, r) <==> r == CurrentVersion(store, doc).row && r.payload.title != ""
  {
    TitledIsHighest(store, doc);
    if IsHighestTitled(store, doc, r) {
      HighestIsUnique(store, doc, r, CurrentVersion(store, doc).row);
    }
  }

  /** Such a hit comes from the state row and the version the index takes. */
  lemma TitleHitIff(view: View, env: Env, doc: string, version: string)
    ensures ValidateHit(view, env, doc, version) == TitleHit
      <==> && ReadyFor(view.index, doc, version, true, None)
           && var c := CurrentVersion(view.rows, doc);
              c.Current? && !c.servable && VersionIdOf(c.row) == version && c.row.payload.title != ""
  {
  }

  /** A title hit is a titled document without any servable version, shown by its highest version. */
  lemma TitleHitMeaning(view: View, env: Env, doc: string, version: string)
    requires Keyed(view.rows, doc)
    ensures ValidateHit(view, env, doc, version) == TitleHit
      <==> && ReadyFor(view.index, doc, version, true, None) && ServableRows(view.rows, doc) == []
           && exists r :: IsHighestTitled(view.rows, doc, r) && r.recordKey == version
  {
    TitleHitIff(view, env, doc, version);
    NoneServable(view.rows, doc);
    var c := CurrentVersion(view.rows, doc);
    if c.Current? && !c.servable {
      TitledIsHighest(view.rows, doc);
      forall r ensures IsHighestTitled(view.rows, doc, r) <==> r == c.row && r.payload.title != "" {
        TopIsHighest(view.rows, doc, r);
      }
    }
    if r :| IsHighestTitled(view.rows, doc, r) {
      RowsOfMembers(view.rows.rows, doc);
      assert r in RowsOf(view.rows.rows, doc);
    }
  }

  lemma HighestIsUnique(store: Store, doc: string, a: Row, b: Row)
    requires Keyed(store, doc) && a in store.rows && b in store.rows
    requires a.payload.documentId == b.payload.documentId == doc && AtLeastAsHigh(a, b) && AtLeastAsHigh(b, a)
    ensures a == b
  {
    LexAntisymmetric(a.recordKey, b.recordKey);
    var i :| 0 <= i < |store.rows| && store.rows[i] == a;
    var k :| 0 <= k < |store.rows| && store.rows[k] == b;
  }

  /** A hit fails the search when the object it would show has other bytes than its hash says. */
  lemma CorruptHitMeaning(view: View, env: Env, doc: string, version: string, hash: string)
    requires Keyed(view.rows, doc)
    requires FirstIndexed(view.rows, doc).Some? ==> ShowsBody(FirstIndexed(view.rows, doc).value, hash)
    ensures ValidateHit(view, env, doc, version) == HitIntegrityFailed
      <==> && ReadyFor(view.index, doc, version, false, Some(hash))
           && hash in view.objects.objects && env.sha(view.objects.objects[hash]) != hash
           && FirstIndexed(view.rows, doc).Some?
           && FirstIndexed(view.rows, doc).value.recordKey == version
  {
    TakenIsFirst(view.rows, doc, version, hash);
    BodyHitIff(view, env, doc, version, hash);
    if content :| TakesContent(view.rows, doc, version, content) {
      TakenIsFirst(view.rows, doc, version, content);
    }
  }

  // ----- registration at ingest

  /** An already READY row survives re-ingest only for the same bytes, the same model and complete accounting. */
  predicate KeepsReady(s: StateRow, hash: Option<string>) {
    s.state == Ready && s.confirmed == s.expected && s.confirmed > 0 && s.hash == hash && s.model == MODEL_ID
  }

  function Register(states: map<(string, string), StateRow>, doc: string, version: string, hash: Option<string>,
                    servable: bool): map<(string, string), StateRow> {
    var key := (doc, version);
    var row :=
      if key in states && KeepsReady(states[key], hash) then states[key].(retired := false)
      else StateRow(Pending, false, MODEL_ID, key in states && states[key].titleOnly, hash, 0, 0);
    var registered := states[key := row];
    if !servable then registered
    else
      map k | k in registered ::
        if k.0 == doc && k.1 != version && !registered[k].retired
        then registered[k].(state := Failed, expected := 0, confirmed := 0, retired := true)
        else registered[k]
  }

  /**
   Ingesting a servable version makes every other version of its document ineligible at once, makes
   its own row eligible only when its vectors are already those of these bytes, and leaves the
   eligibility of other documents alone.
   */
  lemma RegisterSupersedes(store: Store, doc: string, version: string, hash: Option<string>, d: string, v: string)
    ensures var after := store.(states := Register(store.states, doc, version, hash, true));
            RowUsable(after, d, v)
            <==> if d != doc then RowUsable(store, d, v)
                 else && v == version && doc !in store.expired && (doc, v) in store.states
                      && KeepsReady(store.states[(doc, v)], hash)
  {
  }

  /** What an ingest leaves in the index rows. */
  lemma RegisterMeaning(states: map<(string, string), StateRow>, doc: string, version: string, hash: Option<string>,
                        servable: bool, d: string, v: string)
    ensures var after := Register(states, doc, version, hash, servable);
      && ((d, v) in after <==> (d, v) in states || (d, v) == (doc, version))
      && ((d, v) == (doc, version) ==>
            if (d, v) in states && states[(d, v)].state == Ready && states[(d, v)].confirmed == states[(d, v)].expected
               && states[(d, v)].confirmed > 0 && states[(d, v)].hash == hash
               && states[(d, v)].model == "@cf/baai/bge-m3"
            then after[(d, v)] == states[(d, v)].(retired := false)
            else && after[(d, v)].state == Pending && !after[(d, v)].retired && after[(d, v)].hash == hash
                 && after[(d, v)].model == "@cf/baai/bge-m3"
                 && (after[(d, v)].titleOnly <==> (d, v) in states && states[(d, v)].titleOnly)
                 && after[(d, v)].expected == 0 && after[(d, v)].confirmed == 0)
      && ((d, v) != (doc, version) && (d, v) in states ==>
            if servable && d == doc && !states[(d, v)].retired
            then after[(d, v)] == states[(d, v)].(state := Failed, expected := 0, confirmed := 0, retired := true)
            else after[(d, v)] == states[(d, v)])
  {
  }

  // ----- the query face

  /** One vector match: its metadata when it parses, for this model. */
  datatype Candidate = Candidate(doc: string, version: string, score: real)
  datatype Match = Match(doc: string, version: string, score: real, hit: Hit)

  predicate IsHit(h: Hit) { h.BodyHit? || h.TitleHit? }

  function HitOf(view: View, env: Env, candidate: Option<Candidate>): Hit {
    match candidate
    case None => NoHit
    case Some(c) => ValidateHit(view, env, c.doc, c.version)
  }

  /** What each candidate's validation gives when its turn comes; `views(i)` are the stores it reads. */
  function Hits(views: nat -> View, env: Env, candidates: seq<Option<Candidate>>): (hits: seq<Hit>)
    ensures |hits| == |candidates|
    ensures forall i :: 0 <= i < |hits| ==> hits[i] == HitOf(views(i), env, candidates[i])
  {
    seq(|candidates|, i requires 0 <= i < |candidates| => HitOf(views(i), env, candidates[i]))
  }

  /** Candidate `i` is a hit of this document. */
  predicate HitsAt(candidates: seq<Option<Candidate>>, hits: seq<Hit>, i: nat, doc: string) {
    i < |candidates| && i < |hits| && candidates[i].Some? && candidates[i].value.doc == doc && IsHit(hits[i])
  }

  /** A corrupt object is met at candidate `i`. */
  predicate CorruptAt(candidates: seq<Option<Candidate>>, hits: seq<Hit>, i: nat) {
    i < |candidates| && i < |hits| && candidates[i].Some? && hits[i] == HitIntegrityFailed
  }

  /** `m` is candidate `i`, the first hit of its document. */
  ghost predicate FirstHitOf(candidates: seq<Option<Candidate>>, hits: seq<Hit>, i: nat, m: Match) {
    && HitsAt(candidates, hits, i, m.doc)
    && m.version == candidates[i].value.version && m.score == candidates[i].value.score && m.hit == hits[i]
    && forall k: nat :: k < i ==> !HitsAt(candidates, hits, k, m.doc)
  }

  /** A corrupt object does not fail the search when its document was found before. */
  ghost predicate PassedOver(candidates: seq<Option<Candidate>>, hits: seq<Hit>, k: nat) {
    CorruptAt(candidates, hits, k) ==>
      exists j: nat :: j < k && HitsAt(candidates, hits, j, candidates[k].value.doc)
  }

  ghost predicate AllAgreeable(views: nat -> View, candidates: seq<Option<Candidate>>) {
    forall i :: 0 <= i < |candidates| && candidates[i].Some? ==> Agreeable(views(i).rows, candidates[i].value.doc)
  }

  /** The document was not expired for the index, and the read confirms the hit unless it has expired meanwhile. */
  ghost predicate Agrees(view: View, env: Env, doc: string, version: string, hit: Hit) {
    && doc !in view.index.expired
    && (Confirmed(view, env, doc, version, hit) <==> doc !in view.rows.expired)
  }

  lemma HitsAgree(views: nat -> View, env: Env, candidates: seq<Option<Candidate>>, i: nat)
    requires AllAgreeable(views, candidates)
    requires i < |candidates| && candidates[i].Some? && Hits(views, env, candidates)[i] != NoHit
    ensures Agrees(views(i), env, candidates[i].value.doc, candidates[i].value.version, Hits(views, env, candidates)[i])
  {
    HitAgreesIffNotExpiredMeanwhile(views(i), env, candidates[i].value.doc, candidates[i].value.version);
  }

  /** Match `k` is the first hit of its document and was found at candidate `at[k]`; they come in that order. */
  ghost predicate EachFirst(candidates: seq<Option<Candidate>>, hits: seq<Hit>, found: seq<Match>, at: seq<nat>) {
    && |at| == |found| && (forall j, k :: 0 <= j < k < |at| ==> at[j] < at[k])
    && forall k :: 0 <= k < |found| ==> FirstHitOf(candidates, hits, at[k], found[k])
  }

  ghost predicate Shown(found: seq<Match>, doc: string) {
    exists m :: m in found && m.doc == doc
  }

  /** What the loop has found among the first `n` candidates. */
  ghost predicate Progress(candidates: seq<Option<Candidate>>, hits: seq<Hit>, n: nat, found: seq<Match>,
                           at: seq<nat>) {
    && (forall j, k :: 0 <= j < k < |found| ==> found[j].doc != found[k].doc)
    && EachFirst(candidates, hits, found, at) && (forall k :: 0 <= k < |at| ==> at[k] < n)
    && (forall k: nat, doc :: k < n && HitsAt(candidates, hits, k, doc) ==> Shown(found, doc))
    && forall k: nat :: k < n ==> PassedOver(candidates, hits, k)
  }

  lemma ShownOneMore(found: seq<Match>, m: Match, doc: string)
    ensures Shown(found + [m], doc) <==> Shown(found, doc) || m.doc == doc
  {
    var more := found + [m];
    if x :| x in found && x.doc == doc {
      assert x in more;
    }
    assert m in more;
  }

  lemma FoundOneMore(candidates: seq<Option<Candidate>>, hits: seq<Hit>, n: nat, found: seq<Match>, at: seq<nat>,
                     m: Match)
    requires Progress(candidates, hits, n, found, at) && HitsAt(candidates, hits, n, m.doc) && !Shown(found, m.doc)
    requires m == Match(candidates[n].value.doc, candidates[n].value.version, candidates[n].value.score, hits[n])
    ensures Progress(candidates, hits, n + 1, found + [m], at + [n])
  {
    assert FirstHitOf(candidates, hits, n, m);
    forall k: nat, doc | k < n + 1 && HitsAt(candidates, hits, k, doc) ensures Shown(found + [m], doc) {
      ShownOneMore(found, m, doc);
    }
  }

  lemma FoundNoMore(candidates: seq<Option<Candidate>>, hits: seq<Hit>, n: nat, found: seq<Match>, at: seq<nat>)
    requires Progress(candidates, hits, n, found, at) && n < |candidates| == |hits|
    requires candidates[n].Some? && (IsHit(hits[n]) || hits[n] == HitIntegrityFailed)
             ==> Shown(found, candidates[n].value.doc)
    ensures Progress(candidates, hits, n + 1, found, at)
  {
    if CorruptAt(candidates, hits, n) {
      var m :| m in found && m.doc == candidates[n].value.doc;
      var i :| 0 <= i < |found| && found[i] == m;
      assert FirstHitOf(candidates, hits, at[i], found[i]);
    }
  }

  lemma CorruptFails(candidates: seq<Option<Candidate>>, hits: seq<Hit>, n: nat, found: seq<Match>, at: seq<nat>)
    requires Progress(candidates, hits, n, found, at) && CorruptAt(candidates, hits, n)
    requires !Shown(found, candidates[n].value.doc)
    ensures !PassedOver(candidates, hits, n)
  {
  }

  /** All hits among the first `n` candidates, or as many as the limit allows. */
  ghost predicate Finds(candidates: seq<Option<Candidate>>, hits: seq<Hit>, limit: nat, found: seq<Match>, n: nat,
                        at: seq<nat>) {
    && |found| <= limit && n <= |candidates| && Progress(candidates, hits, n, found, at)
    && (|found| < limit ==> n == |candidates|)
  }

  /** And every match agrees with the read, by the stores its validation read. */
  ghost predicate FindsAgreeing(views: nat -> View, env: Env, candidates: seq<Option<Candidate>>, limit: nat,
                                found: seq<Match>, n: nat, at: seq<nat>) {
    && Finds(candidates, Hits(views, env, candidates), limit, found, n, at)
    && forall k :: 0 <= k < |found| ==> Agrees(views(at[k]), env, found[k].doc, found[k].version, found[k].hit)
  }

  /** A corrupt object of a document not found before. */
  ghost predicate FailsAt(views: nat -> View, env: Env, candidates: seq<Option<Candidate>>, i: nat) {
    && CorruptAt(candidates, Hits(views, env, candidates), i)
    && !PassedOver(candidates, Hits(views, env, candidates), i)
    && Agrees(views(i), env, candidates[i].value.doc, candidates[i].value.version, HitIntegrityFailed)
  }

  lemma AllAgree(views: nat -> View, env: Env, candidates: seq<Option<Candidate>>, limit: nat, found: seq<Match>,
                 n: nat, at: seq<nat>)
    requires AllAgreeable(views, candidates) && Finds(candidates, Hits(views, env, candidates), limit, found, n, at)
    ensures FindsAgreeing(views, env, candidates, limit, found, n, at)
  {
    var hits := Hits(views, env, candidates);
    forall k | 0 <= k < |found| ensures Agrees(views(at[k]), env, found[k].doc, found[k].version, found[k].hit) {
      assert FirstHitOf(candidates, hits, at[k], found[k]);
      HitsAgree(views, env, candidates, at[k]);
    }
  }

  /**
   A search.  Each result is the first hit of its document, in the order of the candidates, and the read confirms it
   exactly unless the document was marked expired before its versions were read; no document comes twice, and below
   the limit no hit is missed.  `None`: a corrupt object of a document not found yet fails the whole search.
   */
  method Search(views: nat -> View, env: Env, candidates: seq<Option<Candidate>>, limit: nat)
    returns (matches: Option<seq<Match>>)
    requires limit >= 1 && AllAgreeable(views, candidates)
    ensures matches.Some? ==> exists n, at :: FindsAgreeing(views, env, candidates, limit, matches.value, n, at)
    ensures matches == None ==> exists i :: FailsAt(views, env, candidates, i)
  {
    ghost var n, at;
    matches, n, at := Scan(views, env, candidates, limit);
    match matches
    case Some(found) =>
      AllAgree(views, env, candidates, limit, found, n, at);
    case None =>
      HitsAgree(views, env, candidates, n);
      assert FailsAt(views, env, candidates, n);
  }

  /** The loop. */
  method Scan(views: nat -> View, env: Env, candidates: seq<Option<Candidate>>, limit: nat)
    returns (matches: Option<seq<Match>>, ghost n: nat, ghost at: seq<nat>)
    requires limit >= 1
    ensures var hits := Hits(views, env, candidates);
      match matches
      case Some(found) => Finds(candidates, hits, limit, found, n, at)
      case None => CorruptAt(candidates, hits, n) && !PassedOver(candidates, hits, n)
  {
    ghost var hits := Hits(views, env, candidates);
    var found: seq<Match> := [];
    var seen: set<string> := {};
    at := [];
    for i := 0 to |candidates|
      invariant |found| < limit && forall doc :: doc in seen <==> Shown(found, doc)
      invariant Progress(candidates, hits, i, found, at)
    {
      if candidates[i].Some? && candidates[i].value.doc !in seen {
        var c := candidates[i].value;
        var m := Match(c.doc, c.version, c.score, ValidateHit(views(i), env, c.doc, c.version));
        assert m.hit == hits[i];
        if m.hit == HitIntegrityFailed {
          CorruptFails(candidates, hits, i, found, at);
          return None, i, at;
        }
        if IsHit(m.hit) {
          FoundOneMore(candidates, hits, i, found, at, m);
          forall doc ensures doc in seen + {c.doc} <==> Shown(found + [m], doc) {
            ShownOneMore(found, m, doc);
          }
          seen, found, at := seen + {c.doc}, found + [m], at + [i];
          if |found| >= limit {
            return Some(found), i + 1, at;
          }
        } else {
          FoundNoMore(candidates, hits, i, found, at);
        }
      } else {
        FoundNoMore(candidates, hits, i, found, at);
      }
    }
    matches, n := Some(found), |candidates|;
  }
}
