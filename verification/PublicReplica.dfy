/**
 The PUBLIC document replica: which body a version can serve, and `getDocument`, the plain read
 every other face must agree with.
 */
module PublicReplica {
  import opened Options
  import opened Text
  import opened Sorting
  import opened Lexicographic

  type Bytes = seq<bv8>

  const TEXT_EXTRACTION_ROLE := "text_extraction"

  /** `Number(version_number)`: a finite number, or anything else. */
  datatype VersionNumber = Finite(value: real) | NotFinite

  datatype Attachment = Attachment(role: string, status: string, mediaType: string, hash: string)
  datatype Version = Version(
    versionId: Option<string>, number: VersionNumber, revisionKind: string, mediaType: string, hash: string)
  /** `title` is the normalized, bounded title; empty when there is none. */
  datatype Payload = Payload(documentId: string, title: string, version: Option<Version>, attachments: seq<Attachment>)
  datatype Row = Row(recordKey: string, payload: Payload)

  datatype IndexState = Pending | Ready | Failed
  datatype StateRow = StateRow(
    state: IndexState, retired: bool, model: string, titleOnly: bool, hash: Option<string>,
    expected: int, confirmed: int)

  /** PUBLIC document versions in table order, EXPIRED documents, R2 objects by content hash, index state. */
  datatype Store = Store(
    rows: seq<Row>, expired: set<string>, objects: map<string, Bytes>, states: map<(string, string), StateRow>)

  // ----- servability

  predicate IsHexSha256(s: string) {
    |s| == 64 && forall i :: 0 <= i < 64 ==> '0' <= s[i] <= '9' || 'a' <= s[i] <= 'f'
  }

  function WithoutParameters(mediaType: string, from: nat): string
    requires from <= |mediaType|
    decreases |mediaType| - from
  {
    if from == |mediaType| then mediaType
    else if mediaType[from] == ';' then TrimEnd(mediaType[..from])
    else WithoutParameters(mediaType, from + 1)
  }

  /** `mediaType` is in lower case. */
  predicate Readable(mediaType: string) {
    var bare := WithoutParameters(mediaType, 0);
    "text/" <= bare || bare in {"application/json", "application/xml", "application/xhtml+xml"}
  }

  datatype Body = Body(own: bool, hash: string)

  function ProjectionBody(attachments: seq<Attachment>): Option<Body> {
    if attachments == [] then None
    else
      var a := attachments[0];
      if a.role == TEXT_EXTRACTION_ROLE && a.status == "FETCHED" && Readable(a.mediaType) && IsHexSha256(a.hash)
      then Some(Body(false, a.hash))
      else ProjectionBody(attachments[1..])
  }

  function ServableBody(p: Payload): Option<Body> {
    if p.version == None || p.version.value.revisionKind == "WITHDRAWAL" then None
    else
      var v := p.version.value;
      if Readable(v.mediaType) && IsHexSha256(v.hash) then Some(Body(true, v.hash)) else ProjectionBody(p.attachments)
  }

  // ----- what is servable, from the stored fields

  /** The first semicolon is at `k`, or there is none and `k` is the length. */
  predicate FirstSemicolon(mediaType: string, k: int) {
    && 0 <= k <= |mediaType| && (k < |mediaType| ==> mediaType[k] == ';')
    && forall i :: 0 <= i < k ==> mediaType[i] != ';'
  }

  /** `bare` is the media type up to its first semicolon, without the blanks before it. */
  ghost predicate IsBare(mediaType: string, bare: string) {
    exists k :: FirstSemicolon(mediaType, k) && BareUpTo(mediaType, bare, k)
  }

  predicate BareUpTo(mediaType: string, bare: string, k: int)
    requires 0 <= k <= |mediaType|
  {
    if k == |mediaType| then bare == mediaType
    else
      && |bare| <= k && bare == mediaType[..|bare|] && (bare == "" || mediaType[|bare| - 1] != ' ')
      && forall i :: |bare| <= i < k ==> mediaType[i] == ' '
  }

  lemma {:induction false} BareIsFound(mediaType: string, from: nat)
    requires from <= |mediaType| && forall i :: 0 <= i < from ==> mediaType[i] != ';'
    ensures IsBare(mediaType, WithoutParameters(mediaType, from))
    decreases |mediaType| - from
  {
    if from == |mediaType| {
      assert FirstSemicolon(mediaType, from);
    } else if mediaType[from] == ';' {
      TrimEndMeaning(mediaType[..from]);
      var bare := TrimEnd(mediaType[..from]);
      assert forall i :: |bare| <= i < from ==> mediaType[i] == mediaType[..from][|bare|..][i - |bare|];
      assert FirstSemicolon(mediaType, from) && BareUpTo(mediaType, bare, from);
    } else {
      BareIsFound(mediaType, from + 1);
    }
  }

  ghost predicate IsReadableText(mediaType: string) {
    exists bare: string :: IsBare(mediaType, bare) &&
      ("text/" <= bare || bare == "application/json" || bare == "application/xml" || bare == "application/xhtml+xml")
  }

  lemma BareIsUnique(mediaType: string, a: string, b: string)
    requires IsBare(mediaType, a) && IsBare(mediaType, b)
    ensures a == b
  {
    var k :| FirstSemicolon(mediaType, k) && BareUpTo(mediaType, a, k);
    var n :| FirstSemicolon(mediaType, n) && BareUpTo(mediaType, b, n);
    assert k == n;
  }

  /** Text, JSON, XML and XHTML are readable, whatever parameters follow. */
  lemma ReadableMeaning(mediaType: string)
    ensures Readable(mediaType) <==> IsReadableText(mediaType)
  {
    BareIsFound(mediaType, 0);
    forall bare: string | IsBare(mediaType, bare) ensures bare == WithoutParameters(mediaType, 0) {
      BareIsUnique(mediaType, bare, WithoutParameters(mediaType, 0));
    }
  }

  predicate IsHex64(s: string) {
    |s| == 64 && forall i :: 0 <= i < |s| ==> s[i] in "0123456789abcdef"
  }

  ghost predicate Projects(a: Attachment) {
    a.role == "text_extraction" && a.status == "FETCHED" && IsReadableText(a.mediaType) && IsHex64(a.hash)
  }

  ghost predicate FirstProjection(attachments: seq<Attachment>, i: int) {
    0 <= i < |attachments| && Projects(attachments[i]) && forall k :: 0 <= k < i ==> !Projects(attachments[k])
  }

  /** The first attachment that projects a body has this hash. */
  ghost predicate ProjectsHash(attachments: seq<Attachment>, hash: string) {
    exists i :: FirstProjection(attachments, i) && attachments[i].hash == hash
  }

  lemma HexMeaning(s: string)
    ensures IsHexSha256(s) <==> IsHex64(s)
  {
    forall c: char ensures ('0' <= c <= '9' || 'a' <= c <= 'f') <==> c in "0123456789abcdef" {
    }
  }

  lemma OneMoreAttachment(attachments: seq<Attachment>, hash: string)
    requires attachments != []
    ensures ProjectsHash(attachments, hash)
      <==> if Projects(attachments[0]) then attachments[0].hash == hash else ProjectsHash(attachments[1..], hash)
  {
    var rest := attachments[1..];
    if Projects(attachments[0]) {
      assert FirstProjection(attachments, 0);
    } else {
      if i :| FirstProjection(rest, i) && rest[i].hash == hash {
        assert FirstProjection(attachments, i + 1);
      }
      if i :| FirstProjection(attachments, i) && attachments[i].hash == hash {
        assert FirstProjection(rest, i - 1);
      }
    }
  }

  lemma {:induction false} ProjectionMeaning(attachments: seq<Attachment>, hash: string)
    ensures ProjectionBody(attachments) == Some(Body(false, hash)) <==> ProjectsHash(attachments, hash)
    ensures ProjectionBody(attachments).Some? ==> !ProjectionBody(attachments).value.own
  {
    if attachments != [] {
      ReadableMeaning(attachments[0].mediaType);
      HexMeaning(attachments[0].hash);
      ProjectionMeaning(attachments[1..], hash);
      OneMoreAttachment(attachments, hash);
    }
  }

  ghost predicate HasOwnBody(p: Payload) {
    p.version.Some? && IsReadableText(p.version.value.mediaType) && IsHex64(p.version.value.hash)
  }

  /** The body of a version, from its fields alone. */
  ghost predicate IsBodyOf(p: Payload, body: Body) {
    && p.version.Some? && p.version.value.revisionKind != "WITHDRAWAL"
    && (body.own <==> HasOwnBody(p))
    && (if body.own then body.hash == p.version.value.hash else ProjectsHash(p.attachments, body.hash))
  }

  /**
   A withdrawal has no body.  Any other version has its own when its media type is readable and its hash well
   formed, and otherwise that of its first fetched, readable, well formed text extraction, if there is one.
   */
  lemma ServableBodyMeaning(p: Payload, body: Body)
    ensures ServableBody(p) == Some(body) <==> IsBodyOf(p, body)
  {
    ProjectionMeaning(p.attachments, body.hash);
    if p.version.Some? {
      ReadableMeaning(p.version.value.mediaType);
      HexMeaning(p.version.value.hash);
    }
  }

  // ----- the read

  function RowsOf(rows: seq<Row>, doc: string): seq<Row> {
    if rows == [] then []
    else (if rows[0].payload.documentId == doc then [rows[0]] else []) + RowsOf(rows[1..], doc)
  }

  lemma {:induction false} RowsOfMembers(rows: seq<Row>, doc: string)
    ensures forall r :: r in RowsOf(rows, doc) <==> r in rows && r.payload.documentId == doc
  {
    if rows != [] {
      RowsOfMembers(rows[1..], doc);
      assert rows == [rows[0]] + rows[1..];
    }
  }

  function NumberOf(r: Row): VersionNumber {
    if r.payload.version.Some? then r.payload.version.value.number else NotFinite
  }

  /**
   The comparator of `getDocument`: version number descending, then record key.  Two numbers that are
   not finite subtract to NaN, which `sort` takes for equal: such rows keep their table order.
   */
  predicate ReadLeq(a: Row, b: Row) {
    match (NumberOf(a), NumberOf(b))
    case (Finite(x), Finite(y)) => x > y || (x == y && LexLeq(a.recordKey, b.recordKey))
    case (NotFinite, Finite(_)) => false
    case (_, NotFinite) => true
  }

  lemma ReadOrder()
    ensures Total(ReadLeq) && Transitive(ReadLeq)
  {
    forall a, b ensures ReadLeq(a, b) || ReadLeq(b, a) { LexTotal(a.recordKey, b.recordKey); }
    forall a, b, c | ReadLeq(a, b) && ReadLeq(b, c) ensures ReadLeq(a, c) {
      if LexLeq(a.recordKey, b.recordKey) && LexLeq(b.recordKey, c.recordKey) {
        LexTransitive(a.recordKey, b.recordKey, c.recordKey);
      }
    }
  }

  datatype ReadResult =
    | Served(row: Row, body: Body, bytes: Bytes)
    | NotFound
    | IntegrityFailed
    | ObjectMissing
    | Unsupported

  function ServeFirst(store: Store, sha: Bytes -> string, sorted: seq<Row>, sawServable: bool): ReadResult {
    if sorted == [] then if sawServable then ObjectMissing else Unsupported
    else
      match ServableBody(sorted[0].payload)
      case None => ServeFirst(store, sha, sorted[1..], sawServable)
      case Some(body) =>
        if body.hash !in store.objects then ServeFirst(store, sha, sorted[1..], true)
        else if sha(store.objects[body.hash]) != body.hash then IntegrityFailed
        else Served(sorted[0], body, store.objects[body.hash])
  }

  function ReadDocument(store: Store, sha: Bytes -> string, doc: string): ReadResult {
    var rows := if doc in store.expired then [] else RowsOf(store.rows, doc);
    if rows == [] then NotFound
    else if exists r :: r in rows && r.payload.version == None then IntegrityFailed
    else ServeFirst(store, sha, Sort(rows, ReadLeq), false)
  }

  /** The same walk when the bucket may change between two reads: `objectsAt(n)` is what read `n` finds. */
  function ServeFirstAt(objectsAt: nat -> map<string, Bytes>, n: nat, sha: Bytes -> string, sorted: seq<Row>,
                        sawServable: bool): ReadResult
    decreases |sorted|
  {
    if sorted == [] then if sawServable then ObjectMissing else Unsupported
    else
      match ServableBody(sorted[0].payload)
      case None => ServeFirstAt(objectsAt, n, sha, sorted[1..], sawServable)
      case Some(body) =>
        if body.hash !in objectsAt(n) then ServeFirstAt(objectsAt, n + 1, sha, sorted[1..], true)
        else if sha(objectsAt(n)[body.hash]) != body.hash then IntegrityFailed
        else Served(sorted[0], body, objectsAt(n)[body.hash])
  }

  /** `getDocument` with its rows read from `store` and its objects afterwards. */
  function ReadAt(store: Store, objectsAt: nat -> map<string, Bytes>, sha: Bytes -> string, doc: string): ReadResult {
    var rows := if doc in store.expired then [] else RowsOf(store.rows, doc);
    if rows == [] then NotFound
    else if exists r :: r in rows && r.payload.version == None then IntegrityFailed
    else ServeFirstAt(objectsAt, 0, sha, Sort(rows, ReadLeq), false)
  }

  /** Nothing changes meanwhile: the plain read of one store. */
  lemma SteadyRead(store: Store, objectsAt: nat -> map<string, Bytes>, sha: Bytes -> string, doc: string)
    requires forall n :: objectsAt(n) == store.objects
    ensures ReadAt(store, objectsAt, sha, doc) == ReadDocument(store, sha, doc)
  {
    SteadyWalk(store, objectsAt, 0, sha, Sort(RowsOf(store.rows, doc), ReadLeq), false);
  }

  lemma {:induction false} SteadyWalk(store: Store, objectsAt: nat -> map<string, Bytes>, n: nat, sha: Bytes -> string,
                                      sorted: seq<Row>, saw: bool)
    requires forall k :: objectsAt(k) == store.objects
    ensures ServeFirstAt(objectsAt, n, sha, sorted, saw) == ServeFirst(store, sha, sorted, saw)
    decreases |sorted|
  {
    if sorted != [] {
      SteadyWalk(store, objectsAt, n, sha, sorted[1..], saw);
      SteadyWalk(store, objectsAt, n + 1, sha, sorted[1..], true);
    }
  }

  method GetDocument(store: Store, objectsAt: nat -> map<string, Bytes>, sha: Bytes -> string, doc: string)
    returns (result: ReadResult)
    ensures result == ReadAt(store, objectsAt, sha, doc)
    ensures (forall n :: objectsAt(n) == store.objects) ==> result == ReadDocument(store, sha, doc)
  {
    if forall n :: objectsAt(n) == store.objects {
      SteadyRead(store, objectsAt, sha, doc);
    }
    var rows := if doc in store.expired then [] else RowsOf(store.rows, doc);
    if rows == [] {
      return NotFound;
    }
    if exists r :: r in rows && r.payload.version == None {
      return IntegrityFailed;
    }
    result := Walk(Sort(rows, ReadLeq), objectsAt, sha);
  }

  method Walk(candidates: seq<Row>, objectsAt: nat -> map<string, Bytes>, sha: Bytes -> string)
    returns (result: ReadResult)
    ensures result == ServeFirstAt(objectsAt, 0, sha, candidates, false)
  {
    var sawServable, n := false, 0;
    for i := 0 to |candidates|
      invariant ServeFirstAt(objectsAt, 0, sha, candidates, false)
        == ServeFirstAt(objectsAt, n, sha, candidates[i..], sawServable)
    {
      assert candidates[i..][0] == candidates[i] && candidates[i..][1..] == candidates[i + 1..];
      var body := ServableBody(candidates[i].payload);
      if body.Some? {
        sawServable := true;
        var objects := objectsAt(n);
        n := n + 1;
        if body.value.hash in objects {
          var bytes := objects[body.value.hash];
          if sha(bytes) != body.value.hash {
            return IntegrityFailed;
          }
          return Served(candidates[i], body.value, bytes);
        }
      }
    }
    result := if sawServable then ObjectMissing else Unsupported;
  }

  // ----- what is served

  /** Rows as the replica stores them: key = version id, keys unique, finite version numbers. */
  ghost predicate WellFormed(store: Store, doc: string) {
    && (forall i, j :: 0 <= i < j < |store.rows| ==> store.rows[i].recordKey != store.rows[j].recordKey)
    && forall r :: r in store.rows && r.payload.documentId == doc ==>
         r.payload.version.Some? && r.payload.version.value.versionId == Some(r.recordKey) && NumberOf(r).Finite?
  }

  predicate Available(store: Store, r: Row) {
    ServableBody(r.payload).Some? && ServableBody(r.payload).value.hash in store.objects
  }

  lemma HeadIsBest(sorted: seq<Row>)
    requires sorted != [] && SortedBy(sorted, ReadLeq)
    ensures forall r :: r in sorted ==> r == sorted[0] || ReadLeq(sorted[0], r)
  {
    forall r | r in sorted ensures r == sorted[0] || ReadLeq(sorted[0], r) {
      var i :| 0 <= i < |sorted| && sorted[i] == r;
    }
  }

  lemma {:induction false} ServeFirstMeaning(store: Store, sha: Bytes -> string, sorted: seq<Row>, saw: bool)
    requires SortedBy(sorted, ReadLeq)
    ensures match ServeFirst(store, sha, sorted, saw)
            case Served(row, body, bytes) =>
              && row in sorted && ServableBody(row.payload) == Some(body)
              && body.hash in store.objects && store.objects[body.hash] == bytes && sha(bytes) == body.hash
              && forall r :: r in sorted && Available(store, r) ==> r == row || ReadLeq(row, r)
            case IntegrityFailed => exists r :: r in sorted && Available(store, r)
            case ObjectMissing =>
              (forall r :: r in sorted ==> !Available(store, r))
              && (saw || exists r :: r in sorted && ServableBody(r.payload).Some?)
            case Unsupported => !saw && forall r :: r in sorted ==> ServableBody(r.payload) == None
            case NotFound => false
  {
    if sorted != [] {
      assert sorted == [sorted[0]] + sorted[1..];
      assert sorted[0] in sorted;
      ServeFirstMeaning(store, sha, sorted[1..], saw || ServableBody(sorted[0].payload).Some?);
      HeadIsBest(sorted);
    }
  }

  lemma ServedIsStored(store: Store, sha: Bytes -> string, doc: string)
    requires ReadDocument(store, sha, doc).Served?
    ensures var read := ReadDocument(store, sha, doc);
            && read.row in store.rows && read.row.payload.documentId == doc && doc !in store.expired
            && ServableBody(read.row.payload) == Some(read.body)
            && read.body.hash in store.objects && store.objects[read.body.hash] == read.bytes
            && sha(read.bytes) == read.body.hash
  {
    var rows := RowsOf(store.rows, doc);
    RowsOfMembers(store.rows, doc);
    ReadOrder();
    SortSorts(rows, ReadLeq);
    SortPermutes(rows, ReadLeq);
    ServeFirstMeaning(store, sha, Sort(rows, ReadLeq), false);
  }

  ghost predicate HasBody(r: Row) {
    exists body :: IsBodyOf(r.payload, body)
  }

  lemma BodyIffServable(r: Row)
    ensures HasBody(r) <==> ServableBody(r.payload).Some?
  {
    if ServableBody(r.payload).Some? {
      ServableBodyMeaning(r.payload, ServableBody(r.payload).value);
    }
    if body :| IsBodyOf(r.payload, body) {
      ServableBodyMeaning(r.payload, body);
    }
  }

  /** Why a document is not served. */
  lemma ReadFailureMeaning(store: Store, sha: Bytes -> string, doc: string)
    requires forall r :: r in store.rows && r.payload.documentId == doc ==> r.payload.version.Some?
    ensures var read := ReadDocument(store, sha, doc);
      && (read == NotFound <==> doc in store.expired || forall r :: r in store.rows ==> r.payload.documentId != doc)
      && (read == Unsupported ==> forall r :: r in store.rows && r.payload.documentId == doc ==> !HasBody(r))
      && (read == ObjectMissing ==>
            && (exists r :: r in store.rows && r.payload.documentId == doc && HasBody(r))
            && forall r :: r in store.rows && r.payload.documentId == doc ==> !Available(store, r))
      && (read == IntegrityFailed ==> exists r :: r in store.rows && r.payload.documentId == doc && Available(store, r))
  {
    var rows := RowsOf(store.rows, doc);
    RowsOfMembers(store.rows, doc);
    ReadOrder();
    SortSorts(rows, ReadLeq);
    SortPermutes(rows, ReadLeq);
    ServeFirstMeaning(store, sha, Sort(rows, ReadLeq), false);
    forall r ensures HasBody(r) <==> ServableBody(r.payload).Some? {
      BodyIffServable(r);
    }
    if rows != [] {
      assert rows[0] in rows;
    }
  }

  /** A row without a version record fails the read of its document. */
  lemma BrokenRowFails(store: Store, sha: Bytes -> string, doc: string, r: Row)
    requires doc !in store.expired && r in store.rows && r.payload.documentId == doc && r.payload.version == None
    ensures ReadDocument(store, sha, doc) == IntegrityFailed
  {
    RowsOfMembers(store.rows, doc);
  }

  /** Whatever the bucket does meanwhile, the version served is no withdrawal, and its fields name its body. */
  lemma ServedBodyMeaning(store: Store, objectsAt: nat -> map<string, Bytes>, sha: Bytes -> string, doc: string)
    requires ReadAt(store, objectsAt, sha, doc).Served?
    ensures var read := ReadAt(store, objectsAt, sha, doc);
      && read.row in store.rows && read.row.payload.documentId == doc && doc !in store.expired
      && IsBodyOf(read.row.payload, read.body) && sha(read.bytes) == read.body.hash
      && exists n :: read.body.hash in objectsAt(n) && objectsAt(n)[read.body.hash] == read.bytes
  {
    RowsOfMembers(store.rows, doc);
    SortPermutes(RowsOf(store.rows, doc), ReadLeq);
    ServedAtMeaning(objectsAt, 0, sha, Sort(RowsOf(store.rows, doc), ReadLeq), false);
  }

  lemma {:induction false} ServedAtMeaning(objectsAt: nat -> map<string, Bytes>, n: nat, sha: Bytes -> string,
                                           sorted: seq<Row>, saw: bool)
    requires ServeFirstAt(objectsAt, n, sha, sorted, saw).Served?
    ensures var read := ServeFirstAt(objectsAt, n, sha, sorted, saw);
      && read.row in sorted && IsBodyOf(read.row.payload, read.body) && sha(read.bytes) == read.body.hash
      && exists k :: read.body.hash in objectsAt(k) && objectsAt(k)[read.body.hash] == read.bytes
    decreases |sorted|
  {
    match ServableBody(sorted[0].payload)
    case None => ServedAtMeaning(objectsAt, n, sha, sorted[1..], saw);
    case Some(body) =>
      ServableBodyMeaning(sorted[0].payload, body);
      if body.hash !in objectsAt(n) {
        ServedAtMeaning(objectsAt, n + 1, sha, sorted[1..], true);
      }
  }

  /** The version served has the highest number of those whose object is present, and of equals the least key. */
  lemma ServedIsHighest(store: Store, sha: Bytes -> string, doc: string, other: Row)
    requires WellFormed(store, doc) && ReadDocument(store, sha, doc).Served?
    requires other in store.rows && other.payload.documentId == doc && Available(store, other)
    ensures var row := ReadDocument(store, sha, doc).row;
      && row.payload.version.Some? && row.payload.version.value.number.Finite?
      && other.payload.version.Some? && other.payload.version.value.number.Finite?
      && other.payload.version.value.number.value <= row.payload.version.value.number.value
      && (other.payload.version.value.number.value == row.payload.version.value.number.value ==>
            row.recordKey <= other.recordKey || exists i :: FirstBelow(row.recordKey, other.recordKey, i))
  {
    ServedIsStored(store, sha, doc);
    var read := ReadDocument(store, sha, doc);
    assert ReadDocument(store, sha, doc) == Served(read.row, read.body, read.bytes);
    ServedIffBestAvailable(store, sha, doc, read.row);
    LexLeqMeaning(read.row.recordKey, other.recordKey);
  }

  lemma KeysTell(store: Store, doc: string, a: Row, b: Row)
    requires WellFormed(store, doc) && a in store.rows && b in store.rows
    requires a.payload.documentId == b.payload.documentId == doc && ReadLeq(a, b) && ReadLeq(b, a)
    ensures a == b
  {
    LexAntisymmetric(a.recordKey, b.recordKey);
    var i :| 0 <= i < |store.rows| && store.rows[i] == a;
    var j :| 0 <= j < |store.rows| && store.rows[j] == b;
  }

  /**
   Exactly one version is served: the best in version order among those whose object is present,
   and only when that object has the bytes its hash promises.
   */
  lemma ServedIffBestAvailable(store: Store, sha: Bytes -> string, doc: string, row: Row)
    requires WellFormed(store, doc)
    ensures (exists body, bytes :: ReadDocument(store, sha, doc) == Served(row, body, bytes))
            <==> && doc !in store.expired && row in store.rows && row.payload.documentId == doc
                 && Available(store, row)
                 && sha(store.objects[ServableBody(row.payload).value.hash]) == ServableBody(row.payload).value.hash
                 && forall r :: r in store.rows && r.payload.documentId == doc && Available(store, r)
                      ==> ReadLeq(row, r)
  {
    var rows := RowsOf(store.rows, doc);
    RowsOfMembers(store.rows, doc);
    ReadOrder();
    SortSorts(rows, ReadLeq);
    SortPermutes(rows, ReadLeq);
    var sorted := Sort(rows, ReadLeq);
    ServeFirstMeaning(store, sha, sorted, false);
    assert ReadLeq(row, row);
    if doc !in store.expired && row in rows && Available(store, row)
       && forall r :: r in rows && Available(store, r) ==> ReadLeq(row, r) {
      BestIsServed(store, sha, sorted, false, doc, row);
    }
  }

  lemma {:induction false} BestIsServed(store: Store, sha: Bytes -> string, sorted: seq<Row>, saw: bool, doc: string,
                                        row: Row)
    requires WellFormed(store, doc) && SortedBy(sorted, ReadLeq)
    requires forall r :: r in sorted ==> r in store.rows && r.payload.documentId == doc
    requires row in sorted && Available(store, row)
    requires forall r :: r in sorted && Available(store, r) ==> ReadLeq(row, r)
    ensures var body := ServableBody(row.payload).value; var bytes := store.objects[body.hash];
            ServeFirst(store, sha, sorted, saw)
            == if sha(bytes) == body.hash then Served(row, body, bytes) else IntegrityFailed
  {
    var first := sorted[0];
    assert sorted == [first] + sorted[1..];
    if Available(store, first) {
      if first != row {
        var i :| 0 <= i < |sorted| && sorted[i] == row;
        assert ReadLeq(first, row);
        KeysTell(store, doc, first, row);
      }
    } else {
      BestIsServed(store, sha, sorted[1..], saw || ServableBody(first.payload).Some?, doc, row);
    }
  }
}
