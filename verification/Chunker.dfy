/**
 Splitting normalized text into overlapping chunks for embedding.  The boundary scanner is any
 ascending list of positions; what is proved holds for every such list.
 */
module Chunker {
  import opened Text

  const CHUNK_CHARS := 1200
  const OVERLAP_CHARS := 150
  const MAX_CHUNKS := 32
  const MAX_SEGMENT := CHUNK_CHARS - OVERLAP_CHARS

  function Join(parts: seq<string>): string {
    if parts == [] then "" else Join(parts[..|parts| - 1]) + parts[|parts| - 1]
  }

  lemma JoinSnoc(parts: seq<string>, part: string)
    ensures Join(parts + [part]) == Join(parts) + part
  {
    assert (parts + [part])[..|parts|] == parts;
  }

  lemma JoinPrefix(parts: seq<string>, k: nat)
    requires k < |parts|
    ensures Join(parts[..k + 1]) == Join(parts[..k]) + parts[k]
  {
    assert parts[..k + 1][..k] == parts[..k];
  }

  ghost predicate Sized(parts: seq<string>, max: nat) {
    forall i :: 0 <= i < |parts| ==> 1 <= |parts[i]| <= max
  }

  ghost predicate Ascending(ends: seq<nat>, length: nat) {
    && (forall i :: 0 <= i < |ends| ==> 0 < ends[i] <= length)
    && (forall i, j :: 0 <= i < j < |ends| ==> ends[i] < ends[j])
  }

  // ----- segments

  /** Where the `n`-th cut at a boundary begins. */
  function From(ends: seq<nat>, n: nat): nat
    requires n <= |ends|
  {
    if n == 0 then 0 else ends[n - 1]
  }

  /** Boundary `i` is near enough to the one before it. */
  predicate NearBy(ends: seq<nat>, i: nat, max: nat)
    requires i < |ends|
  {
    ends[i] <= From(ends, i) + max
  }

  /** The first `n` boundaries are near, and the next, if there is one, is not. */
  ghost predicate Near(ends: seq<nat>, n: nat, max: nat) {
    n <= |ends| && (forall i :: 0 <= i < n ==> NearBy(ends, i, max)) && (n < |ends| ==> !NearBy(ends, n, max))
  }

  /** The text between boundary `i` and the one before it. */
  ghost predicate PieceAt(part: string, text: string, ends: seq<nat>, i: nat) {
    i < |ends| && From(ends, i) < ends[i] <= |text| && part == text[From(ends, i)..ends[i]]
  }

  /** The first `n` parts are the text between the first `n` boundaries. */
  ghost predicate CutAt(parts: seq<string>, text: string, ends: seq<nat>, n: nat) {
    n <= |parts| && n <= |ends| && forall i :: 0 <= i < n ==> PieceAt(parts[i], text, ends, i)
  }

  /** No cut but at the first near boundaries and after full pieces. */
  ghost predicate Segmented(parts: seq<string>, text: string, ends: seq<nat>, max: nat) {
    && Join(parts) == text && Sized(parts, max)
    && exists n: nat :: Near(ends, n, max) && CutAt(parts, text, ends, n) && FullFrom(parts, n, max)
  }

  /** From part `n` on only the last may be shorter than the bound. */
  ghost predicate FullFrom(parts: seq<string>, n: nat, max: nat) {
    forall i :: n <= i < |parts| - 1 ==> |parts[i]| == max
  }

  /**
   Cut behind each boundary that is near enough to the previous cut; the rest is the last segment.  Boundaries
   ascend, so behind the first one that is too far nothing is cut any more.
   */
  method CutAtBoundaries(text: string, ends: seq<nat>, maxSegment: nat) returns (segments: seq<string>, ghost n: nat)
    requires Ascending(ends, |text|)
    ensures Join(segments) == text
    ensures Near(ends, n, maxSegment) && CutAt(segments, text, ends, n)
    ensures segments[n..] == if From(ends, n) < |text| then [text[From(ends, n)..]] else []
  {
    segments, n := [], 0;
    var start: nat := 0;
    for k := 0 to |ends|
      invariant n <= k && start == From(ends, n) && CutTo(segments, text, ends, n, maxSegment)
      invariant n < k ==> ends[n] > start + maxSegment
    {
      var end := ends[k];
      if end - start <= maxSegment {
        assert n == k;
        OneMoreCut(segments, text, ends, n, maxSegment);
        segments := segments + [text[start..end]];
        start, n := end, n + 1;
      }
    }
    if start < |text| {
      LastCut(segments, text, start);
      segments := segments + [text[start..]];
    }
    assert text[..|text|] == text;
  }

  /** The text up to the `n`-th boundary is cut. */
  ghost predicate CutTo(segments: seq<string>, text: string, ends: seq<nat>, n: nat, max: nat) {
    && |segments| == n && CutAt(segments, text, ends, n) && From(ends, n) <= |text|
    && Join(segments) == text[..From(ends, n)]
    && forall i :: 0 <= i < n ==> NearBy(ends, i, max)
  }

  lemma OneMoreCut(segments: seq<string>, text: string, ends: seq<nat>, n: nat, max: nat)
    requires Ascending(ends, |text|) && CutTo(segments, text, ends, n, max)
    requires n < |ends| && NearBy(ends, n, max)
    ensures From(ends, n) < ends[n] && CutTo(segments + [text[From(ends, n)..ends[n]]], text, ends, n + 1, max)
  {
    var start, end := From(ends, n), ends[n];
    assert start < end;
    JoinSnoc(segments, text[start..end]);
    assert text[..end] == text[..start] + text[start..end];
    assert From(ends, n + 1) == end;
  }

  lemma LastCut(segments: seq<string>, text: string, start: nat)
    requires start <= |text| && Join(segments) == text[..start]
    ensures Join(segments + [text[start..]]) == text
  {
    JoinSnoc(segments, text[start..]);
    assert text == text[..start] + text[start..];
  }

  /** `bounded` is `before` with full pieces of `segment`; `value` is what is left of it. */
  ghost predicate Cutting(before: seq<string>, bounded: seq<string>, segment: string, value: string, max: nat) {
    && Join(bounded) + value == Join(before) + segment && Sized(bounded, max) && before <= bounded
    && (forall i :: |before| <= i < |bounded| ==> |bounded[i]| == max)
    && (|segment| <= max ==> bounded == before && value == segment)
  }

  lemma CutOne(before: seq<string>, bounded: seq<string>, segment: string, value: string, max: nat)
    requires Cutting(before, bounded, segment, value, max) && 0 < max < |value|
    ensures Cutting(before, bounded + [value[..max]], segment, value[max..], max)
  {
    JoinSnoc(bounded, value[..max]);
    Associate(Join(bounded), value[..max], value[max..]);
    assert value == value[..max] + value[max..];
  }

  lemma CutLast(before: seq<string>, bounded: seq<string>, segment: string, value: string, max: nat)
    requires Cutting(before, bounded, segment, value, max) && 0 < |value| <= max
    ensures Join(bounded + [value]) == Join(before) + segment && Sized(bounded + [value], max)
    ensures before <= bounded + [value] && FullFrom(bounded + [value], |before|, max)
    ensures |segment| <= max ==> bounded + [value] == before + [segment]
  {
    JoinSnoc(bounded, value);
  }

  /** Cut one segment into pieces of the bound and append them; only the last piece may be shorter. */
  method CutSegment(before: seq<string>, segment: string, maxSegment: nat) returns (bounded: seq<string>)
    requires Sized(before, maxSegment) && maxSegment > 0
    ensures Join(bounded) == Join(before) + segment && Sized(bounded, maxSegment)
    ensures before <= bounded && FullFrom(bounded, |before|, maxSegment)
    ensures 0 < |segment| <= maxSegment ==> bounded == before + [segment]
  {
    bounded := before;
    var value := segment;
    while |value| > maxSegment
      invariant Cutting(before, bounded, segment, value, maxSegment)
    {
      CutOne(before, bounded, segment, value, maxSegment);
      bounded, value := bounded + [value[..maxSegment]], value[maxSegment..];
    }
    if value != "" {
      CutLast(before, bounded, segment, value, maxSegment);
      bounded := bounded + [value];
    }
  }

  method SegmentText(text: string, ends: seq<nat>, maxSegment: nat) returns (bounded: seq<string>)
    requires Ascending(ends, |text|) && maxSegment > 0
    ensures Segmented(bounded, text, ends, maxSegment)
  {
    var segments, n := CutAtBoundaries(text, ends, maxSegment);
    FirstPiecesFit(segments, text, ends, n, maxSegment);
    bounded := [];
    for k := 0 to |segments|
      invariant Bounded(bounded, segments, n, k, maxSegment)
    {
      ghost var before := bounded;
      bounded := CutSegment(bounded, segments[k], maxSegment);
      OneMoreBounded(before, bounded, segments, n, k, maxSegment);
    }
    SegmentsMeaning(bounded, segments, text, ends, n, maxSegment);
  }

  /** The first `k` segments are cut; at most one segment follows the first `n`, and those stay whole. */
  ghost predicate Bounded(bounded: seq<string>, segments: seq<string>, n: nat, k: nat, max: nat) {
    && k <= |segments| <= n + 1 && n <= |segments| && Join(bounded) == Join(segments[..k]) && Sized(bounded, max)
    && if k <= n then bounded == segments[..k] else segments[..n] <= bounded && FullFrom(bounded, n, max)
  }

  lemma OneMoreBounded(before: seq<string>, after: seq<string>, segments: seq<string>, n: nat, k: nat, max: nat)
    requires Bounded(before, segments, n, k, max) && k < |segments|
    requires Join(after) == Join(before) + segments[k] && Sized(after, max) && before <= after
    requires FullFrom(after, |before|, max)
    requires k < n ==> after == before + [segments[k]]
    ensures Bounded(after, segments, n, k + 1, max)
  {
    JoinPrefix(segments, k);
  }

  lemma FirstPiecesFit(segments: seq<string>, text: string, ends: seq<nat>, n: nat, max: nat)
    requires Near(ends, n, max) && CutAt(segments, text, ends, n)
    requires segments[n..] == if From(ends, n) < |text| then [text[From(ends, n)..]] else []
    ensures |segments| <= n + 1 && forall i :: 0 <= i < n ==> 0 < |segments[i]| <= max
  {
    assert |segments| == n + |segments[n..]|;
    forall i | 0 <= i < n ensures 0 < |segments[i]| <= max {
      assert PieceAt(segments[i], text, ends, i) && NearBy(ends, i, max);
    }
  }

  lemma SegmentsMeaning(bounded: seq<string>, segments: seq<string>, text: string, ends: seq<nat>, n: nat, max: nat)
    requires Near(ends, n, max) && CutAt(segments, text, ends, n) && Join(segments) == text
    requires Bounded(bounded, segments, n, |segments|, max)
    ensures Segmented(bounded, text, ends, max)
  {
    assert segments[..|segments|] == segments;
    forall i | 0 <= i < n ensures bounded[i] == segments[i] {
      assert segments[..n][i] == segments[i];
    }
    assert CutAt(bounded, text, ends, n);
  }

  // ----- chunks

  /** `text.indexOf("\n", from)`; `|text|` when there is none. */
  function NextLine(text: string, from: nat): (r: nat)
    requires from <= |text|
    ensures from <= r <= |text| && (r < |text| ==> text[r] == '\n')
    ensures forall i :: from <= i < r ==> text[i] != '\n'
    decreases |text| - from
  {
    if from == |text| || text[from] == '\n' then from else NextLine(text, from + 1)
  }

  function OverlapTail(text: string): (tail: string)
    ensures |tail| <= OVERLAP_CHARS && |tail| <= |text| && tail == text[|text| - |tail|..]
    ensures |tail| >= OVERLAP_CHARS / 2 - 1 || tail == text
  {
    if |text| <= OVERLAP_CHARS then text
    else
      var tailStart := |text| - OVERLAP_CHARS;
      var boundary := NextLine(text, tailStart);
      if boundary < |text| && boundary - tailStart <= OVERLAP_CHARS / 2 then text[boundary + 1..]
      else text[tailStart..]
  }

  /**
   Of a longer text the overlap is its last 150 characters, or what follows the first line break in
   them when that is among the first 76.
   */
  lemma TailMeaning(text: string)
    requires |text| > 150
    ensures var tail, from := OverlapTail(text), |text| - 150;
      && (|tail| == 150 <==> forall i :: from <= i <= from + 75 ==> text[i] != '\n')
      && (|tail| < 150 ==> text[|text| - |tail| - 1] == '\n')
      && (|tail| < 150 ==> forall i :: from <= i < |text| - |tail| - 1 ==> text[i] != '\n')
  {
    var from := |text| - 150;
    var boundary := NextLine(text, from);
    assert boundary < |text| ==> text[boundary] == '\n';
  }

  function Last(chunks: seq<string>): string
    requires chunks != []
  {
    chunks[|chunks| - 1]
  }

  /** `chunk` begins with the overlap tail of the last of `chunks` and adds something to it. */
  ghost predicate LinkedTo(chunks: seq<string>, chunk: string) {
    chunks == [] || OverlapTail(Last(chunks)) < chunk
  }

  ghost predicate Linked(chunks: seq<string>) {
    chunks == [] || (Linked(chunks[..|chunks| - 1]) && LinkedTo(chunks[..|chunks| - 1], Last(chunks)))
  }

  /** The new text of `chunk` behind `chunks`: what follows the copied overlap. */
  function Fresh(chunks: seq<string>, chunk: string): string {
    if chunks == [] then chunk
    else
      var overlap := |OverlapTail(Last(chunks))|;
      if overlap <= |chunk| then chunk[overlap..] else ""
  }

  function Rebuild(chunks: seq<string>): string {
    if chunks == [] then ""
    else Rebuild(chunks[..|chunks| - 1]) + Fresh(chunks[..|chunks| - 1], Last(chunks))
  }

  // ----- which segments a chunk holds

  function Flat(groups: seq<seq<string>>): seq<string> {
    if groups == [] then [] else Flat(groups[..|groups| - 1]) + groups[|groups| - 1]
  }

  /**
   `chunk` is the overlap of the chunk before it and the segments of `group`; the first of them did not fit
   into the chunk before.
   */
  ghost predicate IsNext(chunks: seq<string>, chunk: string, group: seq<string>) {
    && group != []
    && if chunks == [] then chunk == Join(group)
       else chunk == OverlapTail(Last(chunks)) + Join(group) && |Last(chunks)| + |group[0]| > 1200
  }

  /** The chunks hold these groups of segments, each as many as fit. */
  ghost predicate Assembled(chunks: seq<string>, groups: seq<seq<string>>)
    decreases |chunks|
  {
    |chunks| == |groups| &&
    (chunks != [] ==>
       var n := |chunks| - 1;
       Assembled(chunks[..n], groups[..n]) && IsNext(chunks[..n], chunks[n], groups[n]))
  }

  lemma AssembleOne(chunks: seq<string>, groups: seq<seq<string>>, chunk: string, group: seq<string>)
    requires Assembled(chunks, groups) && IsNext(chunks, chunk, group)
    ensures Assembled(chunks + [chunk], groups + [group]) && Flat(groups + [group]) == Flat(groups) + group
  {
    assert (chunks + [chunk])[..|chunks|] == chunks && (groups + [group])[..|groups|] == groups;
  }

  lemma Extend(chunks: seq<string>, chunk: string, group: seq<string>, segment: string)
    requires if group == [] then chunk == "" && chunks == [] else IsNext(chunks, chunk, group)
    ensures IsNext(chunks, chunk + segment, group + [segment])
  {
    JoinSnoc(group, segment);
    if chunks != [] {
      Associate(OverlapTail(Last(chunks)), Join(group), segment);
    }
  }

  lemma StartNext(chunks: seq<string>, chunk: string, segment: string)
    requires |chunk| + |segment| > CHUNK_CHARS
    ensures IsNext(chunks + [chunk], OverlapTail(chunk) + segment, [segment])
  {
    assert Last(chunks + [chunk]) == chunk;
    JoinSnoc([], segment);
    assert [] + [segment] == [segment] && "" + segment == segment;
  }

  /** `current` holds `group` and is open behind `chunks`; the segments of all of them are `placed`. */
  ghost predicate Open(chunks: seq<string>, groups: seq<seq<string>>, current: string, group: seq<string>,
                       placed: seq<string>) {
    && Assembled(chunks, groups) && Flat(groups) + group == placed
    && if group == [] then current == "" && chunks == [] else IsNext(chunks, current, group)
  }

  lemma OpenMore(chunks: seq<string>, groups: seq<seq<string>>, current: string, group: seq<string>,
                 placed: seq<string>, segment: string)
    requires Open(chunks, groups, current, group, placed)
    ensures Open(chunks, groups, current + segment, group + [segment], placed + [segment])
  {
    Extend(chunks, current, group, segment);
    assert Flat(groups) + (group + [segment]) == placed + [segment];
  }

  lemma OpenNext(chunks: seq<string>, groups: seq<seq<string>>, current: string, group: seq<string>,
                 placed: seq<string>, segment: string)
    requires Open(chunks, groups, current, group, placed) && group != []
    requires |current| + |segment| > CHUNK_CHARS
    ensures Open(chunks + [current], groups + [group], OverlapTail(current) + segment, [segment], placed + [segment])
  {
    AssembleOne(chunks, groups, current, group);
    StartNext(chunks, current, segment);
  }

  /** The first `k` segments are placed, within the bound. */
  ghost predicate Placed(chunks: seq<string>, groups: seq<seq<string>>, current: string, group: seq<string>,
                         segments: seq<string>, k: nat) {
    && k <= |segments| && Open(chunks, groups, current, group, segments[..k]) && (current == "" ==> group == [])
    && Sized(chunks, CHUNK_CHARS) && |current| <= CHUNK_CHARS
  }

  lemma NothingYet(segments: seq<string>)
    ensures Placed([], [], "", [], segments, 0)
  {
  }

  lemma Finish(chunks: seq<string>, groups: seq<seq<string>>, current: string, group: seq<string>,
               segments: seq<string>)
    requires Placed(chunks, groups, current, group, segments, |segments|)
    ensures current == "" ==> Sized(chunks, CHUNK_CHARS) && Assembled(chunks, groups) && Flat(groups) == segments
    ensures current != "" ==>
      && Sized(chunks + [current], CHUNK_CHARS) && Assembled(chunks + [current], groups + [group])
      && Flat(groups + [group]) == segments
  {
    assert segments[..|segments|] == segments;
    if current != "" {
      AssembleOne(chunks, groups, current, group);
    }
  }

  lemma OneMore(segments: seq<string>, k: nat)
    requires k < |segments|
    ensures segments[..k + 1] == segments[..k] + [segments[k]]
  {
  }

  /** Put the next segment behind the open chunk, or close that chunk and open the next with its tail. */
  method Place(chunks: seq<string>, current: string, segments: seq<string>, k: nat, ghost groups: seq<seq<string>>,
               ghost group: seq<string>)
    returns (closed: seq<string>, open: string, ghost before: seq<seq<string>>, ghost last: seq<string>)
    requires Placed(chunks, groups, current, group, segments, k) && k < |segments| && Sized(segments, MAX_SEGMENT)
    ensures Placed(closed, before, open, last, segments, k + 1)
  {
    var segment := segments[k];
    OneMore(segments, k);
    if current != "" && |current| + |segment| > CHUNK_CHARS {
      OpenNext(chunks, groups, current, group, segments[..k], segment);
      return chunks + [current], OverlapTail(current) + segment, groups + [group], [segment];
    }
    OpenMore(chunks, groups, current, group, segments[..k], segment);
    return chunks, current + segment, groups, group + [segment];
  }

  /** All chunks of a text, before the limit on their number. */
  method Assemble(segments: seq<string>) returns (chunks: seq<string>, ghost groups: seq<seq<string>>)
    requires Sized(segments, MAX_SEGMENT)
    ensures Sized(chunks, CHUNK_CHARS) && Assembled(chunks, groups) && Flat(groups) == segments
  {
    chunks, groups := [], [];
    var current := "";
    ghost var group := [];
    NothingYet(segments);
    for k := 0 to |segments|
      invariant Placed(chunks, groups, current, group, segments, k)
    {
      chunks, current, groups, group := Place(chunks, current, segments, k, groups, group);
    }
    Finish(chunks, groups, current, group, segments);
    if current != "" {
      chunks, groups := chunks + [current], groups + [group];
    }
  }

  /** The chunks of a whole text. */
  ghost predicate Covers(chunks: seq<string>, text: string) {
    Sized(chunks, 1200) && Linked(chunks) && Rebuild(chunks) == text
  }

  lemma {:induction false} JoinBoth(a: seq<string>, b: seq<string>)
    ensures Join(a + b) == Join(a) + Join(b)
    decreases |b|
  {
    if b == [] {
      assert a + b == a;
    } else {
      var n := |b| - 1;
      JoinBoth(a, b[..n]);
      assert (a + b)[..|a| + n] == a + b[..n];
      Associate(Join(a), Join(b[..n]), b[n]);
    }
  }

  lemma JoinIsNotEmpty(group: seq<string>)
    requires group != [] && Sized(group, MAX_SEGMENT)
    ensures Join(group) != ""
  {
    assert group[|group| - 1] != "";
  }

  /** Every chunk begins with the overlap of the one before; without the overlaps the chunks rebuild the text. */
  lemma {:induction false} AssembledCovers(chunks: seq<string>, groups: seq<seq<string>>)
    requires Assembled(chunks, groups) && Sized(Flat(groups), MAX_SEGMENT)
    ensures Linked(chunks) && Rebuild(chunks) == Join(Flat(groups))
    decreases |chunks|
  {
    if chunks != [] {
      var n := |chunks| - 1;
      var before, group := Flat(groups[..n]), groups[n];
      SizedParts(before, group);
      AssembledCovers(chunks[..n], groups[..n]);
      JoinBoth(before, group);
      JoinIsNotEmpty(group);
      FreshOne(chunks[..n], chunks[n], group);
    }
  }

  lemma SizedParts(a: seq<string>, b: seq<string>)
    requires Sized(a + b, MAX_SEGMENT)
    ensures Sized(a, MAX_SEGMENT) && Sized(b, MAX_SEGMENT)
  {
    forall i | 0 <= i < |a| ensures 1 <= |a[i]| <= MAX_SEGMENT { assert (a + b)[i] == a[i]; }
    forall i | 0 <= i < |b| ensures 1 <= |b[i]| <= MAX_SEGMENT { assert (a + b)[|a| + i] == b[i]; }
  }

  lemma FreshOne(chunks: seq<string>, chunk: string, group: seq<string>)
    requires IsNext(chunks, chunk, group) && Join(group) != ""
    ensures LinkedTo(chunks, chunk) && Fresh(chunks, chunk) == Join(group)
  {
  }

  datatype Chunk = Chunk(ordinal: nat, text: string)

  /** Head and tail sampling: the first and the last sixteen. */
  function Sampled(all: seq<string>): seq<string> {
    if |all| <= MAX_CHUNKS then all else all[..16] + all[|all| - 16..]
  }

  function Numbered(texts: seq<string>): seq<Chunk> {
    seq(|texts|, i requires 0 <= i < |texts| => Chunk(i, texts[i]))
  }

  function Texts(chunks: seq<Chunk>): seq<string> {
    seq(|chunks|, i requires 0 <= i < |chunks| => chunks[i].text)
  }

  /** The chunks of the segments of a text. */
  ghost predicate ChunksOf(chunks: seq<string>, text: string, ends: seq<nat>) {
    exists groups :: Assembled(chunks, groups) && Segmented(Flat(groups), text, ends, 1050)
  }

  method ChunkDocument(normalized: string, ends: seq<nat>) returns (chunks: seq<Chunk>, truncated: bool)
    requires Ascending(ends, |normalized|)
    ensures |chunks| <= 32 && (chunks == [] <==> normalized == "")
    ensures forall i :: 0 <= i < |chunks| ==> chunks[i].ordinal == i && 1 <= |chunks[i].text| <= 1200
    ensures normalized != "" && !truncated ==> ChunksOf(Texts(chunks), normalized, ends)
    ensures !truncated ==> Covers(Texts(chunks), normalized)
    ensures truncated ==> |chunks| == 32
    ensures truncated ==> exists all :: ChunksOf(all, normalized, ends) && IsSampleOf(Texts(chunks), all, normalized)
    ensures |normalized| > 32 * 1200 ==> truncated
  {
    chunks, truncated := [], false;
    if normalized != "" {
      var segments := SegmentText(normalized, ends, MAX_SEGMENT);
      var all, groups := Assemble(segments);
      AssembledCovers(all, groups);
      assert ChunksOf(all, normalized, ends);
      chunks, truncated := Sample(all, normalized);
      if !truncated {
        RebuildBound(Texts(chunks));
      }
    } else {
      assert Texts(chunks) == [];
    }
  }

  method Sample(all: seq<string>, ghost text: string) returns (chunks: seq<Chunk>, truncated: bool)
    requires Covers(all, text) && text != ""
    ensures 0 < |chunks| <= MAX_CHUNKS
    ensures forall i :: 0 <= i < |chunks| ==> chunks[i].ordinal == i && 1 <= |chunks[i].text| <= CHUNK_CHARS
    ensures !truncated ==> Covers(Texts(chunks), text) && Texts(chunks) == all
    ensures truncated ==> |chunks| == MAX_CHUNKS && IsSampleOf(Texts(chunks), all, text)
  {
    truncated := |all| > MAX_CHUNKS;
    SampleFacts(all, text);
    NumberedTexts(Sampled(all));
    chunks := Numbered(Sampled(all));
  }

  lemma SampleFacts(all: seq<string>, text: string)
    requires Covers(all, text) && text != ""
    ensures 0 < |Sampled(all)| <= MAX_CHUNKS && Sized(Sampled(all), CHUNK_CHARS)
    ensures |all| > MAX_CHUNKS ==> |Sampled(all)| == MAX_CHUNKS && IsSampleOf(Sampled(all), all, text)
    ensures |all| <= MAX_CHUNKS ==> Covers(Sampled(all), text)
  {
  }

  lemma NumberedTexts(texts: seq<string>)
    ensures Texts(Numbered(texts)) == texts
    ensures forall i :: 0 <= i < |texts| ==> Numbered(texts)[i] == Chunk(i, texts[i])
  {
  }

  /** The first and last sixteen of the chunks `all` that carry the whole text. */
  ghost predicate IsSampleOf(texts: seq<string>, all: seq<string>, text: string) {
    && |all| > 32 && Covers(all, text)
    && texts == all[..16] + all[|all| - 16..]
  }

  /** Chunks of at most 1200 characters carry no longer text than that. */
  lemma {:induction false} RebuildBound(chunks: seq<string>)
    requires Linked(chunks) && Sized(chunks, CHUNK_CHARS)
    ensures |Rebuild(chunks)| <= CHUNK_CHARS * |chunks|
    decreases |chunks|
  {
    if chunks != [] {
      RebuildBound(chunks[..|chunks| - 1]);
    }
  }
}
