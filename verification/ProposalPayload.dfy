/**
 What is stored and hashed for a submitted proposal, and hence when a reused idempotency key is
 answered CONFLICT: an unsafe or oversized proposal is replaced by `{}` before it is hashed.
 */
module ProposalPayload {
  import opened Options
  import opened Sorting
  import opened CanonicalJson
  import opened WorkflowTables
  import opened WorkflowCalls

  const MAX_BYTES := 65_536

  /** SHA-256, the outbound safety scan, and the structural validation of a proposal for a job. */
  datatype Rules = Rules(sha: string -> string, isSafe: Json -> bool, wellStructured: (Json, string) -> bool)

  /** No collisions; both scans see values, not member order; `{}` lacks the required keys. */
  ghost predicate Lawful(rules: Rules) {
    && (forall a, b :: rules.sha(a) == rules.sha(b) ==> a == b)
    && (forall p, q :: Same(p, q) ==> rules.isSafe(p) == rules.isSafe(q))
    && (forall p, job :: Canonical(p) == "{}" ==> !rules.wellStructured(p, job))
  }

  function Utf8Length(s: string): nat {
    if s == [] then 0
    else
      var c := s[0] as int;
      (if c < 0x80 then 1 else if c < 0x800 then 2 else if c < 0x10000 then 3 else 4) + Utf8Length(s[1..])
  }

  /** The bytes of a text are those of its characters, one to four each. */
  lemma {:induction false} Utf8Meaning(s: string, c: char)
    ensures Utf8Length(s + [c]) == Utf8Length(s) + Utf8Length([c])
    ensures var n := Utf8Length([c]);
      && 1 <= n <= 4 && (n == 1 <==> c as int <= 0x7f) && (n <= 2 <==> c as int <= 0x7ff)
      && (n <= 3 <==> c as int <= 0xffff)
    ensures Utf8Length("") == 0
  {
    assert Utf8Length([c]) == Utf8Length([c]) + Utf8Length([c][1..]);
    if s == [] {
      assert s + [c] == [c];
    } else {
      Utf8Meaning(s[1..], c);
      assert (s + [c])[1..] == s[1..] + [c];
    }
  }

  predicate Oversize(p: Json) {
    Utf8Length(Canonical(p)) > MAX_BYTES
  }

  function StoredText(rules: Rules, p: Json): string {
    if !rules.isSafe(p) || Oversize(p) then "{}" else Canonical(p)
  }

  function Prepare(rules: Rules, p: Json, job: string): Prepared {
    Prepared(rules.sha(StoredText(rules, p)), rules.isSafe(p) && !Oversize(p) && rules.wellStructured(p, job))
  }

  predicate Placeholder(rules: Rules, p: Json) {
    StoredText(rules, p) == "{}"
  }

  ghost predicate IsPayload(p: Json) {
    NumbersValid(p) && KeysDistinct(p)
  }

  /**
   A reused key is a conflict exactly when the two payloads are different values, unless both of
   them are stored as the placeholder.
   */
  lemma ConflictIffDifferent(rules: Rules, row: Proposal, p: Json, q: Json, job: string)
    requires Lawful(rules) && IsPayload(p) && IsPayload(q)
    requires row.payloadHash == Prepare(rules, p, job).hash && row.reason != Some(Conflict)
    ensures Verdict(row, Prepare(rules, q, job).hash) == Refused(Conflict, None)
            <==> !Same(p, q) && !(Placeholder(rules, p) && Placeholder(rules, q))
  {
    CanonicalIffSame(p, q);
    assert StoredText(rules, p) == StoredText(rules, q)
           <==> Same(p, q) || (Placeholder(rules, p) && Placeholder(rules, q));
  }

  /** For an accepted result the rule has no exception. */
  lemma AcceptedPayloadIsNoPlaceholder(rules: Rules, p: Json, job: string)
    requires Lawful(rules) && Prepare(rules, p, job).acceptable
    ensures !Placeholder(rules, p)
  {
  }

  /** What may be accepted and what is hashed. */
  lemma PreparedMeaning(rules: Rules, p: Json, job: string)
    ensures var small := Utf8Length(Canonical(p)) <= 65536;
      && (Prepare(rules, p, job).acceptable <==> rules.isSafe(p) && small && rules.wellStructured(p, job))
      && Prepare(rules, p, job).hash == rules.sha(if rules.isSafe(p) && small then Canonical(p) else "{}")
  {
  }

  // ----- the exception occurs

  lemma {:induction false} EscapeLength(s: string)
    ensures |Escape(s)| >= |s|
  {
    if s != [] {
      EscapeCharStart(s[0]);
      EscapeLength(s[1..]);
    }
  }

  lemma {:induction false} Utf8AtLeast(s: string)
    ensures Utf8Length(s) >= |s|
  {
    if s != [] {
      Utf8AtLeast(s[1..]);
    }
  }

  lemma {:induction false} MemberLength(fields: seq<Field>, k: nat)
    requires k < |fields|
    ensures |PrintFields(fields)| >= |Print(fields[k].value)|
    decreases |fields|
  {
    if k > 0 {
      MemberLength(fields[1..], k - 1);
    }
  }

  /** One long text member makes an object oversized. */
  lemma LongMemberIsOversize(fields: seq<Field>, k: nat, text: string)
    requires k < |fields| && fields[k].value == Text(text) && |text| > MAX_BYTES
    ensures Oversize(Object(fields))
  {
    var normal := NormalFields(fields);
    var sorted := Sort(normal, FieldLeq);
    SortPermutes(normal, FieldLeq);
    assert normal[k] in normal && normal[k] in sorted;
    var m :| 0 <= m < |sorted| && sorted[m] == normal[k];
    MemberLength(sorted, m);
    EscapeLength(text);
    Utf8AtLeast(Canonical(Object(fields)));
  }

  function WithText(rest: seq<Field>, key: string, text: string): Json {
    Object(rest + [Field(key, Text(text))])
  }

  /**
   A second, different payload under the same key replays the first one's refusal when both are oversized:
   here two proposals that agree except in one long text member.
   */
  lemma DifferentOversizedPayloadsReplay(rules: Rules, row: Proposal, rest: seq<Field>, key: string, x: string,
                                         y: string, job: string)
    requires Lawful(rules) && DistinctKeys(rest + [Field(key, Text(x))])
    requires |x| > MAX_BYTES && |y| > MAX_BYTES && x != y
    requires row.status == Rejected && row.reason == Some(ValidationFailed)
    requires row.payloadHash == Prepare(rules, WithText(rest, key, x), job).hash
    ensures Verdict(row, Prepare(rules, WithText(rest, key, y), job).hash) == Refused(ValidationFailed, None)
    ensures !Same(WithText(rest, key, x), WithText(rest, key, y))
  {
    var s, t := rest + [Field(key, Text(x))], rest + [Field(key, Text(y))];
    LongMemberIsOversize(s, |rest|, x);
    LongMemberIsOversize(t, |rest|, y);
    assert forall k :: 0 <= k < |rest| ==> s[k].key != s[|rest|].key;
    assert forall k :: 0 <= k < |rest| ==> t[k] == s[k];
    assert !HasMember(s[|rest|], t);
  }
}
