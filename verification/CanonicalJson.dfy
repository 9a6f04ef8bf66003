/**
 `canonicalJson`: print a JSON tree with object members in key order.  Two trees print alike
 exactly when they are equal with objects read as maps, so hashing the text compares payloads.
 The grammar is that of sections 4 to 7 of RFC 8259, without insignificant white space.
 */
module CanonicalJson {
  import opened Sorting
  import opened Lexicographic
  import opened Text

  /** Members in insertion order; a finite number is the token it prints as. */
  datatype Json =
    | Null
    | Bool(b: bool)
    | Number(token: string)
    | Text(value: string)
    | Array(items: seq<Json>)
    | Object(fields: seq<Field>)
  datatype Field = Field(key: string, value: Json)

  // ----- tokens

  predicate NumberChar(c: char) {
    '0' <= c <= '9' || c == '-' || c == '+' || c == '.' || c == 'e' || c == 'E'
  }

  predicate IsNumber(token: string) {
    token != [] && forall i :: 0 <= i < |token| ==> NumberChar(token[i])
  }

  function HexDigit(n: nat): char
    requires n < 16
  {
    "0123456789abcdef"[n]
  }

  function EscapeChar(c: char): string {
    if c == '"' then "\\\""
    else if c == '\\' then "\\\\"
    else if c == '\n' then "\\n"
    else if c == '\r' then "\\r"
    else if c == '\t' then "\\t"
    else if c as int == 8 then "\\b"
    else if c as int == 12 then "\\f"
    else if c as int < 32 then "\\u00" + [HexDigit(c as int / 16), HexDigit(c as int % 16)]
    else [c]
  }

  /** Which characters are escaped, and how. */
  lemma EscapeMeaning(c: char)
    ensures EscapeChar('"') == "\\\"" && EscapeChar('\\') == "\\\\"
    ensures EscapeChar('\n') == "\\n" && EscapeChar('\r') == "\\r" && EscapeChar('\t') == "\\t"
    ensures EscapeChar(8 as char) == "\\b" && EscapeChar(12 as char) == "\\f"
    ensures EscapeChar(11 as char) == "\\u000b" && EscapeChar(31 as char) == "\\u001f"
    ensures c as int < 32 && c !in "\n\r\t" && c as int != 8 && c as int != 12 ==>
      EscapeChar(c) == "\\u00" + [if c as int < 16 then '0' else '1', "0123456789abcdef"[c as int % 16]]
    ensures c as int >= 32 && c != '"' && c != '\\' ==> EscapeChar(c) == [c]
  {
    assert "0123456789abcdef"[11] == 'b' && "0123456789abcdef"[15] == 'f' && "0123456789abcdef"[0] == '0';
    assert '\n' in "\n\r\t" && '\r' in "\n\r\t" && '\t' in "\n\r\t";
  }

  function Escape(s: string): string {
    if s == [] then [] else EscapeChar(s[0]) + Escape(s[1..])
  }

  function Quote(s: string): string {
    "\"" + Escape(s) + "\""
  }

  // ----- printing

  function Print(j: Json): string {
    match j
    case Null => "null"
    case Bool(b) => if b then "true" else "false"
    case Number(token) => token
    case Text(value) => Quote(value)
    case Array(items) => "[" + PrintItems(items)
    case Object(fields) => "{" + PrintFields(fields)
  }

  /** The rest of an array after its bracket or after an element and its comma. */
  function PrintItems(items: seq<Json>): string {
    if items == [] then "]"
    else if |items| == 1 then Print(items[0]) + "]"
    else Print(items[0]) + "," + PrintItems(items[1..])
  }

  function PrintField(f: Field): string {
    Quote(f.key) + ":" + Print(f.value)
  }

  function PrintFields(fields: seq<Field>): string {
    if fields == [] then "}"
    else if |fields| == 1 then PrintField(fields[0]) + "}"
    else PrintField(fields[0]) + "," + PrintFields(fields[1..])
  }

  predicate FieldLeq(f: Field, g: Field) { LexLeq(f.key, g.key) }

  /** Members sorted by key, at every level. */
  function Normal(j: Json): Json {
    match j
    case Array(items) => Array(NormalItems(items))
    case Object(fields) => Object(Sort(NormalFields(fields), FieldLeq))
    case _ => j
  }

  function NormalItems(items: seq<Json>): (r: seq<Json>)
    ensures |r| == |items| && forall i :: 0 <= i < |r| ==> r[i] == Normal(items[i])
  {
    if items == [] then [] else [Normal(items[0])] + NormalItems(items[1..])
  }

  function NormalFields(fields: seq<Field>): (r: seq<Field>)
    ensures |r| == |fields| && forall i :: 0 <= i < |r| ==> r[i] == Field(fields[i].key, Normal(fields[i].value))
  {
    if fields == [] then [] else [Field(fields[0].key, Normal(fields[0].value))] + NormalFields(fields[1..])
  }

  function Canonical(j: Json): string {
    Print(Normal(j))
  }

  // ----- values

  ghost predicate DistinctKeys(fields: seq<Field>) {
    forall i, k :: 0 <= i < k < |fields| ==> fields[i].key != fields[k].key
  }

  /** Equal, with objects read as maps from keys to values. */
  ghost predicate Same(a: Json, b: Json)
    decreases a
  {
    if a.Array? && b.Array? then
      |a.items| == |b.items| && forall i :: 0 <= i < |a.items| ==> Same(a.items[i], b.items[i])
    else if a.Object? && b.Object? then
      && |a.fields| == |b.fields|
      && forall i :: 0 <= i < |a.fields| ==> HasMember(a.fields[i], b.fields)
    else a == b
  }

  ghost predicate HasMember(f: Field, t: seq<Field>)
    decreases f
  {
    exists k :: 0 <= k < |t| && t[k].key == f.key && Same(f.value, t[k].value)
  }

  ghost predicate NumbersValid(j: Json) {
    match j
    case Number(token) => IsNumber(token)
    case Array(items) => forall i :: 0 <= i < |items| ==> NumbersValid(items[i])
    case Object(fields) => forall i :: 0 <= i < |fields| ==> NumbersValid(fields[i].value)
    case _ => true
  }

  /** A JavaScript object has one member per key. */
  ghost predicate KeysDistinct(j: Json) {
    match j
    case Array(items) => forall i :: 0 <= i < |items| ==> KeysDistinct(items[i])
    case Object(fields) => DistinctKeys(fields) && forall i :: 0 <= i < |fields| ==> KeysDistinct(fields[i].value)
    case _ => true
  }

  // ----- printed text is read back in one way

  lemma EscapeCharPrefixFree(c: char, d: char, x: string, y: string)
    requires EscapeChar(c) + x == EscapeChar(d) + y
    ensures c == d && x == y
  {
    var s := EscapeChar(c) + x;
    assert s[0] == EscapeChar(c)[0] && s[0] == EscapeChar(d)[0];
    if s[0] == '\\' {
      assert s[1] == EscapeChar(c)[1] && s[1] == EscapeChar(d)[1];
      if s[1] == 'u' {
        assert s[4] == EscapeChar(c)[4] && s[4] == EscapeChar(d)[4];
        assert s[5] == EscapeChar(c)[5] && s[5] == EscapeChar(d)[5];
        HexInjective(c as int / 16, d as int / 16);
        HexInjective(c as int % 16, d as int % 16);
      }
    }
    assert c == d;
    assert x == s[|EscapeChar(c)|..] && y == s[|EscapeChar(c)|..];
  }

  lemma HexInjective(m: nat, n: nat)
    requires m < 16 && n < 16 && HexDigit(m) == HexDigit(n)
    ensures m == n
  {
    var h := "0123456789abcdef";
    assert forall i, k :: 0 <= i < k < 16 ==> h[i] < h[k];
  }

  lemma EscapeCharStart(c: char)
    ensures EscapeChar(c) != [] && EscapeChar(c)[0] != '"'
  {
  }

  lemma EscapeHead(s: string, x: string)
    ensures (Escape(s) + "\"" + x)[0] == '"' <==> s == []
    ensures s == [] ==> Escape(s) + "\"" + x == "\"" + x
  {
    if s != [] {
      EscapeCharStart(s[0]);
      assert (Escape(s) + "\"" + x)[0] == EscapeChar(s[0])[0];
    }
  }

  lemma EscapeShape(s: string, x: string)
    requires s != []
    ensures Escape(s) + "\"" + x == EscapeChar(s[0]) + (Escape(s[1..]) + "\"" + x)
  {
    Associate(EscapeChar(s[0]), Escape(s[1..]), "\"");
    Associate(EscapeChar(s[0]), Escape(s[1..]) + "\"", x);
  }

  lemma {:induction false} EscapeUnique(s: string, t: string, x: string, y: string)
    requires Escape(s) + "\"" + x == Escape(t) + "\"" + y
    ensures s == t && x == y
  {
    EscapeHead(s, x);
    EscapeHead(t, y);
    if s == [] && t == [] {
      Split("\"", "\"", x, y);
    } else if s == [] || t == [] {
      assert false;
    } else {
      var u := Escape(s[1..]) + "\"" + x;
      var v := Escape(t[1..]) + "\"" + y;
      EscapeShape(s, x);
      EscapeShape(t, y);
      EscapeCharPrefixFree(s[0], t[0], u, v);
      EscapeUnique(s[1..], t[1..], x, y);
      assert s == [s[0]] + s[1..] && t == [t[0]] + t[1..];
    }
  }

  lemma QuoteUnique(s: string, t: string, x: string, y: string)
    requires Quote(s) + x == Quote(t) + y
    ensures s == t && x == y
  {
    assert (Quote(s) + x)[1..] == Escape(s) + "\"" + x;
    assert (Quote(t) + y)[1..] == Escape(t) + "\"" + y;
    EscapeUnique(s, t, x, y);
  }

  /** What can follow a value in printed text: nothing, or a delimiter. */
  predicate Stops(x: string) {
    x == [] || x[0] == ',' || x[0] == ']' || x[0] == '}'
  }

  lemma NumberUnique(s: string, t: string, x: string, y: string)
    requires IsNumber(s) && IsNumber(t) && Stops(x) && Stops(y) && s + x == t + y
    ensures s == t && x == y
  {
    NumberNotShorter(s, t, x, y);
    NumberNotShorter(t, s, y, x);
    Split(s, t, x, y);
  }

  lemma NumberNotShorter(s: string, t: string, x: string, y: string)
    requires IsNumber(t) && Stops(x) && s + x == t + y
    ensures |s| >= |t|
  {
    if |s| < |t| {
      CharAt(s, x, |s|);
      CharAt(t, y, |s|);
      assert false;
    }
  }

  lemma CharAt(s: string, x: string, i: int)
    ensures 0 <= i < |s| ==> (s + x)[i] == s[i]
    ensures |s| <= i < |s + x| ==> (s + x)[i] == x[i - |s|]
  {
  }

  lemma Split(s: string, t: string, x: string, y: string)
    requires |s| == |t| && s + x == t + y
    ensures s == t && x == y
  {
    assert s == (s + x)[..|s|] && t == (t + y)[..|t|];
    assert x == (s + x)[|s|..] && y == (t + y)[|t|..];
  }

  /** The first character tells the kind of a value and is no delimiter. */
  function Kind(c: char): int {
    if c == 'n' then 0 else if c == 't' then 1 else if c == 'f' then 2 else if c == '"' then 4
    else if c == '[' then 5 else if c == '{' then 6 else if NumberChar(c) then 3 else 7
  }

  function KindOf(j: Json): int {
    match j
    case Null => 0
    case Bool(b) => if b then 1 else 2
    case Number(_) => 3
    case Text(_) => 4
    case Array(_) => 5
    case Object(_) => 6
  }

  lemma FirstChar(j: Json)
    requires NumbersValid(j)
    ensures Print(j) != [] && Kind(Print(j)[0]) == KindOf(j)
  {
  }

  lemma SameKind(a: Json, b: Json, x: string, y: string)
    requires NumbersValid(a) && NumbersValid(b) && Print(a) + x == Print(b) + y
    ensures KindOf(a) == KindOf(b)
  {
    FirstChar(a);
    FirstChar(b);
    assert (Print(a) + x)[0] == Print(a)[0] && (Print(b) + y)[0] == Print(b)[0];
  }

  lemma Behind(c: string, s: string, t: string, x: string, y: string)
    requires c + s + x == c + t + y
    ensures s + x == t + y
  {
    assert c + s + x == c + (s + x) && c + t + y == c + (t + y);
    Split(c, c, s + x, t + y);
  }

  lemma {:induction false} PrintUnique(a: Json, b: Json, x: string, y: string)
    requires NumbersValid(a) && NumbersValid(b) && Stops(x) && Stops(y)
    requires Print(a) + x == Print(b) + y
    ensures a == b && x == y
    decreases a, 0
  {
    SameKind(a, b, x, y);
    match a
    case Null => Split(Print(a), Print(b), x, y);
    case Bool(_) => Split(Print(a), Print(b), x, y);
    case Number(token) => NumberUnique(token, b.token, x, y);
    case Text(value) => QuoteUnique(value, b.value, x, y);
    case Array(items) =>
      Behind("[", PrintItems(items), PrintItems(b.items), x, y);
      ItemsUnique(items, b.items, x, y);
    case Object(fields) =>
      Behind("{", PrintFields(fields), PrintFields(b.fields), x, y);
      FieldsUnique(fields, b.fields, x, y);
  }

  ghost predicate ItemsValid(s: seq<Json>) { forall i :: 0 <= i < |s| ==> NumbersValid(s[i]) }

  /** What follows the first of `s`: the closing bracket, or a comma and the rest. */
  function AfterItem(s: seq<Json>, x: string): string
    requires s != []
  {
    if |s| == 1 then "]" + x else "," + (PrintItems(s[1..]) + x)
  }

  lemma ItemsShape(s: seq<Json>, x: string)
    ensures s == [] ==> PrintItems(s) + x == "]" + x
    ensures s != [] ==> PrintItems(s) + x == Print(s[0]) + AfterItem(s, x)
    ensures s != [] && ItemsValid(s) ==> (PrintItems(s) + x)[0] != ']'
  {
    if s != [] {
      var first := Print(s[0]);
      if |s| == 1 {
        Associate(first, "]", x);
      } else {
        Associate(first, ",", PrintItems(s[1..]));
        Associate(first, "," + PrintItems(s[1..]), x);
        Associate(",", PrintItems(s[1..]), x);
      }
      if ItemsValid(s) {
        FirstChar(s[0]);
        CharAt(first, AfterItem(s, x), 0);
      }
    }
  }

  lemma {:induction false} ItemsUnique(s: seq<Json>, t: seq<Json>, x: string, y: string)
    requires ItemsValid(s) && ItemsValid(t)
    requires PrintItems(s) + x == PrintItems(t) + y
    ensures s == t && x == y
    decreases s, 1
  {
    ItemsShape(s, x);
    ItemsShape(t, y);
    if s == [] && t == [] {
      Split("]", "]", x, y);
    } else if s == [] || t == [] {
      assert false;
    } else {
      PrintUnique(s[0], t[0], AfterItem(s, x), AfterItem(t, y));
      assert AfterItem(s, x)[0] == AfterItem(t, y)[0];
      assert s == [s[0]] + s[1..] && t == [t[0]] + t[1..];
      if |s| == 1 {
        Split("]", "]", x, y);
      } else {
        Split(",", ",", PrintItems(s[1..]) + x, PrintItems(t[1..]) + y);
        ItemsUnique(s[1..], t[1..], x, y);
      }
    }
  }

  ghost predicate FieldsValid(s: seq<Field>) { forall i :: 0 <= i < |s| ==> NumbersValid(s[i].value) }

  function AfterField(s: seq<Field>, x: string): string
    requires s != []
  {
    if |s| == 1 then "}" + x else "," + (PrintFields(s[1..]) + x)
  }

  lemma FieldsShape(s: seq<Field>, x: string)
    ensures s == [] ==> PrintFields(s) + x == "}" + x
    ensures s != [] ==> PrintFields(s) + x == PrintField(s[0]) + AfterField(s, x)
    ensures s != [] ==> (PrintFields(s) + x)[0] != '}'
  {
    if s != [] {
      var first := PrintField(s[0]);
      if |s| == 1 {
        Associate(first, "}", x);
      } else {
        Associate(first, ",", PrintFields(s[1..]));
        Associate(first, "," + PrintFields(s[1..]), x);
        Associate(",", PrintFields(s[1..]), x);
      }
      CharAt(first, AfterField(s, x), 0);
    }
  }

  lemma {:induction false} FieldsUnique(s: seq<Field>, t: seq<Field>, x: string, y: string)
    requires FieldsValid(s) && FieldsValid(t)
    requires PrintFields(s) + x == PrintFields(t) + y
    ensures s == t && x == y
    decreases s, 1
  {
    FieldsShape(s, x);
    FieldsShape(t, y);
    if s == [] && t == [] {
      Split("}", "}", x, y);
    } else if s == [] || t == [] {
      assert false;
    } else {
      FieldUnique(s[0], t[0], AfterField(s, x), AfterField(t, y));
      assert AfterField(s, x)[0] == AfterField(t, y)[0];
      assert s == [s[0]] + s[1..] && t == [t[0]] + t[1..];
      if |s| == 1 {
        Split("}", "}", x, y);
      } else {
        Split(",", ",", PrintFields(s[1..]) + x, PrintFields(t[1..]) + y);
        FieldsUnique(s[1..], t[1..], x, y);
      }
    }
  }

  lemma FieldShape(f: Field, u: string)
    ensures PrintField(f) + u == Quote(f.key) + (":" + (Print(f.value) + u))
  {
    Associate(Quote(f.key) + ":", Print(f.value), u);
    Associate(Quote(f.key), ":", Print(f.value) + u);
  }

  lemma {:induction false} FieldUnique(f: Field, g: Field, u: string, v: string)
    requires NumbersValid(f.value) && NumbersValid(g.value) && Stops(u) && Stops(v)
    requires PrintField(f) + u == PrintField(g) + v
    ensures f == g && u == v
    decreases f, 0
  {
    var x, y := ":" + (Print(f.value) + u), ":" + (Print(g.value) + v);
    FieldShape(f, u);
    FieldShape(g, v);
    QuoteUnique(f.key, g.key, x, y);
    Split(":", ":", Print(f.value) + u, Print(g.value) + v);
    PrintUnique(f.value, g.value, u, v);
  }

  // ----- sorting members forgets exactly their order

  lemma {:induction false} NormalNumbers(j: Json)
    requires NumbersValid(j)
    ensures NumbersValid(Normal(j))
  {
    match j
    case Array(items) =>
      forall i | 0 <= i < |items| ensures NumbersValid(Normal(items[i])) { NormalNumbers(items[i]); }
    case Object(fields) =>
      var nf := NormalFields(fields);
      forall i | 0 <= i < |nf| ensures NumbersValid(nf[i].value) { NormalNumbers(fields[i].value); }
      SortPermutes(nf, FieldLeq);
      var sorted := Sort(nf, FieldLeq);
      forall i | 0 <= i < |sorted| ensures NumbersValid(sorted[i].value) {
        assert sorted[i] in nf;
      }
    case _ =>
  }

  lemma FieldLeqOrder()
    ensures Total(FieldLeq) && Transitive(FieldLeq)
  {
    forall f, g ensures FieldLeq(f, g) || FieldLeq(g, f) { LexTotal(f.key, g.key); }
    forall f, g, h | FieldLeq(f, g) && FieldLeq(g, h) ensures FieldLeq(f, h) { LexTransitive(f.key, g.key, h.key); }
  }

  /** Members with distinct keys sort alike exactly when they are the same members. */
  lemma SortEqualIffSameMembers(s: seq<Field>, t: seq<Field>)
    requires DistinctKeys(s)
    ensures Sort(s, FieldLeq) == Sort(t, FieldLeq) <==> |s| == |t| && forall f :: f in s ==> f in t
  {
    SortPermutes(s, FieldLeq);
    SortPermutes(t, FieldLeq);
    if |s| == |t| && forall f :: f in s ==> f in t {
      SameMembersPermute(s, t);
      FieldLeqOrder();
      SortSorts(s, FieldLeq);
      SortSorts(t, FieldLeq);
      var r := Sort(s, FieldLeq);
      forall f, g | f in r && g in r && FieldLeq(f, g) && FieldLeq(g, f) ensures f == g {
        LexAntisymmetric(f.key, g.key);
        EqualKeys(s, f, g);
      }
      SortedUnique(r, Sort(t, FieldLeq), FieldLeq);
    }
  }

  lemma EqualKeys(s: seq<Field>, f: Field, g: Field)
    requires DistinctKeys(s) && f in s && g in s && f.key == g.key
    ensures f == g
  {
    var i :| 0 <= i < |s| && s[i] == f;
    var k :| 0 <= k < |s| && s[k] == g;
  }

  lemma {:induction false} NormalEqualIffSame(a: Json, b: Json)
    requires KeysDistinct(a) && KeysDistinct(b)
    ensures Normal(a) == Normal(b) <==> Same(a, b)
    decreases a
  {
    if a.Array? && b.Array? {
      forall i | 0 <= i < |a.items| && i < |b.items|
        ensures Normal(a.items[i]) == Normal(b.items[i]) <==> Same(a.items[i], b.items[i])
      {
        NormalEqualIffSame(a.items[i], b.items[i]);
      }
      ArraysEqual(a.items, b.items);
    } else if a.Object? && b.Object? {
      ObjectsEqualIffSame(a, b);
    }
  }

  lemma ArraysEqual(s: seq<Json>, t: seq<Json>)
    ensures NormalItems(s) == NormalItems(t)
            <==> |s| == |t| && forall i :: 0 <= i < |s| ==> Normal(s[i]) == Normal(t[i])
  {
    var ns, nt := NormalItems(s), NormalItems(t);
    if ns == nt {
      forall i | 0 <= i < |s| ensures Normal(s[i]) == Normal(t[i]) {
        assert ns[i] == nt[i];
      }
    }
  }

  lemma {:induction false} MemberEqualIffSame(f: Field, t: seq<Field>)
    requires KeysDistinct(f.value) && forall k :: 0 <= k < |t| ==> KeysDistinct(t[k].value)
    ensures Field(f.key, Normal(f.value)) in NormalFields(t)
            <==> HasMember(f, t)
    decreases f, 1
  {
    var nf, nt := Field(f.key, Normal(f.value)), NormalFields(t);
    forall k | 0 <= k < |t| ensures nf == nt[k] <==> t[k].key == f.key && Same(f.value, t[k].value) {
      NormalEqualIffSame(f.value, t[k].value);
    }
  }

  lemma {:induction false} ObjectsEqualIffSame(a: Json, b: Json)
    requires a.Object? && b.Object? && KeysDistinct(a) && KeysDistinct(b)
    ensures Normal(a) == Normal(b) <==> Same(a, b)
    decreases a, 0
  {
    var na, nb := NormalFields(a.fields), NormalFields(b.fields);
    forall i | 0 <= i < |na| ensures na[i] in nb <==> HasMember(a.fields[i], b.fields) {
      MemberEqualIffSame(a.fields[i], b.fields);
    }
    assert DistinctKeys(na);
    SortEqualIffSameMembers(na, nb);
    AllIn(na, nb);
  }

  lemma AllIn(s: seq<Field>, t: seq<Field>)
    ensures (forall f :: f in s ==> f in t) <==> (forall i :: 0 <= i < |s| ==> s[i] in t)
  {
  }

  /** Payloads print alike exactly when they are the same value. */
  lemma CanonicalIffSame(a: Json, b: Json)
    requires NumbersValid(a) && NumbersValid(b) && KeysDistinct(a) && KeysDistinct(b)
    ensures Canonical(a) == Canonical(b) <==> Same(a, b)
  {
    NormalNumbers(a);
    NormalNumbers(b);
    if Canonical(a) == Canonical(b) {
      assert Print(Normal(a)) + "" == Print(Normal(b)) + "";
      PrintUnique(Normal(a), Normal(b), "", "");
    }
    NormalEqualIffSame(a, b);
  }

  /** The texts of the leaves. */
  lemma LeafTexts(token: string)
    ensures Canonical(Null) == "null" && Canonical(Bool(true)) == "true" && Canonical(Bool(false)) == "false"
    ensures Canonical(Number(token)) == token && Canonical(Text("a\"b")) == "\"a\\\"b\""
    ensures Canonical(Array([])) == "[]" && Canonical(Object([])) == "{}"
  {
    assert Escape("a\"b") == "a\\\"b" by {
      assert "a\"b"[1..] == "\"b" && "\"b"[1..] == "b" && "b"[1..] == "";
    }
  }

  lemma ArrayText(a: Json, b: Json)
    ensures Canonical(Array([a, b])) == "[" + (Canonical(a) + "," + (Canonical(b) + "]"))
  {
    var items := [Normal(a), Normal(b)];
    assert NormalItems([a, b]) == items;
    assert items[1..] == [Normal(b)];
    assert PrintItems([Normal(b)]) == Print(Normal(b)) + "]";
    assert PrintItems(items) == Print(Normal(a)) + "," + PrintItems(items[1..]);
    assert Normal(Array([a, b])) == Array(items);
  }

  /** Members come in key order whatever order they were given in. */
  lemma ObjectText(a: Json, b: Json)
    ensures Canonical(Object([Field("b", b), Field("a", a)])) == Canonical(Object([Field("a", a), Field("b", b)]))
    ensures Canonical(Object([Field("a", a), Field("b", b)]))
            == "{" + (Quote("a") + ":" + Canonical(a) + "," + (Quote("b") + ":" + Canonical(b) + "}"))
  {
    var fa, fb := Field("a", Normal(a)), Field("b", Normal(b));
    assert NormalFields([Field("b", b), Field("a", a)]) == [fb, fa];
    assert NormalFields([Field("a", a), Field("b", b)]) == [fa, fb];
    TwoSorted(fa, fb);
    assert [fa, fb][1..] == [fb];
    assert PrintFields([fb]) == PrintField(fb) + "}";
    assert PrintFields([fa, fb]) == PrintField(fa) + "," + PrintFields([fa, fb][1..]);
    assert Normal(Object([Field("a", a), Field("b", b)])) == Object([fa, fb]);
  }

  lemma TwoSorted(f: Field, g: Field)
    requires f.key == "a" && g.key == "b"
    ensures Sort([f, g], FieldLeq) == Sort([g, f], FieldLeq) == [f, g]
  {
    assert [f, g][1..] == [g] && [g, f][1..] == [f] && [f][1..] == [] && [g][1..] == [];
    assert Sort([f], FieldLeq) == [f] && Sort([g], FieldLeq) == [g];
    assert FieldLeq(f, g) && !FieldLeq(g, f);
    assert Insert(g, [f], FieldLeq) == [f] + Insert(g, [], FieldLeq);
  }
}
