/** Blanks at the ends of a text, and joining texts. */
module Text {
  predicate Blank(s: string) {
    forall i :: 0 <= i < |s| ==> s[i] == ' '
  }

  function TrimEnd(s: string): string {
    if s != [] && s[|s| - 1] == ' ' then TrimEnd(s[..|s| - 1]) else s
  }

  function TrimStart(s: string): string {
    if s != [] && s[0] == ' ' then TrimStart(s[1..]) else s
  }

  function Trim(s: string): string {
    TrimStart(TrimEnd(s))
  }

  lemma {:induction false} TrimEndMeaning(s: string)
    ensures var r := TrimEnd(s); r <= s && Blank(s[|r|..]) && (r != "" ==> r[|r| - 1] != ' ')
    decreases |s|
  {
    if s != [] && s[|s| - 1] == ' ' {
      var init := s[..|s| - 1];
      TrimEndMeaning(init);
      var r := TrimEnd(init);
      assert forall i :: |r| <= i < |init| ==> s[i] == init[|r|..][i - |r|];
    }
  }

  lemma {:induction false} TrimStartMeaning(s: string)
    ensures var r := TrimStart(s);
      && |r| <= |s| && r == s[|s| - |r|..] && Blank(s[..|s| - |r|]) && (r != "" ==> r[0] != ' ')
    decreases |s|
  {
    if s != [] && s[0] == ' ' {
      var rest := s[1..];
      TrimStartMeaning(rest);
      var r := TrimStart(rest);
      assert forall i :: 1 <= i < |s| - |r| ==> s[i] == rest[..|rest| - |r|][i - 1];
    }
  }

  /** Only blanks go, and none is left at either end. */
  lemma TrimMeaning(s: string)
    ensures exists i, k :: Between(s, i, k, Trim(s))
    ensures Trim(s) != "" ==> Trim(s)[0] != ' ' && Trim(s)[|Trim(s)| - 1] != ' '
  {
    TrimEndMeaning(s);
    TrimStartMeaning(TrimEnd(s));
    TwoEnds(s, TrimEnd(s), Trim(s));
  }

  lemma TwoEnds(s: string, t: string, r: string)
    requires t <= s && Blank(s[|t|..]) && (t != "" ==> t[|t| - 1] != ' ')
    requires |r| <= |t| && r == t[|t| - |r|..] && Blank(t[..|t| - |r|])
    ensures exists i, k :: Between(s, i, k, r)
    ensures r != "" ==> r[|r| - 1] != ' '
  {
    var i, k := |t| - |r|, |t|;
    assert s[..i] == t[..i];
    assert s[i..k] == t[i..];
    assert Between(s, i, k, r);
  }

  predicate Between(s: string, i: int, k: int, r: string) {
    0 <= i <= k <= |s| && r == s[i..k] && Blank(s[..i]) && Blank(s[k..])
  }

  lemma Associate(a: string, b: string, c: string)
    ensures a + b + c == a + (b + c)
  {
  }
}
