/** Trimming text, as `str.strip` does and as the JSON parser does. */
module Text {
  /** What the JSON parser skips around a value. */
  predicate IsJsonSpace(c: char) {
    c == ' ' || c == '\t' || c == '\n' || c == '\r'
  }

  /** What `str.strip` removes. */
  predicate IsSpace(c: char) {
    var n := c as int;
    || 9 <= n <= 13 || 28 <= n <= 32 || n == 0x85 || n == 0xA0 || n == 0x1680 || 0x2000 <= n <= 0x200A
    || n == 0x2028 || n == 0x2029 || n == 0x202F || n == 0x205F || n == 0x3000
  }

  function TrimStart(s: string, space: char -> bool): string {
    if s != "" && space(s[0]) then TrimStart(s[1..], space) else s
  }

  function TrimEnd(s: string, space: char -> bool): string {
    if s != "" && space(s[|s| - 1]) then TrimEnd(s[..|s| - 1], space) else s
  }

  function Trim(s: string, space: char -> bool): string {
    TrimEnd(TrimStart(s, space), space)
  }

  /** str.strip() */
  function Strip(s: string): string {
    Trim(s, IsSpace)
  }

  /** What the parser makes of the text around a value. */
  function TrimJson(s: string): string {
    Trim(s, IsJsonSpace)
  }

  predicate All(s: string, space: char -> bool) {
    forall i :: 0 <= i < |s| ==> space(s[i])
  }

  /** Neither end is such a character. */
  predicate BareEnds(s: string, space: char -> bool) {
    s != "" ==> !space(s[0]) && !space(s[|s| - 1])
  }

  lemma {:induction false} TrimStartIs(p: string, m: string, space: char -> bool)
    requires All(p, space) && (m != "" ==> !space(m[0]))
    ensures TrimStart(p + m, space) == m
  {
    if p == "" {
      assert p + m == m;
    } else {
      TrimStartIs(p[1..], m, space);
      assert (p + m)[1..] == p[1..] + m;
    }
  }

  lemma {:induction false} TrimEndIs(m: string, q: string, space: char -> bool)
    requires All(q, space) && (m != "" ==> !space(m[|m| - 1]))
    ensures TrimEnd(m + q, space) == m
  {
    if q == "" {
      assert m + q == m;
    } else {
      TrimEndIs(m, q[..|q| - 1], space);
      assert (m + q)[..|m + q| - 1] == m + q[..|q| - 1];
    }
  }

  lemma {:induction false} TrimStartSplits(s: string, space: char -> bool) returns (p: string)
    ensures s == p + TrimStart(s, space) && All(p, space)
    ensures TrimStart(s, space) != "" ==> !space(TrimStart(s, space)[0])
  {
    if s != "" && space(s[0]) {
      var rest := TrimStartSplits(s[1..], space);
      p := [s[0]] + rest;
    } else {
      p := "";
    }
  }

  lemma {:induction false} TrimEndSplits(s: string, space: char -> bool) returns (q: string)
    ensures s == TrimEnd(s, space) + q && All(q, space)
    ensures TrimEnd(s, space) != "" ==> !space(TrimEnd(s, space)[|TrimEnd(s, space)| - 1])
  {
    if s != "" && space(s[|s| - 1]) {
      var rest := TrimEndSplits(s[..|s| - 1], space);
      q := rest + [s[|s| - 1]];
    } else {
      q := "";
    }
  }

  /** Trimming takes such characters off both ends, and leaves bare ends. */
  lemma TrimSplits(s: string, space: char -> bool) returns (p: string, q: string)
    ensures s == p + Trim(s, space) + q && All(p, space) && All(q, space)
    ensures BareEnds(Trim(s, space), space)
  {
    hide TrimStart, TrimEnd;
    p := TrimStartSplits(s, space);
    q := TrimEndSplits(TrimStart(s, space), space);
    assert Trim(s, space) != "" ==> Trim(s, space)[0] == TrimStart(s, space)[0];
  }

  /** There is one way to trim. */
  lemma TrimIs(p: string, m: string, q: string, space: char -> bool)
    requires All(p, space) && All(q, space) && BareEnds(m, space)
    ensures Trim(p + m + q, space) == m
  {
    if m == "" {
      TrimStartIs(p + m + q, "", space);
      assert p + m + q + "" == p + m + q;
    } else {
      TrimStartIs(p, m + q, space);
      assert p + m + q == p + (m + q);
      TrimEndIs(m, q, space);
    }
  }

  lemma BareIsTrimmed(s: string, space: char -> bool)
    ensures BareEnds(s, space) <==> Trim(s, space) == s
  {
    hide Trim;
    if BareEnds(s, space) {
      TrimIs("", s, "", space);
      assert "" + s + "" == s;
    }
    var p, q := TrimSplits(s, space);
  }

  /** Stripping does not mind if JSON white space is trimmed first. */
  lemma StripAfterTrim(s: string)
    ensures Strip(TrimJson(s)) == Strip(s)
  {
    hide Trim;
    var p, q := TrimSplits(s, IsJsonSpace);
    var p', q' := TrimSplits(TrimJson(s), IsSpace);
    var m := Strip(TrimJson(s));
    assert s == p + p' + m + (q' + q);
    TrimIs(p + p', m, q' + q, IsSpace);
  }

  /** No white space but JSON's stands at either end of the text. */
  predicate PlainEnds(s: string) {
    BareEnds(TrimJson(s), IsSpace)
  }

  /** Exactly then trimming gives the same for the text and for what strip leaves of it. */
  lemma PlainEndsTrimAlike(s: string)
    ensures PlainEnds(s) <==> TrimJson(s) == Strip(s)
    ensures TrimJson(Strip(s)) == Strip(s)
  {
    hide Trim;
    StripAfterTrim(s);
    BareIsTrimmed(TrimJson(s), IsSpace);
    var p, q := TrimSplits(s, IsSpace);
    BareIsTrimmed(Strip(s), IsJsonSpace);
  }
}
