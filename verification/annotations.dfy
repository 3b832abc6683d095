/**
 Reading a Python type annotation back from its text: a name, a name applied to arguments
 in brackets, or alternatives between bars. Quoted text and anything in brackets is passed
 over, as Python does.
 */
module Annotations {
  import opened Collections

  datatype Annotation =
    | Named(name: string)
    | Applied(head: string, args: seq<Annotation>)
    | OneOf(parts: seq<Annotation>)

  /** Where a scan of a text is; a negative depth means a bracket or comma out of place, and stays. */
  datatype Scan = Scan(depth: int, quote: Option<char>, escaped: bool)

  const OUTSIDE := Scan(0, None, false)
  const INSIDE := Scan(1, None, false)
  const BAR := " | "
  const COMMA := ", "

  function Next(s: Scan, c: char): Scan {
    if s.depth < 0 then s
    else if s.quote.Some? then
      if s.escaped then s.(escaped := false)
      else if c == '\\' then s.(escaped := true)
      else if c == s.quote.value then s.(quote := None)
      else s
    else if c == '\'' || c == '\"' then s.(quote := Some(c))
    else if c == '[' || c == '(' || c == '{' then s.(depth := s.depth + 1)
    else if c == ']' || c == ')' || c == '}' then s.(depth := s.depth - 1)
    else if c == ',' && s.depth == 0 then s.(depth := -1)
    else s
  }

  /** The scan after a text. */
  function Run(s: Scan, text: string): Scan {
    if text == [] then s else Next(Run(s, text[..|text| - 1]), text[|text| - 1])
  }

  /** The separator is here, outside of brackets and quotes. */
  predicate At(text: string, i: nat, sep: string) {
    i + |sep| <= |text| && text[i..i + |sep|] == sep && Run(OUTSIDE, text[..i]) == OUTSIDE
  }

  /** The first place of a separator, from i on. */
  function Find(text: string, i: nat, sep: string): (place: Option<nat>)
    ensures place.Some? ==> i <= place.value && place.value + |sep| <= |text| && At(text, place.value, sep)
    ensures forall j :: i <= j < (if place.Some? then place.value else |text|) ==> !At(text, j, sep)
    decreases |text| - i
  {
    if i >= |text| then None else if At(text, i, sep) then Some(i) else Find(text, i + 1, sep)
  }

  function Split(text: string, sep: string): (parts: seq<string>)
    requires sep != []
    ensures parts != [] && forall k :: 0 <= k < |parts| ==> |parts[k]| <= |text|
    decreases |text|
  {
    var place := Find(text, 0, sep);
    if place.None? then [text] else [text[..place.value]] + Split(text[place.value + |sep|..], sep)
  }

  /** One alternative stands for itself. */
  function Either(parts: seq<Annotation>): Annotation {
    if |parts| == 1 then parts[0] else OneOf(parts)
  }

  function Alternatives(a: Annotation): seq<Annotation> {
    if a.OneOf? then a.parts else [a]
  }

  function IndexOf(text: string, c: char): (i: nat)
    requires c in text
    ensures i < |text| && text[i] == c && c !in text[..i]
  {
    if text[0] == c then 0 else 1 + IndexOf(text[1..], c)
  }

  lemma {:induction false} IndexIs(text: string, c: char, i: nat)
    requires i < |text| && text[i] == c && c !in text[..i]
    ensures IndexOf(text, c) == i
  {
    if i > 0 {
      assert text[..i][0] == text[0] && forall k :: 0 <= k < i - 1 ==> text[1..][k] == text[..i][k + 1];
      IndexIs(text[1..], c, i - 1);
    }
  }

  function Read(text: string): Annotation
    decreases |text|, 1
  {
    var parts := Split(text, BAR);
    Either(seq(|parts|, k requires 0 <= k < |parts| => ReadOne(parts[k])))
  }

  /** A text without alternatives. */
  function ReadOne(text: string): (a: Annotation)
    ensures !a.OneOf?
    decreases |text|, 0
  {
    if text != [] && text[|text| - 1] == ']' && '[' in text[..|text| - 1] then
      var i := IndexOf(text[..|text| - 1], '[');
      var args := Split(text[i + 1..|text| - 1], COMMA);
      Applied(text[..i], seq(|args|, k requires 0 <= k < |args| => Read(args[k])))
    else
      Named(text)
  }

  // ------------------------------------------------------------------ scanning

  lemma {:induction false} RunAppend(s: Scan, a: string, b: string)
    ensures Run(s, a + b) == Run(Run(s, a), b)
  {
    if b == [] {
      assert a + b == a;
    } else {
      assert (a + b)[..|a + b| - 1] == a + b[..|b| - 1];
      RunAppend(s, a, b[..|b| - 1]);
    }
  }

  lemma {:induction false} BrokenStays(s: Scan, text: string)
    requires s.depth < 0
    ensures Run(s, text) == s
  {
    if text != [] {
      BrokenStays(s, text[..|text| - 1]);
    }
  }

  /** What does not break a scan, does not break it within more brackets either. */
  lemma {:induction false} Deeper(s: Scan, text: string, more: nat)
    requires Run(s, text).depth >= 0
    ensures Run(s.(depth := s.depth + more), text) == Run(s, text).(depth := Run(s, text).depth + more)
  {
    if text != [] {
      Deeper(s, text[..|text| - 1], more);
    }
  }

  /** Brackets and quotes close, no comma is outside of them, and no bar is last: one type, on its own. */
  predicate Whole(text: string) {
    Run(OUTSIDE, text) == OUTSIDE && (text == [] || text[|text| - 1] != '|')
  }

  /** Letters, digits and underscores, or at least nothing that separates. */
  predicate Word(text: string) {
    forall c :: c in text ==> c !in "[](){}'\",| "
  }

  /** A text that stays in the brackets around it. */
  ghost predicate Enclosed(text: string) {
    Run(INSIDE, text) == INSIDE && forall j :: 0 <= j <= |text| ==> Run(INSIDE, text[..j]).depth >= 1
  }

  lemma {:induction false} WordRuns(s: Scan, text: string)
    requires Word(text) && s.quote.None? && !s.escaped
    ensures Run(s, text) == s
  {
    if text != [] {
      var last := text[|text| - 1];
      assert last in text;
      assert forall c :: c in text[..|text| - 1] ==> c in text;
      WordRuns(s, text[..|text| - 1]);
    }
  }

  lemma PrefixUnbroken(text: string, j: nat)
    requires j <= |text| && Run(OUTSIDE, text).depth >= 0
    ensures Run(OUTSIDE, text[..j]).depth >= 0
  {
    assert text == text[..j] + text[j..];
    RunAppend(OUTSIDE, text[..j], text[j..]);
    if Run(OUTSIDE, text[..j]).depth < 0 {
      BrokenStays(Run(OUTSIDE, text[..j]), text[j..]);
    }
  }

  lemma WholeIsEnclosed(text: string)
    requires Whole(text)
    ensures Enclosed(text)
  {
    forall j | 0 <= j <= |text| ensures Run(INSIDE, text[..j]).depth >= 1 {
      PrefixUnbroken(text, j);
      Deeper(OUTSIDE, text[..j], 1);
    }
    Deeper(OUTSIDE, text, 1);
  }

  // ------------------------------------------------------------------ splitting

  lemma NotAt(text: string, i: nat, sep: string, k: nat)
    requires k < |sep| && i + k < |text| && text[i + k] != sep[k]
    ensures !At(text, i, sep)
  {
    if i + |sep| <= |text| {
      assert text[i..i + |sep|][k] == text[i + k];
    }
  }

  lemma AtParts(text: string, i: nat, sep: string)
    requires i + |sep| <= |text| && At(text, i, sep)
    ensures text == text[..i] + sep + text[i + |sep|..] && Run(OUTSIDE, text[..i]) == OUTSIDE
  {
  }

  lemma AtWithin(a: string, rest: string, i: nat, sep: string)
    requires i + |sep| <= |a|
    ensures At(a + rest, i, sep) <==> At(a, i, sep)
  {
    assert (a + rest)[..i] == a[..i];
    assert (a + rest)[i..i + |sep|] == a[i..i + |sep|];
  }

  lemma SplitStep(text: string, sep: string)
    requires sep != []
    ensures var place := Find(text, 0, sep);
      Split(text, sep) ==
        if place.None? then [text] else [text[..place.value]] + Split(text[place.value + |sep|..], sep)
  {
    hide At, Run, Find;
  }

  lemma SplitNone(text: string, sep: string)
    requires sep != [] && forall j :: 0 <= j < |text| ==> !At(text, j, sep)
    ensures Split(text, sep) == [text]
  {
    hide *;
    SplitStep(text, sep);
  }

  lemma SplitAt(text: string, i: nat, sep: string)
    requires sep != [] && i + |sep| <= |text| && At(text, i, sep) && forall j :: 0 <= j < i ==> !At(text, j, sep)
    ensures Split(text, sep) == [text[..i]] + Split(text[i + |sep|..], sep)
  {
    hide *;
    SplitStep(text, sep);
    assert Find(text, 0, sep) == Some(i);
  }

  /** No separator lies across the end of a text that is followed by one. */
  lemma NoneAcross(a: string, b: string, sep: string, j: nat)
    requires sep == BAR || sep == COMMA
    requires j < |a| < j + |sep| && (a == [] || a[|a| - 1] != '|')
    ensures !At(a + sep + b, j, sep)
  {
    assert (a + sep + b)[|a|] == sep[0] && (a + sep + b)[|a| - 1] == a[|a| - 1];
    NotAt(a + sep + b, j, sep, 1);
  }

  lemma SplitAfter(a: string, b: string, sep: string)
    requires sep == BAR || sep == COMMA
    requires Run(OUTSIDE, a) == OUTSIDE && (a == [] || a[|a| - 1] != '|')
    requires forall j :: 0 <= j < |a| ==> !At(a, j, sep)
    ensures Split(a + sep + b, sep) == [a] + Split(b, sep)
  {
    hide Split, Find, Run;
    var text := a + sep + b;
    forall j | 0 <= j < |a| ensures !At(text, j, sep) {
      if j + |sep| <= |a| {
        AtWithin(a, sep + b, j, sep);
        assert text == a + (sep + b);
      } else {
        NoneAcross(a, b, sep, j);
      }
    }
    assert text[..|a|] == a && text[|a|..|a| + |sep|] == sep && text[|a| + |sep|..] == b;
    SplitAt(text, |a|, sep);
  }

  lemma RestIsWhole(a: string, i: nat)
    requires Whole(a) && i + 3 <= |a| && At(a, i, BAR)
    ensures Whole(a[i + 3..])
  {
    hide At, Run;
    AtParts(a, i, BAR);
    RunAppend(OUTSIDE, a[..i] + BAR, a[i + 3..]);
    RunAppend(OUTSIDE, a[..i], BAR);
    BarIsOutside();
  }

  lemma WholeIs(a: string)
    requires Whole(a)
    ensures Run(OUTSIDE, a) == OUTSIDE && (a == [] || a[|a| - 1] != '|')
  {
  }

  lemma BarIsOutside()
    ensures Run(OUTSIDE, BAR) == OUTSIDE
  {
    assert BAR[..2] == " |" && BAR[..2][..1] == " ";
    assert Run(OUTSIDE, " ") == OUTSIDE;
    assert Run(OUTSIDE, " |") == OUTSIDE;
  }

  lemma FirstOfTwo(a: string, b: string, i: nat)
    requires i + 3 <= |a| && At(a, i, BAR) && forall j :: 0 <= j < i ==> !At(a, j, BAR)
    ensures Split(a + BAR + b, BAR) == [(a + BAR + b)[..i]] + Split((a + BAR + b)[i + 3..], BAR)
  {
    hide Split, Find, At, Run;
    var text := a + BAR + b;
    assert text == a + (BAR + b);
    forall j | 0 <= j <= i ensures At(text, j, BAR) <==> At(a, j, BAR) {
      AtWithin(a, BAR + b, j, BAR);
    }
    SplitAt(text, i, BAR);
  }

  lemma {:induction false} SplitBars(a: string, b: string)
    requires Whole(a)
    ensures Split(a + BAR + b, BAR) == Split(a, BAR) + Split(b, BAR)
    decreases |a|
  {
    hide At, Split, Find, Run, Whole;
    var place := Find(a, 0, BAR);
    if place.None? {
      WholeIs(a);
      SplitNone(a, BAR);
      SplitAfter(a, b, BAR);
    } else {
      var i := place.value;
      var rest := a[i + 3..];
      RestIsWhole(a, i);
      SplitBars(rest, b);
      SplitAt(a, i, BAR);
      FirstOfTwo(a, b, i);
      assert (a + BAR + b)[i + 3..] == rest + BAR + b;
      assert (a + BAR + b)[..i] == a[..i];
    }
  }

  /** A whole text has no comma outside of brackets. */
  lemma NoComma(a: string)
    requires Whole(a)
    ensures Split(a, COMMA) == [a]
    ensures forall j :: 0 <= j < |a| ==> !At(a, j, COMMA)
  {
    hide Split, Find;
    forall j | 0 <= j < |a| ensures !At(a, j, COMMA) {
      PrefixUnbroken(a, j + 1);
      assert a[..j + 1][..j] == a[..j];
      assert Run(OUTSIDE, a[..j + 1]) == Next(Run(OUTSIDE, a[..j]), a[j]);
      if a[j] != COMMA[0] {
        NotAt(a, j, COMMA, 0);
      }
    }
    SplitNone(a, COMMA);
  }

  lemma SplitPair(a: string, b: string)
    requires Whole(a) && Whole(b)
    ensures Split(a + COMMA + b, COMMA) == [a, b]
  {
    NoComma(a);
    NoComma(b);
    SplitAfter(a, b, COMMA);
  }

  // ------------------------------------------------------------------ reading

  lemma WordReads(text: string)
    requires Word(text)
    ensures Whole(text) && Split(text, BAR) == [text] && Read(text) == Named(text)
  {
    WordRuns(OUTSIDE, text);
    forall j | 0 <= j < |text| ensures !At(text, j, BAR) {
      assert text[j] in text;
      NotAt(text, j, BAR, 0);
    }
    SplitNone(text, BAR);
    assert text != [] ==> text[|text| - 1] in text;
  }

  function Bracketed(head: string, inner: string): string {
    head + "[" + inner + "]"
  }

  /** Within the brackets of a name, no bar separates. */
  lemma BracketsRun(head: string, inner: string, j: nat)
    requires Word(head) && Enclosed(inner) && |head| < j < |Bracketed(head, inner)|
    ensures Run(OUTSIDE, Bracketed(head, inner)[..j]).depth >= 1
    ensures j == |Bracketed(head, inner)| - 1 ==> Run(OUTSIDE, Bracketed(head, inner)[..j]) == INSIDE
  {
    var k := j - |head| - 1;
    assert Bracketed(head, inner)[..j] == head + "[" + inner[..k];
    RunAppend(OUTSIDE, head + "[", inner[..k]);
    RunAppend(OUTSIDE, head, "[");
    WordRuns(OUTSIDE, head);
    assert Run(OUTSIDE, "[") == INSIDE;
    assert k == |inner| ==> inner[..k] == inner;
  }

  lemma BracketedIsWhole(head: string, inner: string)
    requires Word(head) && Enclosed(inner)
    ensures Whole(Bracketed(head, inner)) && Split(Bracketed(head, inner), BAR) == [Bracketed(head, inner)]
  {
    var text := Bracketed(head, inner);
    BracketsRun(head, inner, |text| - 1);
    assert text[|text| - 1] == ']';
    forall j | 0 <= j < |text| ensures !At(text, j, BAR) {
      if j <= |head| {
        assert j < |head| ==> text[j] == head[j] && head[j] in head;
        NotAt(text, j, BAR, 0);
      } else {
        BracketsRun(head, inner, j);
      }
    }
    SplitNone(text, BAR);
  }

  lemma BracketedReads(head: string, inner: string)
    requires Word(head) && Enclosed(inner)
    ensures var args := Split(inner, COMMA);
      Read(Bracketed(head, inner)) == Applied(head, seq(|args|, k requires 0 <= k < |args| => Read(args[k])))
  {
    var text := Bracketed(head, inner);
    BracketedIsWhole(head, inner);
    var front := text[..|text| - 1];
    assert front == head + "[" + inner && text[|text| - 1] == ']';
    assert front[|head|] == '[';
    assert '[' !in head;
    assert front[..|head|] == head;
    IndexIs(front, '[', |head|);
    var i := |head|;
    assert text[..i] == head && text[i + 1..|text| - 1] == inner;
  }

  // ------------------------------------------------------------------ nothing is lost

  function Joined(parts: seq<string>, sep: string): string {
    if parts == [] then ""
    else if |parts| == 1 then parts[0]
    else Joined(parts[..|parts| - 1], sep) + sep + parts[|parts| - 1]
  }

  /** The text of an annotation. */
  function Print(a: Annotation): string {
    match a
    case Named(name) => name
    case Applied(head, args) =>
      Bracketed(head, Joined(seq(|args|, k requires 0 <= k < |args| => Print(args[k])), COMMA))
    case OneOf(parts) => Joined(seq(|parts|, k requires 0 <= k < |parts| => Print(parts[k])), BAR)
  }

  lemma {:induction false} JoinedFirst(first: string, rest: seq<string>, sep: string)
    requires rest != []
    ensures Joined([first] + rest, sep) == first + sep + Joined(rest, sep)
  {
    var parts := [first] + rest;
    if |rest| == 1 {
      assert parts[..1] == [first];
    } else {
      assert parts[..|parts| - 1] == [first] + rest[..|rest| - 1];
      JoinedFirst(first, rest[..|rest| - 1], sep);
    }
  }

  lemma {:induction false} SplitJoined(text: string, sep: string)
    requires sep != []
    ensures Joined(Split(text, sep), sep) == text
    decreases |text|
  {
    hide At, Run, Find, Split;
    var place := Find(text, 0, sep);
    if place.None? {
      SplitNone(text, sep);
    } else {
      var rest := text[place.value + |sep|..];
      AtParts(text, place.value, sep);
      SplitAt(text, place.value, sep);
      SplitJoined(rest, sep);
      JoinedFirst(text[..place.value], Split(rest, sep), sep);
    }
  }

  /** Reading loses nothing: printing what was read gives the text, for every text there is. */
  lemma {:induction false} PrintRead(text: string)
    ensures Print(Read(text)) == text
    decreases |text|, 1
  {
    var parts := Split(text, BAR);
    forall k | 0 <= k < |parts| ensures Print(ReadOne(parts[k])) == parts[k] {
      PrintReadOne(parts[k]);
    }
    var read := seq(|parts|, k requires 0 <= k < |parts| => ReadOne(parts[k]));
    assert seq(|read|, k requires 0 <= k < |read| => Print(read[k])) == parts;
    SplitJoined(text, BAR);
  }

  lemma {:induction false} PrintReadOne(text: string)
    ensures Print(ReadOne(text)) == text
    decreases |text|, 0
  {
    hide Split, Find, At, Run, Joined;
    if ReadOne(text).Applied? {
      var i := IndexOf(text[..|text| - 1], '[');
      var inner := text[i + 1..|text| - 1];
      var args := Split(inner, COMMA);
      forall k | 0 <= k < |args| ensures Print(Read(args[k])) == args[k] {
        PrintRead(args[k]);
      }
      var read := seq(|args|, k requires 0 <= k < |args| => Read(args[k]));
      assert seq(|read|, k requires 0 <= k < |read| => Print(read[k])) == args;
      SplitJoined(inner, COMMA);
      assert text == Bracketed(text[..i], inner);
    }
  }

  // ------------------------------------------------------------------ reading what is composed

  lemma EnclosedPair(a: string, b: string)
    requires Enclosed(a) && Enclosed(b)
    ensures Enclosed(a + COMMA + b)
  {
    hide Run;
    var text := a + COMMA + b;
    forall j | 0 <= j <= |text|
      ensures Run(INSIDE, text[..j]).depth >= 1 && (j == |text| ==> Run(INSIDE, text[..j]) == INSIDE)
    {
      CommaIsInside(a);
      if j <= |a| {
        assert text[..j] == a[..j];
        assert j == |a| ==> a[..j] == a;
      } else if j == |a| + 1 {
        assert text[..j] == a + ",";
      } else {
        var k := j - |a| - 2;
        assert text[..j] == a + COMMA + b[..k];
        RunAppend(INSIDE, a + COMMA, b[..k]);
        assert k == |b| ==> b[..k] == b;
      }
    }
    assert text[..|text|] == text;
  }

  lemma CommaIsInside(a: string)
    requires Run(INSIDE, a) == INSIDE
    ensures Run(INSIDE, a + ",") == INSIDE && Run(INSIDE, a + COMMA) == INSIDE
  {
    assert (a + ",")[..|a|] == a;
    assert (a + COMMA)[..|a| + 1] == a + ",";
  }

  /** A name with one type in brackets. */
  lemma OneArgument(head: string, arg: string)
    requires Word(head) && Whole(arg)
    ensures var text := Bracketed(head, arg);
      Whole(text) && Read(text) == Applied(head, [Read(arg)])
  {
    hide Word, Whole, Enclosed, Split, Read;
    WholeIsEnclosed(arg);
    BracketedIsWhole(head, arg);
    NoComma(arg);
    BracketedReads(head, arg);
    assert seq(1, k requires 0 <= k < 1 => Read([arg][k])) == [Read(arg)];
  }

  /** A name with two types in brackets. */
  lemma TwoArguments(head: string, first: string, second: string)
    requires Word(head) && Whole(first) && Whole(second)
    ensures var text := Bracketed(head, first + COMMA + second);
      Whole(text) && Read(text) == Applied(head, [Read(first), Read(second)])
  {
    hide Word, Whole, Enclosed, Split, Read;
    WholeIsEnclosed(first);
    WholeIsEnclosed(second);
    EnclosedPair(first, second);
    BracketedIsWhole(head, first + COMMA + second);
    SplitPair(first, second);
    BracketedReads(head, first + COMMA + second);
    assert seq(2, k requires 0 <= k < 2 => Read([first, second][k])) == [Read(first), Read(second)];
  }

  lemma ReadAlternatives(text: string)
    ensures var parts := Split(text, BAR);
      Alternatives(Read(text)) == seq(|parts|, k requires 0 <= k < |parts| => ReadOne(parts[k]))
    ensures Read(text) == Either(Alternatives(Read(text))) && Alternatives(Read(text)) != []
  {
    hide Split, ReadOne;
  }

  lemma ReadIsEither(text: string)
    ensures Read(text) == Either(Alternatives(Read(text)))
  {
    hide Read;
    ReadAlternatives(text);
  }

  /** A bar puts the alternatives of two types together. */
  lemma BarReads(a: string, b: string)
    requires Whole(a) && Whole(b)
    ensures Whole(a + BAR + b)
    ensures Alternatives(Read(a + BAR + b)) == Alternatives(Read(a)) + Alternatives(Read(b))
  {
    hide Split, ReadOne, Run, Read, Alternatives;
    SplitBars(a, b);
    ReadAlternatives(a);
    ReadAlternatives(b);
    ReadAlternatives(a + BAR + b);
    RunAppend(OUTSIDE, a + BAR, b);
    RunAppend(OUTSIDE, a, BAR);
    BarIsOutside();
  }

  function AllAlternatives(types: seq<Annotation>): seq<Annotation> {
    Flatten(seq(|types|, k requires 0 <= k < |types| => Alternatives(types[k])))
  }

  lemma AlternativesNext(types: seq<Annotation>)
    requires types != []
    ensures AllAlternatives(types) == AllAlternatives(types[..|types| - 1]) + Alternatives(types[|types| - 1])
  {
    var front := types[..|types| - 1];
    var all := seq(|types|, k requires 0 <= k < |types| => Alternatives(types[k]));
    assert all[..|types| - 1] == seq(|front|, k requires 0 <= k < |front| => Alternatives(front[k]));
  }

  function ReadAll(texts: seq<string>): (types: seq<Annotation>)
    ensures |types| == |texts| && forall k :: 0 <= k < |types| ==> types[k] == Read(texts[k])
  {
    seq(|texts|, k requires 0 <= k < |texts| => Read(texts[k]))
  }

  /** Types between bars read as all their alternatives. */
  lemma {:induction false} JoinedReads(texts: seq<string>)
    requires texts != [] && forall k :: 0 <= k < |texts| ==> Whole(texts[k])
    ensures Whole(Joined(texts, BAR))
    ensures Alternatives(Read(Joined(texts, BAR))) == AllAlternatives(ReadAll(texts))
  {
    hide Whole, Read, Alternatives, AllAlternatives;
    var front, last := texts[..|texts| - 1], texts[|texts| - 1];
    AlternativesNext(ReadAll(texts));
    assert ReadAll(texts)[..|texts| - 1] == ReadAll(front);
    if front == [] {
      NoAlternatives();
    } else {
      JoinedReads(front);
      BarReads(Joined(front, BAR), last);
    }
  }

  lemma NoAlternatives()
    ensures AllAlternatives([]) == []
  {
  }

  /** Different texts read differently, so repeats are the same among texts and among what they say. */
  lemma {:induction false} RepeatsRead(texts: seq<string>)
    ensures WithoutRepeats(ReadAll(texts)) == ReadAll(WithoutRepeats(texts))
  {
    hide Read;
    if texts != [] {
      var front, last := texts[..|texts| - 1], texts[|texts| - 1];
      RepeatsRead(front);
      assert ReadAll(texts)[..|texts| - 1] == ReadAll(front);
      var kept := WithoutRepeats(front);
      if Read(last) in ReadAll(kept) {
        var k :| 0 <= k < |kept| && Read(kept[k]) == Read(last);
        PrintRead(kept[k]);
        PrintRead(last);
      }
    }
  }

  // ------------------------------------------------------------------ names

  /** Every name in an annotation. */
  ghost function Names(a: Annotation): set<string> {
    match a
    case Named(name) => {name}
    case Applied(head, args) => {head} + set k, n | 0 <= k < |args| && n in Names(args[k]) :: n
    case OneOf(parts) => set k, n | 0 <= k < |parts| && n in Names(parts[k]) :: n
  }

  ghost predicate NamedIn(n: string, types: seq<Annotation>) {
    exists k :: 0 <= k < |types| && n in Names(types[k])
  }

  lemma NamesOfEither(types: seq<Annotation>, n: string)
    ensures n in Names(Either(types)) <==> NamedIn(n, types)
  {
  }

  lemma NamesOfAlternatives(a: Annotation, n: string)
    ensures NamedIn(n, Alternatives(a)) <==> n in Names(a)
  {
    if !a.OneOf? {
      assert Alternatives(a)[0] == a;
    }
  }

  lemma NamedInBoth(a: seq<Annotation>, b: seq<Annotation>, n: string)
    ensures NamedIn(n, a + b) <==> NamedIn(n, a) || NamedIn(n, b)
  {
    hide Names;
    if k :| 0 <= k < |a| && n in Names(a[k]) {
      assert (a + b)[k] == a[k];
    } else if k :| 0 <= k < |b| && n in Names(b[k]) {
      assert (a + b)[|a| + k] == b[k];
    }
  }

  lemma {:induction false} NamesOfAll(types: seq<Annotation>, n: string)
    ensures NamedIn(n, AllAlternatives(types)) <==> NamedIn(n, types)
  {
    hide Names, Alternatives, AllAlternatives;
    if types == [] {
      NoAlternatives();
    } else {
      var front, last := types[..|types| - 1], types[|types| - 1];
      AlternativesNext(types);
      NamesOfAll(front, n);
      NamesOfAlternatives(last, n);
      NamedInBoth(AllAlternatives(front), Alternatives(last), n);
      NamedInBoth(front, [last], n);
      assert types == front + [last] && [last][0] == last;
    }
  }

  // ------------------------------------------------------------------ splitting without reading

  predicate Here(text: string, i: nat, sep: string) {
    i + |sep| <= |text| && text[i..i + |sep|] == sep
  }

  function FindPlain(text: string, i: nat, sep: string): (place: Option<nat>)
    ensures place.Some? ==> i <= place.value && place.value + |sep| <= |text| && Here(text, place.value, sep)
    ensures forall j :: i <= j < (if place.Some? then place.value else |text|) ==> !Here(text, j, sep)
    decreases |text| - i
  {
    if i >= |text| then None else if Here(text, i, sep) then Some(i) else FindPlain(text, i + 1, sep)
  }

  /** The parts of a text between the occurrences of a separator, in brackets or not. */
  function SplitPlain(text: string, sep: string): seq<string>
    requires sep != []
    decreases |text|
  {
    var place := FindPlain(text, 0, sep);
    if place.None? then [text] else [text[..place.value]] + SplitPlain(text[place.value + |sep|..], sep)
  }

  /** Parts without the separator's first character come apart at the separator. */
  lemma SplitPlainAfter(a: string, b: string, sep: string)
    requires sep != [] && sep[0] !in a
    ensures SplitPlain(a + sep + b, sep) == [a] + SplitPlain(b, sep)
  {
    var text := a + sep + b;
    assert Here(text, |a|, sep) by {
      assert text[|a|..|a| + |sep|] == sep;
    }
    forall j | 0 <= j < |a| ensures !Here(text, j, sep) {
      assert text[j] == a[j] && a[j] in a;
      assert j + |sep| <= |text| ==> text[j..j + |sep|][0] == text[j];
    }
    assert FindPlain(text, 0, sep) == Some(|a|);
    assert text[..|a|] == a && text[|a| + |sep|..] == b;
  }
}
