/**
 Sampling a JSONL file in two passes (src/olmo_eval/data/helmet_loader.py), against sampling
 after loading it whole. The sampled keys and the permutation are any the generators return.
 */
module Sampling {
  import opened Collections
  import opened Reservoir
  import opened Text

  /** A JSON value, as far as sampling looks at it. */
  datatype Json = Null | Object(fields: string) | Other(text: string)

  datatype Key = Key(text: string)

  /**
   What is not modelled in full: the JSON grammar (`core` gives the value of a text that has nothing
   around it, None if it is not JSON), which rows to keep, and a row's key.
   */
  datatype Reader = Reader(
    core: string -> Option<Json>,
    keep: Json -> bool,
    key: Json -> Option<Key>)
  {
    /** json.loads */
    function Parse(text: string): Option<Json> {
      core(TrimJson(text))
    }

    /** No JSON value begins or ends with white space of any kind. */
    ghost predicate Sane() {
      forall t :: core(t).Some? ==> BareEnds(t, IsSpace)
    }
  }

  /** A line parses the same stripped and not, exactly when no white space but JSON's is at its ends. */
  lemma ParsesAlike(line: string, g: Reader)
    requires g.Sane() && g.Parse(Strip(line)).Some?
    ensures g.Parse(line) == g.Parse(Strip(line)) <==> PlainEnds(line)
  {
    hide Strip, TrimJson;
    PlainEndsTrimAlike(line);
  }

  // ------------------------------------------------------------------ a full load

  predicate IsObject(row: Option<Json>) {
    row.Some? && row.value.Object?
  }

  /** The objects of a file; None if a non-blank line is anything else. */
  function Loaded(lines: seq<string>, g: Reader): (r: Option<seq<Json>>)
    ensures r.Some? ==> |r.value| == |Rows(lines)|
  {
    if lines == [] then Some([])
    else
      var front, line := Loaded(lines[..|lines| - 1], g), Strip(lines[|lines| - 1]);
      if front.None? || line == "" then front
      else
        var row := g.Parse(line);
        if IsObject(row) then Some(front.value + [row.value]) else None
  }

  /** A file loads exactly when every non-blank line is an object, and then line by line. */
  lemma {:induction false} LoadedAre(lines: seq<string>, g: Reader)
    ensures Loaded(lines, g).Some? <==> forall row :: row in Rows(lines) ==> IsObject(g.Parse(row))
    ensures Loaded(lines, g).Some? ==> forall i :: 0 <= i < |Rows(lines)| ==>
      g.Parse(Rows(lines)[i]) == Some(Loaded(lines, g).value[i])
  {
    if lines != [] {
      LoadedAre(lines[..|lines| - 1], g);
    }
  }

  /** _load_jsonl */
  method LoadJsonl(lines: seq<string>, g: Reader) returns (r: Option<seq<Json>>)
    ensures r == Loaded(lines, g)
  {
    hide Strip, TrimJson, Rows;
    var records: seq<Json> := [];
    for n := 0 to |lines|
      invariant Loaded(lines[..n], g) == Some(records)
    {
      LoadedNext(lines, n, g);
      var line := Strip(lines[n]);
      if line == "" {
        continue;
      }
      var row := g.Parse(line);
      if !IsObject(row) {
        LoadedNoMore(lines, n + 1, g);
        return None;
      }
      records := records + [row.value];
    }
    assert lines[..|lines|] == lines;
    return Some(records);
  }

  lemma LoadedNext(lines: seq<string>, n: nat, g: Reader)
    requires n < |lines|
    ensures lines[..n + 1] != [] && lines[..n + 1][..n] == lines[..n]
  {
  }

  lemma {:induction false} LoadedNoMore(lines: seq<string>, n: nat, g: Reader)
    requires n <= |lines| && Loaded(lines[..n], g).None?
    ensures Loaded(lines, g).None?
  {
    if n < |lines| {
      assert lines[..|lines| - 1][..n] == lines[..n];
      LoadedNoMore(lines[..|lines| - 1], n, g);
    } else {
      assert lines[..n] == lines;
    }
  }

  // ------------------------------------------------------------------ rows

  /** The line numbers of the non-blank lines. */
  function Positions(lines: seq<string>): (positions: seq<nat>)
    ensures |positions| == |Rows(lines)|
    ensures forall i :: 0 <= i < |positions| ==> positions[i] < |lines|
  {
    if lines == [] then []
    else
      var front := Positions(lines[..|lines| - 1]);
      if Strip(lines[|lines| - 1]) == "" then front else front + [|lines| - 1]
  }

  lemma PositionsNext(lines: seq<string>)
    requires lines != []
    ensures var n := |lines| - 1;
      var blank := Strip(lines[n]) == "";
      && Positions(lines) == (if blank then Positions(lines[..n]) else Positions(lines[..n]) + [n])
      && Rows(lines) == (if blank then Rows(lines[..n]) else Rows(lines[..n]) + [Strip(lines[n])])
  {
    hide Strip;
  }

  lemma {:induction false} PositionIs(lines: seq<string>, i: nat)
    requires i < |Positions(lines)|
    ensures Strip(lines[Positions(lines)[i]]) == Rows(lines)[i]
  {
    hide Strip, Positions, Rows;
    if lines != [] {
      var n := |lines| - 1;
      PositionsNext(lines);
      if i < |Positions(lines[..n])| {
        PositionIs(lines[..n], i);
      }
    }
  }

  lemma {:induction false} PositionsRise(lines: seq<string>, i: nat, j: nat)
    requires i < j < |Positions(lines)|
    ensures Positions(lines)[i] < Positions(lines)[j]
  {
    hide Strip, Positions, Rows;
    if lines != [] {
      var n := |lines| - 1;
      PositionsNext(lines);
      if j < |Positions(lines[..n])| {
        PositionsRise(lines[..n], i, j);
      }
    }
  }

  lemma {:induction false} EveryPosition(lines: seq<string>, n: nat)
    requires n < |lines|
    ensures Strip(lines[n]) != "" <==> n in Positions(lines)
  {
    hide Strip, Positions, Rows;
    PositionsNext(lines);
    if n < |lines| - 1 {
      EveryPosition(lines[..|lines| - 1], n);
    }
  }

  /** The positions are those of the non-blank lines, in file order. */
  lemma PositionsAre(lines: seq<string>)
    ensures forall n :: 0 <= n < |lines| ==> (Strip(lines[n]) != "" <==> n in Positions(lines))
    ensures forall i :: 0 <= i < |Positions(lines)| ==> Strip(lines[Positions(lines)[i]]) == Rows(lines)[i]
    ensures forall i, j :: 0 <= i < j < |Positions(lines)| ==> Positions(lines)[i] < Positions(lines)[j]
  {
    hide *;
    forall n | 0 <= n < |lines| ensures Strip(lines[n]) != "" <==> n in Positions(lines) {
      EveryPosition(lines, n);
    }
    forall i | 0 <= i < |Positions(lines)| ensures Strip(lines[Positions(lines)[i]]) == Rows(lines)[i] {
      PositionIs(lines, i);
    }
    forall i, j | 0 <= i < j < |Positions(lines)| ensures Positions(lines)[i] < Positions(lines)[j] {
      PositionsRise(lines, i, j);
    }
  }

  /** permutation[:m]: a negative m counts from the end. */
  function Slice(permutation: seq<nat>, m: int): (s: seq<nat>)
    ensures s <= permutation
    ensures m >= 0 ==> |s| == if m < |permutation| then m else |permutation|
    ensures m < 0 ==> |s| == if |permutation| + m > 0 then |permutation| + m else 0
  {
    var n := |permutation|;
    if m < 0 then (if n + m < 0 then [] else permutation[..n + m])
    else if m < n then permutation[..m] else permutation
  }

  predicate IsPermutation(permutation: seq<nat>, n: nat) {
    |permutation| == n && Distinct(permutation) && forall i :: 0 <= i < n ==> permutation[i] < n
  }

  function Through<T>(items: seq<T>, indices: seq<nat>): (s: seq<T>)
    requires forall i :: 0 <= i < |indices| ==> indices[i] < |items|
    ensures |s| == |indices| && forall i :: 0 <= i < |indices| ==> s[i] == items[indices[i]]
  {
    if indices == [] then [] else Through(items, indices[..|indices| - 1]) + [items[indices[|indices| - 1]]]
  }

  /** The entries that are there, in order. */
  function Present<T>(rows: seq<Option<T>>): (present: seq<T>)
    ensures |present| <= |rows|
    ensures |present| == |rows| <==> forall i :: 0 <= i < |rows| ==> rows[i].Some?
    ensures |present| == |rows| ==> forall i :: 0 <= i < |rows| ==> present[i] == rows[i].value
  {
    if rows == [] then []
    else
      var front, last := Present(rows[..|rows| - 1]), rows[|rows| - 1];
      if last.Some? then front + [last.value] else front
  }

  function Wrapped<T>(items: seq<T>): (wrapped: seq<Option<T>>)
    ensures |wrapped| == |items| && forall k :: 0 <= k < |items| ==> wrapped[k] == Some(items[k])
  {
    if items == [] then [] else Wrapped(items[..|items| - 1]) + [Some(items[|items| - 1])]
  }

  /** Exactly the entries that are there, in order. */
  lemma {:induction false} PresentAre<T(!new)>(rows: seq<Option<T>>)
    ensures Passes(rows, (row: Option<T>) => row.Some?, Wrapped(Present(rows)))
  {
    hide Passes, Wrapped;
    var pass := (row: Option<T>) => row.Some?;
    assert Wrapped(Present(rows)) == [] || rows != [];
    if rows == [] {
      PassesNone(pass);
    } else {
      var front, last := rows[..|rows| - 1], rows[|rows| - 1];
      PresentAre(front);
      PassesMore(front, pass, Wrapped(Present(front)), last);
      assert rows == front + [last];
      assert Wrapped(Present(rows)) == Wrapped(Present(front)) + if last.Some? then [last] else [];
    }
  }

  /** A parsed row; null counts as no row. */
  function NotNull(row: Json): Option<Json> {
    if row.Null? then None else Some(row)
  }

  /** The picked lines, each parsed as it stands, nulls left out; None if one is not JSON. */
  ghost predicate PickedRows(r: Option<seq<Json>>, lines: seq<string>, picked: seq<nat>, g: Reader)
    requires forall i :: 0 <= i < |picked| ==> picked[i] < |lines|
  {
    && (r.None? <==> exists i :: 0 <= i < |picked| && g.Parse(lines[picked[i]]).None?)
    && (r.Some? ==> exists rows ::
          && |rows| == |picked| && r.value == Present(rows)
          && forall i :: 0 <= i < |picked| ==> rows[i] == NotNull(g.Parse(lines[picked[i]]).value))
  }

  /** The rank of each picked line. */
  ghost predicate Ranked(chosen: map<nat, nat>, picked: seq<nat>) {
    && (forall i :: 0 <= i < |picked| ==> picked[i] in chosen && chosen[picked[i]] == i)
    && (forall line :: line in chosen ==> line in picked)
  }

  lemma NoneRanked(picked: seq<nat>)
    ensures Ranked(map[], picked[..0])
  {
  }

  lemma ThroughDistinct(positions: seq<nat>, sliced: seq<nat>)
    requires Distinct(positions) && Distinct(sliced) && forall i :: 0 <= i < |sliced| ==> sliced[i] < |positions|
    ensures Distinct(Through(positions, sliced))
  {
  }

  lemma RankedMore(chosen: map<nat, nat>, picked: seq<nat>, line: nat)
    requires Ranked(chosen, picked) && line !in picked
    ensures Ranked(chosen[line := |picked|], picked + [line]) && line !in chosen
  {
    var more := picked + [line];
    assert more[|picked|] == line;
    forall other | other in chosen ensures other in more {
      assert other in picked;
    }
  }

  method Choose(positions: seq<nat>, sliced: seq<nat>) returns (chosen: map<nat, nat>)
    requires Distinct(positions) && Distinct(sliced) && forall i :: 0 <= i < |sliced| ==> sliced[i] < |positions|
    ensures Ranked(chosen, Through(positions, sliced)) && |chosen| == |sliced|
  {
    hide Ranked, Through;
    chosen := map[];
    ghost var picked := Through(positions, sliced);
    NoneRanked(picked);
    ThroughDistinct(positions, sliced);
    for rank := 0 to |sliced|
      invariant |chosen| == rank && Ranked(chosen, picked[..rank])
    {
      var line := positions[sliced[rank]];
      assert picked[rank] == line && line !in picked[..rank];
      assert picked[..rank + 1] == picked[..rank] + [line];
      RankedMore(chosen, picked[..rank], line);
      chosen := chosen[line := rank];
    }
    assert picked[..|sliced|] == picked;
  }

  /** The second pass. */
  method ParseChosen(lines: seq<string>, chosen: map<nat, nat>, ghost picked: seq<nat>, g: Reader)
    returns (r: Option<seq<Json>>)
    requires Ranked(chosen, picked) && |chosen| == |picked|
    requires forall i :: 0 <= i < |picked| ==> picked[i] < |lines|
    ensures PickedRows(r, lines, picked, g)
  {
    hide TrimJson, Present;
    var rows: seq<Option<Json>> := NoRows(|chosen|);
    for n := 0 to |lines|
      invariant |rows| == |picked|
      invariant forall i :: 0 <= i < |picked| && picked[i] < n ==>
        g.Parse(lines[picked[i]]).Some? && rows[i] == NotNull(g.Parse(lines[picked[i]]).value)
    {
      if n in chosen {
        var row := g.Parse(lines[n]);
        if row.None? {
          assert picked[chosen[n]] == n;
          return None;
        }
        rows := rows[chosen[n] := NotNull(row.value)];
      }
    }
    return Some(Present(rows));
  }

  /** sample_jsonl_rows: lines that are not picked are never parsed, and picked ones in file order. */
  method SampleRows(lines: seq<string>, maxSamples: Option<int>, permutation: seq<nat>, g: Reader)
    returns (r: Option<seq<Json>>, ghost size: nat)
    requires maxSamples.Some? ==> IsPermutation(permutation, |Positions(lines)|)
    ensures maxSamples.None? ==> r == Loaded(lines, g)
    // as many rows as the cap allows; a negative cap leaves that many out
    ensures maxSamples.Some? && maxSamples.value >= 0 ==>
      size == if maxSamples.value < |permutation| then maxSamples.value else |permutation|
    ensures maxSamples.Some? && maxSamples.value < 0 ==>
      size == if |permutation| + maxSamples.value > 0 then |permutation| + maxSamples.value else 0
    ensures maxSamples.Some? ==> PickedRows(r, lines, Through(Positions(lines), permutation[..size]), g)
  {
    hide Loaded, PickedRows, Ranked, Slice, Positions;
    size := 0;
    if maxSamples.None? {
      r := LoadJsonl(lines, g);
    } else {
      var positions := FindPositions(lines);
      PositionsDistinct(lines);
      var sliced := Slice(permutation, maxSamples.value);
      size := |sliced|;
      assert sliced == permutation[..size];
      var chosen := Choose(positions, sliced);
      r := ParseChosen(lines, chosen, Through(positions, sliced), g);
    }
  }

  lemma PositionsDistinct(lines: seq<string>)
    ensures Distinct(Positions(lines))
  {
    hide Positions;
    PositionsAre(lines);
  }

  function NoRows<T>(n: nat): (rows: seq<Option<T>>)
    ensures |rows| == n && forall i :: 0 <= i < n ==> rows[i].None?
  {
    if n == 0 then [] else NoRows(n - 1) + [None]
  }

  method FindPositions(lines: seq<string>) returns (positions: seq<nat>)
    ensures positions == Positions(lines)
  {
    hide Strip;
    positions := [];
    for n := 0 to |lines|
      invariant positions == Positions(lines[..n])
    {
      assert lines[..n + 1][..n] == lines[..n];
      if Strip(lines[n]) != "" {
        positions := positions + [n];
      }
    }
    assert lines[..|lines|] == lines;
  }

  /** What is picked is what is expected exactly when each picked line parses to its expected object. */
  lemma PickedAsExpected(r: Option<seq<Json>>, lines: seq<string>, picked: seq<nat>, expected: seq<Json>, g: Reader)
    requires |expected| == |picked| && forall i :: 0 <= i < |picked| ==> picked[i] < |lines| && expected[i].Object?
    requires PickedRows(r, lines, picked, g)
    ensures r == Some(expected) <==> forall i :: 0 <= i < |picked| ==> g.Parse(lines[picked[i]]) == Some(expected[i])
  {
    if r.Some? {
      var rows: seq<Option<Json>> :| |rows| == |picked| && r.value == Present(rows)
        && forall i :: 0 <= i < |picked| ==> rows[i] == NotNull(g.Parse(lines[picked[i]]).value);
      hide Present;
      if r.value == expected {
        forall i | 0 <= i < |picked| ensures g.Parse(lines[picked[i]]) == Some(expected[i]) {
          assert rows[i].Some? && rows[i].value == expected[i];
        }
      }
      if forall i :: 0 <= i < |picked| ==> g.Parse(lines[picked[i]]) == Some(expected[i]) {
        assert forall i :: 0 <= i < |picked| ==> rows[i] == Some(expected[i]);
      }
    }
  }

  /**
   For a file that loads, sampling in two passes gives the rows of the full load that a prefix of
   the permutation names, exactly when no picked line has white space at its ends that JSON does
   not know. The prefix has as many entries as the cap allows, or for a negative cap all but as many.
   */
  lemma RowsMatchFullLoad(lines: seq<string>, m: int, size: nat, permutation: seq<nat>, g: Reader, r: Option<seq<Json>>)
    requires IsPermutation(permutation, |Positions(lines)|)
    requires g.Sane() && Loaded(lines, g).Some?
    requires m >= 0 ==> size == if m < |permutation| then m else |permutation|
    requires m < 0 ==> size == if |permutation| + m > 0 then |permutation| + m else 0
    requires PickedRows(r, lines, Through(Positions(lines), permutation[..size]), g)
    ensures
      (r.Some? && |r.value| == size
         && forall i :: 0 <= i < size ==> r.value[i] == Loaded(lines, g).value[permutation[i]])
      <==> forall i :: 0 <= i < size ==> PlainEnds(lines[Positions(lines)[permutation[i]]])
  {
    hide Loaded, PickedRows, Strip, PlainEnds, Reader.Parse, Positions, Rows;
    LoadedAre(lines, g);
    var positions, first := Positions(lines), permutation[..size];
    var picked, expected := Through(positions, first), Through(Loaded(lines, g).value, first);
    forall i | 0 <= i < size
      ensures g.Parse(Strip(lines[picked[i]])) == Some(expected[i]) && expected[i].Object?
      ensures g.Parse(lines[picked[i]]) == Some(expected[i]) <==> PlainEnds(lines[picked[i]])
    {
      PositionIs(lines, first[i]);
      assert Rows(lines)[first[i]] in Rows(lines);
      ParsesAlike(lines[picked[i]], g);
    }
    PickedAsExpected(r, lines, picked, expected, g);
    assert |expected| == size && forall i :: 0 <= i < size ==> expected[i] == Loaded(lines, g).value[permutation[i]];
    if r.Some? && |r.value| == size && forall i :: 0 <= i < size ==> r.value[i] == expected[i] {
      assert r.value == expected;
    }
  }

  /** A line that ends in a vertical tab and a newline: the file loads, and sampling raises. */
  lemma VerticalTabRaises(line: string, g: Reader, r: Option<seq<Json>>)
    requires line == "{}\U{000b}\n" && g.Sane() && g.core("{}") == Some(Object(""))
    requires PickedRows(r, [line], [0], g)
    ensures Loaded([line], g) == Some([Object("")]) && r == None
  {
    hide Strip, TrimJson;
    TabLine(line);
    OneLineLoads(line, "{}", Object(""), g);
    var lines, picked: seq<nat> := [line], [0];
    assert picked[0] == 0 && g.Parse(lines[picked[0]]).None?;
  }

  lemma TabLine(line: string)
    requires line == "{}\U{000b}\n"
    ensures Strip(line) == "{}" == TrimJson("{}") && !BareEnds(TrimJson(line), IsSpace)
  {
    TrimIs("", "{}", "\U{000b}\n", IsSpace);
    assert "" + "{}" + "\U{000b}\n" == line;
    TrimIs("", "{}\U{000b}", "\n", IsJsonSpace);
    assert "" + "{}\U{000b}" + "\n" == line;
    BareIsTrimmed("{}", IsJsonSpace);
  }

  lemma OneLineLoads(line: string, text: string, row: Json, g: Reader)
    requires Strip(line) == text != "" && g.Parse(text) == Some(row) && row.Object?
    ensures Loaded([line], g) == Some([row])
  {
    hide Strip, TrimJson;
    var lines, none: seq<Json> := [line], [];
    assert lines[..|lines| - 1] == [];
    assert Loaded(lines[..|lines| - 1], g) == Some(none) && none + [row] == [row];
  }

  // ------------------------------------------------------------------ keys

  /** The key of a row, if the row is kept. */
  function KeyOf(row: Json, g: Reader): Option<Key> {
    if g.keep(row) then g.key(row) else None
  }

  /** The first pass: each line's key, from the stripped line; None if a non-blank line is not JSON. */
  function LineKeys(lines: seq<string>, g: Reader): (r: Option<seq<Option<Key>>>)
    ensures r.Some? ==> |r.value| == |lines|
  {
    if lines == [] then Some([])
    else
      var front, line := LineKeys(lines[..|lines| - 1], g), Strip(lines[|lines| - 1]);
      if front.None? then None
      else if line == "" then Some(front.value + [None])
      else
        var row := g.Parse(line);
        if row.None? then None else Some(front.value + [KeyOf(row.value, g)])
  }

  /** The second pass: the lines with a sampled key, parsed as they stand; None if one is not JSON. */
  function KeyedRows(lines: seq<string>, keys: seq<Option<Key>>, kept: set<Key>, g: Reader): Option<seq<Json>>
    requires |keys| == |lines|
  {
    if lines == [] then Some([])
    else
      var n := |lines| - 1;
      var front := KeyedRows(lines[..n], keys[..n], kept, g);
      if front.None? || keys[n].None? || keys[n].value !in kept then front
      else
        var row := g.Parse(lines[n]);
        if row.None? then None else Some(front.value + [row.value])
  }

  /** Every key that occurs. */
  function KeySet(keys: seq<Option<Key>>): set<Key> {
    set i | 0 <= i < |keys| && keys[i].Some? :: keys[i].value
  }

  datatype Sampled = Sampled(rows: seq<Json>) | Invalid

  /**
   What sampling by key answers: without a cap, the kept rows of a full load; else, unless the first
   pass or the cap is invalid, the lines of as many keys as the cap allows.
   */
  ghost predicate Answers(lines: seq<string>, maxSamples: Option<int>, g: Reader, r: Sampled, kept: set<Key>) {
    if maxSamples.None? then
      r == match Loaded(lines, g) case None => Invalid case Some(rows) => Sampled(KeepRows(rows, g))
    else if LineKeys(lines, g).None? || maxSamples.value < 0 then r.Invalid?
    else
      var keys := LineKeys(lines, g).value;
      && kept <= KeySet(keys)
      && |kept| == (if maxSamples.value < |KeySet(keys)| then maxSamples.value else |KeySet(keys)|)
      && r == match KeyedRows(lines, keys, kept, g) case None => Invalid case Some(rows) => Sampled(rows)
  }

  /** sample_jsonl_by_key; `kept` are the sampled keys. */
  method SampleByKey(lines: seq<string>, maxSamples: Option<int>, g: Reader)
    returns (r: Sampled, ghost kept: set<Key>)
    ensures Answers(lines, maxSamples, g, r, kept)
  {
    hide Strip, TrimJson, Rows, Loaded, LineKeys, KeySet, KeepRows;
    kept := {};
    if maxSamples.None? {
      var rows := LoadJsonl(lines, g);
      if rows.None? {
        return Invalid, {};
      }
      r := Sampled(KeepRows(rows.value, g));
      return;
    }
    var lineKeys := FindKeys(lines, g);
    if lineKeys.None? {
      return Invalid, {};
    }
    var unique := KeySet(lineKeys.value);
    if maxSamples.value < 0 {
      return Invalid, {};
    }
    var sampled := SampleKeys(unique, if maxSamples.value < |unique| then maxSamples.value else |unique|);
    kept := sampled;
    var rows: seq<Json> := [];
    for n := 0 to |lines|
      invariant KeyedRows(lines[..n], lineKeys.value[..n], kept, g) == Some(rows)
    {
      KeyedNext(lines, lineKeys.value, kept, n, g);
      var key := lineKeys.value[n];
      if key.Some? && key.value in sampled {
        var row := g.Parse(lines[n]);
        if row.None? {
          KeyedNoMore(lines, lineKeys.value, kept, n + 1, g);
          return Invalid, kept;
        }
        rows := rows + [row.value];
      }
    }
    assert lines[..|lines|] == lines && lineKeys.value[..|lines|] == lineKeys.value;
    return Sampled(rows), kept;
  }

  /** sample(unique, m): any m of the keys. */
  method SampleKeys(unique: set<Key>, m: nat) returns (sampled: set<Key>)
    requires m <= |unique|
    ensures sampled <= unique && |sampled| == m
  {
    SubsetOfSize(unique, m);
    sampled :| sampled <= unique && |sampled| == m;
  }

  lemma {:induction false} SubsetOfSize(unique: set<Key>, m: nat)
    requires m <= |unique|
    ensures exists s: set<Key> :: s <= unique && |s| == m
  {
    if m < |unique| {
      var x :| x in unique;
      SubsetOfSize(unique - {x}, m);
    }
  }

  method FindKeys(lines: seq<string>, g: Reader) returns (r: Option<seq<Option<Key>>>)
    ensures r == LineKeys(lines, g)
  {
    hide Strip, TrimJson;
    var keys: seq<Option<Key>> := [];
    for n := 0 to |lines|
      invariant LineKeys(lines[..n], g) == Some(keys)
    {
      assert lines[..n + 1][..n] == lines[..n];
      var line := Strip(lines[n]);
      if line == "" {
        keys := keys + [None];
        continue;
      }
      var row := g.Parse(line);
      if row.None? {
        LineKeysNoMore(lines, n + 1, g);
        return None;
      }
      keys := keys + [if !g.keep(row.value) then None else g.key(row.value)];
    }
    assert lines[..|lines|] == lines;
    return Some(keys);
  }

  lemma {:induction false} LineKeysNoMore(lines: seq<string>, n: nat, g: Reader)
    requires n <= |lines| && LineKeys(lines[..n], g).None?
    ensures LineKeys(lines, g).None?
  {
    if n < |lines| {
      assert lines[..|lines| - 1][..n] == lines[..n];
      LineKeysNoMore(lines[..|lines| - 1], n, g);
    } else {
      assert lines[..n] == lines;
    }
  }

  lemma KeyedNext(lines: seq<string>, keys: seq<Option<Key>>, kept: set<Key>, n: nat, g: Reader)
    requires n < |lines| == |keys|
    ensures lines[..n + 1] != [] && lines[..n + 1][..n] == lines[..n] && keys[..n + 1][..n] == keys[..n]
  {
  }

  lemma {:induction false} KeyedNoMore(
    lines: seq<string>, keys: seq<Option<Key>>, kept: set<Key>, n: nat, g: Reader)
    requires n <= |lines| == |keys| && KeyedRows(lines[..n], keys[..n], kept, g).None?
    ensures KeyedRows(lines, keys, kept, g).None?
  {
    var m := |lines| - 1;
    if n <= m {
      assert lines[..m][..n] == lines[..n] && keys[..m][..n] == keys[..n];
      KeyedNoMore(lines[..m], keys[..m], kept, n, g);
    } else {
      assert lines[..n] == lines && keys[..n] == keys;
    }
  }

  // ------------------------------------------------------------------ keys after a full load

  function KeepRows(rows: seq<Json>, g: Reader): seq<Json> {
    if rows == [] then []
    else
      var front, last := KeepRows(rows[..|rows| - 1], g), rows[|rows| - 1];
      if g.keep(last) then front + [last] else front
  }

  /** The kept rows, in order. */
  lemma {:induction false} KeepRowsAre(rows: seq<Json>, g: Reader)
    ensures Passes(rows, g.keep, KeepRows(rows, g))
  {
    hide Passes;
    if rows == [] {
      PassesNone(g.keep);
    } else {
      var front, last := rows[..|rows| - 1], rows[|rows| - 1];
      KeepRowsAre(front, g);
      PassesMore(front, g.keep, KeepRows(front, g), last);
      assert rows == front + [last];
    }
  }

  /** The rows of a full load that are kept and have a sampled key, in order. */
  function RowsWithKey(rows: seq<Json>, kept: set<Key>, g: Reader): seq<Json> {
    if rows == [] then []
    else
      var front, last := RowsWithKey(rows[..|rows| - 1], kept, g), rows[|rows| - 1];
      if KeyOf(last, g).Some? && KeyOf(last, g).value in kept then front + [last] else front
  }

  /** Exactly the kept rows with a sampled key, in order. */
  lemma {:induction false} RowsWithKeyAre(rows: seq<Json>, kept: set<Key>, g: Reader)
    ensures Passes(rows, row => g.keep(row) && g.key(row).Some? && g.key(row).value in kept,
                   RowsWithKey(rows, kept, g))
  {
    hide Passes;
    var pass := row => g.keep(row) && g.key(row).Some? && g.key(row).value in kept;
    if rows == [] {
      PassesNone(pass);
    } else {
      var front, last := rows[..|rows| - 1], rows[|rows| - 1];
      RowsWithKeyAre(front, kept, g);
      PassesMore(front, pass, RowsWithKey(front, kept, g), last);
      assert rows == front + [last];
    }
  }

  function KeysOf(rows: seq<Json>, g: Reader): set<Key> {
    set i | 0 <= i < |rows| && KeyOf(rows[i], g).Some? :: KeyOf(rows[i], g).value
  }

  /** A line with this key is met again in the second pass. */
  predicate Selected(key: Option<Key>, kept: set<Key>) {
    key.Some? && key.value in kept
  }

  /** A file that loads has its keys found by the first pass. */
  lemma {:induction false} KeysAreThose(lines: seq<string>, g: Reader)
    requires Loaded(lines, g).Some?
    ensures LineKeys(lines, g).Some? && KeySet(LineKeys(lines, g).value) == KeysOf(Loaded(lines, g).value, g)
  {
    hide Strip, TrimJson, KeySet, KeysOf, Rows;
    if lines != [] {
      var n := |lines| - 1;
      var front := lines[..n];
      KeysAreThose(front, g);
      KeySetNext(LineKeys(front, g).value, LineKeys(lines, g).value[n]);
      if Strip(lines[n]) != "" {
        KeysOfNext(Loaded(front, g).value, g.Parse(Strip(lines[n])).value, g);
      }
    } else {
      NoKeys(g);
    }
  }

  lemma NoKeys(g: Reader)
    ensures KeySet([]) == {} == KeysOf([], g)
  {
  }

  /** One more line of a file that loads. */
  lemma LoadsNext(lines: seq<string>, g: Reader)
    requires lines != [] && Loaded(lines, g).Some? && LineKeys(lines, g).Some?
    ensures
      var front, line := lines[..|lines| - 1], Strip(lines[|lines| - 1]);
      && Loaded(front, g).Some? && LineKeys(front, g).Some?
      && (line == "" ==>
            && Loaded(lines, g).value == Loaded(front, g).value
            && LineKeys(lines, g).value == LineKeys(front, g).value + [None])
      && (line != "" ==>
            && g.Parse(line).Some?
            && Loaded(lines, g).value == Loaded(front, g).value + [g.Parse(line).value]
            && LineKeys(lines, g).value == LineKeys(front, g).value + [KeyOf(g.Parse(line).value, g)])
  {
    hide Strip, TrimJson, Rows, KeyOf;
  }

  lemma KeyedNextRow(lines: seq<string>, keys: seq<Option<Key>>, kept: set<Key>, g: Reader)
    requires lines != [] && |keys| == |lines|
    ensures
      var n := |lines| - 1;
      var front := KeyedRows(lines[..n], keys[..n], kept, g);
      KeyedRows(lines, keys, kept, g) ==
        if front.None? || !Selected(keys[n], kept) then front
        else if g.Parse(lines[n]).None? then None
        else Some(front.value + [g.Parse(lines[n]).value])
  {
    hide TrimJson;
  }

  lemma WithKeyNext(rows: seq<Json>, row: Json, kept: set<Key>, g: Reader)
    ensures RowsWithKey(rows + [row], kept, g) ==
      if Selected(KeyOf(row, g), kept) then RowsWithKey(rows, kept, g) + [row] else RowsWithKey(rows, kept, g)
  {
    hide KeyOf;
    assert (rows + [row])[..|rows|] == rows;
  }

  /** The second pass, line by line: only picked lines count, and each must have plain ends. */
  lemma {:induction false} SecondPass(lines: seq<string>, kept: set<Key>, g: Reader)
    requires g.Sane() && Loaded(lines, g).Some? && LineKeys(lines, g).Some?
    ensures
      var keys, rows := LineKeys(lines, g).value, RowsWithKey(Loaded(lines, g).value, kept, g);
      && (KeyedRows(lines, keys, kept, g).Some? ==> |KeyedRows(lines, keys, kept, g).value| == |rows|)
      && (KeyedRows(lines, keys, kept, g) == Some(rows) <==> PlainWhereKept(lines, keys, kept))
  {
    if lines == [] {
      assert RowsWithKey([], kept, g) == [];
    } else {
      var n := |lines| - 1;
      LoadsNext(lines, g);
      SecondPass(lines[..n], kept, g);
      SecondPassNext(lines, kept, g);
    }
  }

  lemma SecondPassNext(lines: seq<string>, kept: set<Key>, g: Reader)
    requires lines != [] && g.Sane() && Loaded(lines, g).Some? && LineKeys(lines, g).Some?
    requires
      var front := lines[..|lines| - 1];
      && Loaded(front, g).Some? && LineKeys(front, g).Some?
      && var keys, rows := LineKeys(front, g).value, RowsWithKey(Loaded(front, g).value, kept, g);
      && (KeyedRows(front, keys, kept, g).Some? ==> |KeyedRows(front, keys, kept, g).value| == |rows|)
      && (KeyedRows(front, keys, kept, g) == Some(rows) <==> PlainWhereKept(front, keys, kept))
    ensures
      var keys, rows := LineKeys(lines, g).value, RowsWithKey(Loaded(lines, g).value, kept, g);
      && (KeyedRows(lines, keys, kept, g).Some? ==> |KeyedRows(lines, keys, kept, g).value| == |rows|)
      && (KeyedRows(lines, keys, kept, g) == Some(rows) <==> PlainWhereKept(lines, keys, kept))
  {
    hide Strip, Reader.Parse, PlainEnds, Rows, Reader.Sane, Loaded, LineKeys, KeyedRows, RowsWithKey, KeyOf;
    hide PlainWhereKept;
    var n := |lines| - 1;
    var front, line, keys := lines[..n], Strip(lines[n]), LineKeys(lines, g).value;
    var full := Loaded(front, g).value;
    LoadsNext(lines, g);
    assert keys[..n] == LineKeys(front, g).value;
    PlainNext(lines, keys, kept);
    KeyedNextRow(lines, keys, kept, g);
    if line != "" {
      ParsesAlike(lines[n], g);
      WithKeyNext(full, g.Parse(line).value, kept, g);
      if KeyedRows(front, keys[..n], kept, g).Some? && g.Parse(lines[n]).Some? {
        AppendEqual(KeyedRows(front, keys[..n], kept, g).value, g.Parse(lines[n]).value,
                    RowsWithKey(full, kept, g), g.Parse(line).value);
      }
    }
  }

  /** No line met in the second pass has white space at its ends that JSON does not know. */
  ghost predicate PlainWhereKept(lines: seq<string>, keys: seq<Option<Key>>, kept: set<Key>)
    requires |keys| == |lines|
  {
    forall i :: 0 <= i < |lines| && Selected(keys[i], kept) ==> PlainEnds(lines[i])
  }

  lemma PlainNext(lines: seq<string>, keys: seq<Option<Key>>, kept: set<Key>)
    requires |keys| == |lines| > 0
    ensures var n := |lines| - 1;
      PlainWhereKept(lines, keys, kept) <==>
        PlainWhereKept(lines[..n], keys[..n], kept) && (Selected(keys[n], kept) ==> PlainEnds(lines[n]))
  {
    hide PlainEnds, Selected;
    var n := |lines| - 1;
    var front, keys' := lines[..n], keys[..n];
    assert forall i :: 0 <= i < n ==> front[i] == lines[i] && keys'[i] == keys[i];
    if PlainWhereKept(lines, keys, kept) {
      forall i | 0 <= i < |front| && Selected(keys'[i], kept) ensures PlainEnds(front[i]) {
        assert Selected(keys[i], kept);
      }
    }
  }

  /**
   For a file that loads, the first pass finds the keys of the full load, and the second gives
   its rows with the sampled keys exactly when no line it parses has white space at its ends that
   JSON does not know.
   */
  lemma KeyedMatchesFullLoad(lines: seq<string>, kept: set<Key>, g: Reader)
    requires g.Sane() && Loaded(lines, g).Some?
    ensures LineKeys(lines, g).Some? && KeySet(LineKeys(lines, g).value) == KeysOf(Loaded(lines, g).value, g)
    ensures
      var keys, rows := LineKeys(lines, g).value, Loaded(lines, g).value;
      KeyedRows(lines, keys, kept, g) == Some(RowsWithKey(rows, kept, g)) <==> PlainWhereKept(lines, keys, kept)
  {
    hide *;
    KeysAreThose(lines, g);
    SecondPass(lines, kept, g);
  }

  lemma AppendEqual(a: seq<Json>, x: Json, b: seq<Json>, y: Json)
    ensures a + [x] == b + [y] <==> a == b && x == y
  {
    assert (a + [x])[..|a|] == a && (b + [y])[..|b|] == b;
  }

  lemma KeySetNext(keys: seq<Option<Key>>, key: Option<Key>)
    ensures KeySet(keys + [key]) == KeySet(keys) + if key.Some? then {key.value} else {}
  {
    var all := keys + [key];
    forall k | k in KeySet(keys) ensures k in KeySet(all) {
      var i :| 0 <= i < |keys| && keys[i] == Some(k);
      assert all[i] == Some(k);
    }
    assert all[|keys|] == key;
  }

  lemma KeysOfNext(rows: seq<Json>, row: Json, g: Reader)
    ensures KeysOf(rows + [row], g) == KeysOf(rows, g) + if KeyOf(row, g).Some? then {KeyOf(row, g).value} else {}
  {
    var all := rows + [row];
    hide KeyOf;
    forall k | k in KeysOf(rows, g) ensures k in KeysOf(all, g) {
      var i :| 0 <= i < |rows| && KeyOf(rows[i], g) == Some(k);
      assert all[i] == rows[i];
    }
    assert all[|rows|] == row;
  }

  /** Every row of a sampled key is there as often as in the file, and no other row. */
  lemma {:induction false} RowsOfSampledKeys(rows: seq<Json>, kept: set<Key>, g: Reader, row: Json)
    ensures multiset(RowsWithKey(rows, kept, g))[row] ==
      if KeyOf(row, g).Some? && KeyOf(row, g).value in kept then multiset(rows)[row] else 0
  {
    if rows != [] {
      var front, last := rows[..|rows| - 1], rows[|rows| - 1];
      RowsOfSampledKeys(front, kept, g, row);
      assert rows == front + [last];
    }
  }

  /** Every sampled key has a row. */
  lemma {:induction false} EverySampledKeyOccurs(rows: seq<Json>, kept: set<Key>, g: Reader)
    ensures KeysOf(RowsWithKey(rows, kept, g), g) == KeysOf(rows, g) * kept
  {
    if rows != [] {
      var front, last := rows[..|rows| - 1], rows[|rows| - 1];
      EverySampledKeyOccurs(front, kept, g);
      assert rows == front + [last];
      KeysOfNext(front, last, g);
      KeysOfNext(RowsWithKey(front, kept, g), last, g);
      hide KeysOf;
    }
  }

  /** With every key sampled, nothing is lost exactly when every kept row has a key. */
  lemma {:induction false} AllKeysKeepAll(rows: seq<Json>, kept: set<Key>, g: Reader)
    requires KeysOf(rows, g) <= kept
    ensures |RowsWithKey(rows, kept, g)| <= |KeepRows(rows, g)|
    ensures RowsWithKey(rows, kept, g) == KeepRows(rows, g) <==>
      forall row :: row in rows && g.keep(row) ==> g.key(row).Some?
    ensures RowsWithKey(rows, kept, g) == KeepRows(rows, g) <==> |RowsWithKey(rows, kept, g)| == |KeepRows(rows, g)|
  {
    if rows != [] {
      var front, last := rows[..|rows| - 1], rows[|rows| - 1];
      assert rows == front + [last];
      KeysOfNext(front, last, g);
      AllKeysKeepAll(front, kept, g);
      AppendEqual(RowsWithKey(front, kept, g), last, KeepRows(front, g), last);
      hide KeysOf;
    }
  }

  /** A cap of at least the number of keys samples them all. */
  lemma CapAboveKeys(keys: seq<Option<Key>>, kept: set<Key>)
    requires kept <= KeySet(keys) && |kept| == |KeySet(keys)|
    ensures kept == KeySet(keys)
  {
    SubsetSameSize(kept, KeySet(keys));
  }

  /**
   A cap of at least the number of keys gives the answer of the uncapped branch exactly when every
   kept row has a key and no line of a kept row has white space at its ends that JSON does not know.
   */
  lemma CapAboveKeysIsNoCap(
    lines: seq<string>, m: int, g: Reader, r: Sampled, kept: set<Key>, r': Sampled, kept': set<Key>)
    requires g.Sane() && Loaded(lines, g).Some? && LineKeys(lines, g).Some?
    requires m >= |KeySet(LineKeys(lines, g).value)|
    requires Answers(lines, Some(m), g, r, kept) && Answers(lines, None, g, r', kept')
    ensures r == r' <==>
      && (forall row :: row in Loaded(lines, g).value && g.keep(row) ==> g.key(row).Some?)
      && PlainWhereKept(lines, LineKeys(lines, g).value, KeySet(LineKeys(lines, g).value))
  {
    hide Strip, TrimJson, Rows, Loaded, LineKeys, KeySet, KeysOf, KeepRows, RowsWithKey, KeyedRows, PlainWhereKept;
    var keys, rows := LineKeys(lines, g).value, Loaded(lines, g).value;
    CapAboveKeys(keys, kept);
    KeyedMatchesFullLoad(lines, kept, g);
    SecondPass(lines, kept, g);
    AllKeysKeepAll(rows, kept, g);
  }

  /** A row that is kept and has no key: sampling all keys drops it. */
  lemma KeylessRowIsDropped(row: Json, g: Reader)
    requires g.keep(row) && g.key(row).None?
    ensures KeysOf([row], g) == {} && RowsWithKey([row], {}, g) == [] && KeepRows([row], g) == [row]
  {
    var rows := [row];
    assert rows[..0] == [];
  }
}
