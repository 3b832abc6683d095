/**
 Reservoir sampling of a shard (src/olmo_eval/data/ruler_plus_loader.py), and how often
 it keeps each row when every sequence of random draws is counted once.
 */
module Reservoir {
  import opened Collections
  import opened Text

  /** A parsed record and its row number; blank lines have none. */
  datatype Record<J> = Record(json: J, row: nat)

  /** The stripped non-blank lines: row r of the shard is entry r. */
  function Rows(lines: seq<string>): seq<string> {
    if lines == [] then []
    else
      var front, last := Rows(lines[..|lines| - 1]), Strip(lines[|lines| - 1]);
      if last == "" then front else front + [last]
  }

  /** Row k + t draws a number up to its own position. */
  ghost predicate Drawn(k: nat, draws: seq<nat>) {
    forall t :: 0 <= t < |draws| ==> draws[t] <= k + t
  }

  /** Algorithm R on row numbers: the reservoir of k rows after k + |draws| rows. */
  function Kept(k: nat, draws: seq<nat>): (rows: seq<nat>)
    ensures |rows| == k
    ensures forall i :: 0 <= i < k ==> rows[i] < k + |draws|
    ensures forall i, j :: 0 <= i < j < k ==> rows[i] != rows[j]
  {
    if draws == [] then Iota(k)
    else
      var before, j := Kept(k, draws[..|draws| - 1]), draws[|draws| - 1];
      if j < k then before[j := k + |draws| - 1] else before
  }

  // ------------------------------------------------------------------ the loader

  /** max_samples as a number of rows: absent keeps all of them, negative none. */
  function Cap(maxSamples: Option<int>, n: nat): nat {
    match maxSamples
    case None => n
    case Some(m) => if m < 0 then 0 else if m < n then m else n
  }

  /** The rows that are put into the reservoir at some point, and so are parsed. */
  predicate Enters(k: nat, draws: seq<nat>, row: nat) {
    row < k || (row - k < |draws| && draws[row - k] < k)
  }

  datatype Loaded<J> = Loaded(records: seq<Record<J>>) | Malformed(row: nat)

  /** load_ruler_plus_shard; `draws` are the numbers the generator returns, in order. */
  method LoadShard<J>(
    lines: seq<string>, maxSamples: Option<int>, draws: seq<nat>, parse: string -> Option<J>)
    returns (r: Loaded<J>)
    requires
      var n := |Rows(lines)|;
      |draws| == n - Cap(maxSamples, n) && Drawn(Cap(maxSamples, n), draws)
    ensures
      var rows := Rows(lines);
      var k := Cap(maxSamples, |rows|);
      match r
      case Loaded(records) =>
        && Holds(records, Kept(k, draws), rows, parse)
        && (forall row :: 0 <= row < |rows| && Enters(k, draws, row) ==> parse(rows[row]).Some?)
      case Malformed(row) =>
        && row < |rows| && Enters(k, draws, row) && parse(rows[row]).None?
        && (forall q :: 0 <= q < row && Enters(k, draws, q) ==> parse(rows[q]).Some?)
    // as many records as the cap allows, none for a negative one; without a cap every row, in order
    ensures r.Loaded? && maxSamples.Some? ==>
      |r.records| == (if maxSamples.value < 0 then 0
                      else if maxSamples.value < |Rows(lines)| then maxSamples.value else |Rows(lines)|)
    ensures r.Loaded? && maxSamples.None? ==>
      |r.records| == |Rows(lines)| && forall i :: 0 <= i < |r.records| ==> r.records[i].row == i
  {
    hide Kept, Rows, KeptAfter, Iota, Holds, Strip;
    ghost var rows := Rows(lines);
    ghost var k := Cap(maxSamples, |rows|);
    var reservoir: seq<Record<J>> := [];
    var seen := 0;
    NoRows<J>(k, draws, rows, parse);
    for l := 0 to |lines|
      invariant Rows(lines[..l]) <= rows && seen == |Rows(lines[..l])|
      invariant Holds(reservoir, KeptAfter(k, seen, draws), rows, parse)
      invariant forall q :: 0 <= q < seen && Enters(k, draws, q) ==> parse(rows[q]).Some?
    {
      RowsPrefix(lines, l);
      var line := Strip(lines[l]);
      if line != "" {
        KeptNext(k, seen, draws);
        if maxSamples.None? || seen < maxSamples.value {
          var json := parse(line);
          if json.None? {
            return Malformed(seen);
          }
          HoldsMore(reservoir, KeptAfter(k, seen, draws), rows, parse, Record(json.value, seen));
          reservoir := reservoir + [Record(json.value, seen)];
        } else {
          var j := draws[seen - (if maxSamples.value < 0 then 0 else maxSamples.value)];
          if j < maxSamples.value {
            var json := parse(line);
            if json.None? {
              return Malformed(seen);
            }
            HoldsOther(reservoir, KeptAfter(k, seen, draws), rows, parse, Record(json.value, seen), j);
            reservoir := reservoir[j := Record(json.value, seen)];
          }
        }
        seen := seen + 1;
      }
    }
    assert lines[..|lines|] == lines && draws[..|draws|] == draws;
    KeptAll(k, |rows|, draws);
    KeptWithoutCap(k, draws);
    HoldsEach(reservoir, Kept(k, draws), rows, parse);
    return Loaded(reservoir);
  }

  /** The reservoir's row numbers after `seen` rows. */
  ghost function KeptAfter(k: nat, seen: nat, draws: seq<nat>): (rows: seq<nat>)
    requires seen <= k + |draws|
    ensures forall i :: 0 <= i < |rows| ==> rows[i] < seen
  {
    if seen <= k then Iota(seen) else Kept(k, draws[..seen - k])
  }

  /** The records are those of these rows, parsed. */
  ghost predicate Holds<J>(records: seq<Record<J>>, kept: seq<nat>, rows: seq<string>, parse: string -> Option<J>) {
    && |records| == |kept|
    && forall i :: 0 <= i < |kept| ==>
         records[i].row == kept[i] < |rows| && parse(rows[kept[i]]) == Some(records[i].json)
  }

  lemma KeptNext(k: nat, seen: nat, draws: seq<nat>)
    requires seen < k + |draws|
    ensures |KeptAfter(k, seen, draws)| == if seen < k then seen else k
    ensures KeptAfter(k, seen + 1, draws) ==
      if seen < k then KeptAfter(k, seen, draws) + [seen]
      else if draws[seen - k] < k then KeptAfter(k, seen, draws)[draws[seen - k] := seen]
      else KeptAfter(k, seen, draws)
  {
    if seen >= k {
      assert draws[..seen + 1 - k][..seen - k] == draws[..seen - k];
    }
    if seen == k {
      assert draws[..1][..0] == [] && Kept(k, []) == Iota(k);
    }
  }

  lemma KeptAll(k: nat, n: nat, draws: seq<nat>)
    requires n == k + |draws|
    ensures KeptAfter(k, n, draws) == Kept(k, draws)
  {
    assert draws[..|draws|] == draws;
    if draws == [] {
      assert Kept(k, draws) == Iota(k);
    }
  }

  lemma KeptWithoutCap(k: nat, draws: seq<nat>)
    ensures draws == [] ==> Kept(k, draws) == Iota(k)
  {
  }

  lemma HoldsEach<J>(records: seq<Record<J>>, kept: seq<nat>, rows: seq<string>, parse: string -> Option<J>)
    requires Holds(records, kept, rows, parse)
    ensures |records| == |kept| && forall i :: 0 <= i < |records| ==> records[i].row == kept[i]
  {
  }

  /** A row enters exactly when it is in the reservoir right after its turn. */
  lemma EntersIs(k: nat, draws: seq<nat>, row: nat)
    requires row < k + |draws|
    ensures Enters(k, draws, row) <==> row in KeptAfter(k, row + 1, draws)
  {
    KeptNext(k, row, draws);
    hide KeptAfter, Kept;
    var before := KeptAfter(k, row, draws);
    if Enters(k, draws, row) && row >= k {
      assert before[draws[row - k] := row][draws[row - k]] == row;
    }
  }

  lemma HoldsMore<J>(
    records: seq<Record<J>>, kept: seq<nat>, rows: seq<string>, parse: string -> Option<J>, record: Record<J>)
    requires Holds(records, kept, rows, parse)
    requires record.row < |rows| && parse(rows[record.row]) == Some(record.json)
    ensures Holds(records + [record], kept + [record.row], rows, parse)
  {
  }

  lemma HoldsOther<J>(
    records: seq<Record<J>>, kept: seq<nat>, rows: seq<string>, parse: string -> Option<J>, record: Record<J>, j: nat)
    requires Holds(records, kept, rows, parse) && j < |kept|
    requires record.row < |rows| && parse(rows[record.row]) == Some(record.json)
    ensures |records| == |kept| && Holds(records[j := record], kept[j := record.row], rows, parse)
  {
  }

  lemma NoRows<J>(k: nat, draws: seq<nat>, rows: seq<string>, parse: string -> Option<J>)
    ensures Rows([]) == [] && Holds([], KeptAfter(k, 0, draws), rows, parse)
  {
  }

  /** Rows of a longer prefix extend the rows of a shorter one. */
  lemma RowsPrefix(lines: seq<string>, l: nat)
    requires l < |lines|
    ensures lines[..l + 1][..l] == lines[..l]
    ensures Rows(lines[..l + 1]) <= Rows(lines)
    ensures Strip(lines[l]) == "" ==> Rows(lines[..l + 1]) == Rows(lines[..l])
    ensures Strip(lines[l]) != "" ==>
      && Rows(lines[..l + 1]) == Rows(lines[..l]) + [Strip(lines[l])]
      && |Rows(lines[..l + 1])| == |Rows(lines[..l])| + 1
      && Rows(lines)[|Rows(lines[..l])|] == Strip(lines[l])
    decreases |lines| - l
  {
    assert lines[..l + 1][..l] == lines[..l];
    if l + 1 < |lines| {
      RowsPrefix(lines, l + 1);
    } else {
      assert lines[..l + 1] == lines;
    }
  }

  // ------------------------------------------------------------------ counting draws

  /** Which numbers the next draw may be, after the draws d, for a reservoir of k rows. */
  datatype Choice =
    | Any
    | Replacing(k: nat)                    // falls on a reservoir slot
    | Passing(k: nat)                      // falls past the reservoir
    | Sparing(k: nat, row: nat)            // does not fall on this row's slot
    | Evicting(k: nat, others: set<nat>)   // falls on a slot whose row is not one of these

  ghost predicate Allows(choice: Choice, d: seq<nat>, j: nat) {
    match choice
    case Any => true
    case Replacing(k) => j < k
    case Passing(k) => j >= k
    case Sparing(k, row) => j >= k || Kept(k, d)[j] != row
    case Evicting(k, others) => j < k && Kept(k, d)[j] !in others
  }

  ghost function Choices(d: seq<nat>, b: nat, choice: Choice): set<nat> {
    set j | j in Below(b) && Allows(choice, d, j)
  }

  /** Every d in `ds` followed by one allowed draw below b. */
  ghost function Extend(ds: set<seq<nat>>, b: nat, choice: Choice): set<seq<nat>> {
    set d, j | d in ds && j in Choices(d, b, choice) :: d + [j]
  }

  ghost function Then(d: seq<nat>, js: set<nat>): set<seq<nat>> {
    set j | j in js :: d + [j]
  }

  lemma AppendInjective(d: seq<nat>, j: nat, e: seq<nat>, i: nat)
    ensures d + [j] == e + [i] <==> d == e && j == i
  {
    if d + [j] == e + [i] {
      assert |d| == |e|;
      assert (d + [j])[..|d|] == d && (e + [i])[..|e|] == e;
      assert (d + [j])[|d|] == j && (e + [i])[|e|] == i;
    }
  }

  lemma {:induction false} ThenCount(d: seq<nat>, js: set<nat>)
    ensures |Then(d, js)| == |js|
  {
    if js != {} {
      var j0 :| j0 in js;
      ThenCount(d, js - {j0});
      assert Then(d, js) == Then(d, js - {j0}) + {d + [j0]};
      forall j | j in js - {j0} ensures d + [j] != d + [j0] {
        AppendInjective(d, j, d, j0);
      }
    }
  }

  lemma ExtendSplit(ds: set<seq<nat>>, b: nat, choice: Choice, d0: seq<nat>)
    requires d0 in ds
    ensures Extend(ds, b, choice) == Then(d0, Choices(d0, b, choice)) + Extend(ds - {d0}, b, choice)
    ensures Then(d0, Choices(d0, b, choice)) !! Extend(ds - {d0}, b, choice)
  {
    hide Choices;
    forall x | x in Then(d0, Choices(d0, b, choice)) ensures x !in Extend(ds - {d0}, b, choice) {
      var j :| j in Choices(d0, b, choice) && x == d0 + [j];
      if x in Extend(ds - {d0}, b, choice) {
        var e, i :| e in ds - {d0} && i in Choices(e, b, choice) && x == e + [i];
        AppendInjective(d0, j, e, i);
      }
    }
  }

  lemma ExtendNone(b: nat, choice: Choice)
    ensures Extend({}, b, choice) == {}
  {
  }

  /** If every d has exactly c choices, there are |ds| * c extensions. */
  lemma {:induction false} ExtendCount(ds: set<seq<nat>>, b: nat, choice: Choice, c: nat)
    requires forall d :: d in ds ==> |Choices(d, b, choice)| == c
    ensures |Extend(ds, b, choice)| == |ds| * c
  {
    hide *;
    if ds == {} {
      ExtendNone(b, choice);
    } else {
      var d0 :| d0 in ds;
      ExtendCount(ds - {d0}, b, choice, c);
      ThenCount(d0, Choices(d0, b, choice));
      ExtendSplit(ds, b, choice, d0);
      assert |ds| == |ds - {d0}| + 1;
      OneMore(|ds - {d0}|, |ds|, c);
    }
  }

  lemma OneMore(n: nat, n': nat, c: nat)
    requires n' == n + 1
    ensures n * c + c == n' * c
  {
  }

  lemma ChoicesAre(d: seq<nat>, b: nat, k: nat)
    ensures Choices(d, b, Any) == Below(b)
    ensures k <= b ==> Choices(d, b, Replacing(k)) == Below(k)
  {
  }

  /** All the draw sequences for k + m rows. */
  ghost function AllDraws(k: nat, m: nat): set<seq<nat>> {
    if m == 0 then {[]} else Extend(AllDraws(k, m - 1), k + m, Any)
  }

  lemma SplitDraws(k: nat, m: nat, d: seq<nat>) returns (e: seq<nat>, j: nat)
    requires m > 0 && d in AllDraws(k, m)
    ensures e in AllDraws(k, m - 1) && j < k + m && d == e + [j]
  {
    hide Kept, Allows;
    e, j :| e in AllDraws(k, m - 1) && j in Choices(e, k + m, Any) && d == e + [j];
  }

  lemma NoDraws(k: nat)
    ensures AllDraws(k, 0) == {[]} && Drawn(k, [])
  {
  }

  lemma DrawnNext(k: nat, d: seq<nat>, j: nat)
    ensures Drawn(k, d + [j]) <==> Drawn(k, d) && j <= k + |d|
  {
    var more := d + [j];
    assert forall t :: 0 <= t < |d| ==> more[t] == d[t];
    assert more[|d|] == j;
    if Drawn(k, more) {
      assert forall t :: 0 <= t < |d| ==> more[t] <= k + t;
    }
  }

  lemma DrawsNext(k: nat, m: nat)
    requires m > 0
    ensures AllDraws(k, m) == Extend(AllDraws(k, m - 1), k + m, Any)
  {
    hide Extend;
  }

  lemma {:induction false} AllDrawsAre(k: nat, m: nat, d: seq<nat>)
    ensures d in AllDraws(k, m) <==> |d| == m && Drawn(k, d)
    decreases m, 1
  {
    hide *;
    if m == 0 {
      NoDraws(k);
    } else {
      if d in AllDraws(k, m) {
        var e, j := SplitDraws(k, m, d);
        AllDrawsAre(k, m - 1, e);
        DrawnNext(k, e, j);
      }
      if |d| == m && Drawn(k, d) {
        DrawnIsIn(k, m, d);
      }
    }
  }

  lemma DrawnIsIn(k: nat, m: nat, d: seq<nat>)
    requires m > 0 && |d| == m && Drawn(k, d)
    ensures d in AllDraws(k, m)
    decreases m, 0
  {
    hide Kept, Allows, Choices, Drawn, AllDraws;
    var e, j := d[..m - 1], d[m - 1];
    assert d == e + [j];
    DrawnNext(k, e, j);
    AllDrawsAre(k, m - 1, e);
    ChoicesAre(e, k + m, k);
    DrawsNext(k, m);
    assert j in Choices(e, k + m, Any);
  }

  /** One more row multiplies the draw sequences by its position: k + m choices for row k + m - 1. */
  lemma AllDrawsCount(k: nat, m: nat)
    requires m > 0
    ensures |AllDraws(k, m)| == |AllDraws(k, m - 1)| * (k + m)
  {
    hide *;
    var b := k + m;
    forall d | d in AllDraws(k, m - 1) ensures |Choices(d, b, Any)| == b {
      ChoicesAre(d, b, k);
    }
    DrawsNext(k, m);
    ExtendCount(AllDraws(k, m - 1), b, Any, b);
  }

  /** The last draw of a sequence, and what it does to the reservoir. */
  lemma LastDraw(k: nat, m: nat, d: seq<nat>)
    requires m > 0 && d in AllDraws(k, m)
    ensures |d| == m
    ensures d[..m - 1] in AllDraws(k, m - 1) && d[m - 1] < k + m && d == d[..m - 1] + [d[m - 1]]
    ensures Kept(k, d) ==
      if d[m - 1] < k then Kept(k, d[..m - 1])[d[m - 1] := k + m - 1] else Kept(k, d[..m - 1])
    ensures k + m - 1 !in Kept(k, d[..m - 1])
  {
    hide AllDraws;
    AllDrawsAre(k, m, d);
    AllDrawsAre(k, m - 1, d[..m - 1]);
  }

  /** Followed by the allowed draws, `ds` is exactly the part of `AllDraws` that ends that way. */
  lemma ExtendIs(k: nat, m: nat, ds: set<seq<nat>>, choice: Choice, d: seq<nat>)
    requires m > 0 && ds <= AllDraws(k, m - 1)
    ensures d in Extend(ds, k + m, choice) <==>
      d in AllDraws(k, m) && |d| == m && d[..m - 1] in ds && Allows(choice, d[..m - 1], d[m - 1])
  {
    if d in Extend(ds, k + m, choice) {
      var e, j :| e in ds && j in Choices(e, k + m, choice) && d == e + [j];
      assert j in Choices(e, k + m, Any);
      LastDraw(k, m, d);
      AppendInjective(e, j, d[..m - 1], d[m - 1]);
    }
    if d in AllDraws(k, m) && |d| == m && d[..m - 1] in ds && Allows(choice, d[..m - 1], d[m - 1]) {
      LastDraw(k, m, d);
      assert d[m - 1] in Choices(d[..m - 1], k + m, choice);
    }
  }

  /** The draw sequences that end with this row in the reservoir. */
  ghost function Including(k: nat, m: nat, row: nat): set<seq<nat>> {
    set d | d in AllDraws(k, m) && row in Kept(k, d)
  }

  lemma IncludingNewest(k: nat, m: nat)
    requires m > 0
    ensures |Including(k, m, k + m - 1)| == |AllDraws(k, m - 1)| * k
  {
    hide Extend, Choices, AllDraws;
    var b, all := k + m, AllDraws(k, m - 1);
    forall d | d in all ensures |Choices(d, b, Replacing(k))| == k { ChoicesAre(d, b, k); }
    ExtendCount(all, b, Replacing(k), k);
    var ending := Extend(all, b, Replacing(k));
    forall d ensures d in Including(k, m, b - 1) <==> d in ending {
      ExtendIs(k, m, all, Replacing(k), d);
      if d in AllDraws(k, m) {
        LastDraw(k, m, d);
        if d[m - 1] < k {
          assert Kept(k, d)[d[m - 1]] == b - 1;
        }
      }
    }
    assert Including(k, m, b - 1) == ending;
  }

  lemma IncludingOlder(k: nat, m: nat, row: nat)
    requires m > 0 && row < k + m - 1
    ensures |Including(k, m, row)| == |Including(k, m - 1, row)| * (k + m - 1)
  {
    hide Extend, Choices, AllDraws;
    var b, ds := k + m, Including(k, m - 1, row);
    forall d | d in ds ensures |Choices(d, b, Sparing(k, row))| == b - 1 { SparingCount(k, b, d, row); }
    ExtendCount(ds, b, Sparing(k, row), b - 1);
    var ending := Extend(ds, b, Sparing(k, row));
    forall d ensures d in Including(k, m, row) <==> d in ending {
      ExtendIs(k, m, ds, Sparing(k, row), d);
      if d in AllDraws(k, m) {
        LastDraw(k, m, d);
        StaysKept(k, m, d, row);
      }
    }
    assert Including(k, m, row) == ending;
  }

  /** All draws but one spare a row of the reservoir. */
  lemma SparingCount(k: nat, b: nat, d: seq<nat>, row: nat)
    requires k <= b && row in Kept(k, d)
    ensures |Choices(d, b, Sparing(k, row))| == b - 1
  {
    hide *;
    var i :| 0 <= i < k && Kept(k, d)[i] == row;
    forall j: nat ensures j in Choices(d, b, Sparing(k, row)) <==> j in Below(b) - {i} {
      SparingIs(k, b, d, row, i, j);
    }
    assert Choices(d, b, Sparing(k, row)) == Below(b) - {i};
  }

  lemma SparingIs(k: nat, b: nat, d: seq<nat>, row: nat, i: nat, j: nat)
    requires i < k && Kept(k, d)[i] == row
    ensures j in Choices(d, b, Sparing(k, row)) <==> j in Below(b) - {i}
  {
    hide Kept, Below;
  }

  /** An older row is in the reservoir exactly when it was there and the last draw spared it. */
  lemma StaysKept(k: nat, m: nat, d: seq<nat>, row: nat)
    requires m > 0 && d in AllDraws(k, m) && |d| == m && row < k + m - 1
    ensures row in Kept(k, d) <==> row in Kept(k, d[..m - 1]) && Allows(Sparing(k, row), d[..m - 1], d[m - 1])
  {
    LastDraw(k, m, d);
    var before, after, j := Kept(k, d[..m - 1]), Kept(k, d), d[m - 1];
    if row in before && Allows(Sparing(k, row), d[..m - 1], j) {
      var i :| 0 <= i < k && before[i] == row;
      assert after[i] == row;
    }
    if row in after {
      var i :| 0 <= i < k && after[i] == row;
      assert i != j && before[i] == row;
    }
  }

  /**
   Uniformity: counted over all draw sequences for n = k + m rows, each row is in the
   reservoir in exactly k out of n of them.
   */
  lemma {:induction false} Uniform(k: nat, m: nat, row: nat)
    requires row < k + m
    ensures |Including(k, m, row)| * (k + m) == k * |AllDraws(k, m)|
    decreases m, 1
  {
    hide *;
    if m == 0 {
      NoDraws(k);
      IncludingFirst(k, row);
    } else {
      IncludedBefore(k, m, row);
      AllDrawsCount(k, m);
      Shares(|Including(k, m, row)|, |AllDraws(k, m - 1)|, |AllDraws(k, m)|, k, k + m);
    }
  }

  lemma IncludingFirst(k: nat, row: nat)
    requires row < k
    ensures Including(k, 0, row) == {[]}
  {
    assert Kept(k, [])[row] == row;
  }

  lemma IncludedBefore(k: nat, m: nat, row: nat)
    requires m > 0 && row < k + m
    ensures |Including(k, m, row)| == |AllDraws(k, m - 1)| * k
    decreases m, 0
  {
    hide *;
    if row == k + m - 1 {
      IncludingNewest(k, m);
    } else {
      var n := k + m - 1;
      IncludingOlder(k, m, row);
      Uniform(k, m - 1, row);
      assert |Including(k, m - 1, row)| * n == k * |AllDraws(k, m - 1)|;
    }
  }

  lemma Shares(included: nat, before: nat, all: nat, k: nat, n: nat)
    requires all == before * n && included == before * k
    ensures included * n == k * all
  {
    assert before * k * n == k * (before * n);
  }

  // ------------------------------------------------------------------ every subset alike

  ghost function Factorial(m: nat): nat {
    if m == 0 then 1 else m * Factorial(m - 1)
  }

  /** The draw sequences that end with exactly these rows in the reservoir. */
  ghost function Yielding(k: nat, m: nat, rows: set<nat>): set<seq<nat>> {
    set d | d in AllDraws(k, m) && SetOf(Kept(k, d)) == rows
  }

  /** The draw sequences whose reservoir is `others` and one of `spare`. */
  ghost function YieldingOne(k: nat, m: nat, others: set<nat>, spare: set<nat>): set<seq<nat>> {
    set d | d in AllDraws(k, m) && exists x :: x in spare && SetOf(Kept(k, d)) == others + {x}
  }

  /** Replacing slot j of a reservoir swaps that row for the new one. */
  lemma ReplaceSet(rows: seq<nat>, j: nat, newest: nat)
    requires forall a, b :: 0 <= a < b < |rows| ==> rows[a] != rows[b]
    requires j < |rows| && newest !in rows
    ensures SetOf(rows[j := newest]) == SetOf(rows) - {rows[j]} + {newest}
  {
    var after := rows[j := newest];
    forall x ensures x in after <==> x in SetOf(rows) - {rows[j]} + {newest} {
      if x in after {
        var i :| 0 <= i < |after| && after[i] == x;
        assert i != j ==> rows[i] == x;
      }
      if x in rows && x != rows[j] {
        var i :| 0 <= i < |rows| && rows[i] == x;
        assert after[i] == x;
      }
      if x == newest {
        assert after[j] == x;
      }
    }
  }

  lemma PassingCount(d: seq<nat>, k: nat, b: nat)
    requires k <= b
    ensures |Choices(d, b, Passing(k))| == b - k
  {
    assert Choices(d, b, Passing(k)) == Below(b) - Below(k);
    assert Below(b) == Below(b) - Below(k) + Below(k);
  }

  /** Exactly one slot holds the row that is not among the others. */
  lemma EvictingCount(d: seq<nat>, k: nat, b: nat, others: set<nat>, x: nat)
    requires k <= b && SetOf(Kept(k, d)) == others + {x} && x !in others
    ensures |Choices(d, b, Evicting(k, others))| == 1
  {
    var rows := Kept(k, d);
    assert x in SetOf(rows);
    var i :| 0 <= i < k && rows[i] == x;
    forall j | j in Choices(d, b, Evicting(k, others)) ensures j == i {
      assert rows[j] in SetOf(rows);
    }
    assert Choices(d, b, Evicting(k, others)) == {i};
  }

  lemma YieldingPassed(k: nat, m: nat, rows: set<nat>)
    requires m > 0 && k + m - 1 !in rows
    ensures |Yielding(k, m, rows)| == |Yielding(k, m - 1, rows)| * m
  {
    hide Extend, Choices, AllDraws, Kept;
    var b, ds := k + m, Yielding(k, m - 1, rows);
    forall d | d in ds ensures |Choices(d, b, Passing(k))| == m { PassingCount(d, k, b); }
    ExtendCount(ds, b, Passing(k), m);
    var ending := Extend(ds, b, Passing(k));
    forall d ensures d in Yielding(k, m, rows) <==> d in ending {
      ExtendIs(k, m, ds, Passing(k), d);
      if d in AllDraws(k, m) {
        LastDraw(k, m, d);
        if d[m - 1] < k {
          assert Kept(k, d)[d[m - 1]] == b - 1;
          assert b - 1 in SetOf(Kept(k, d));
        }
      }
    }
    assert Yielding(k, m, rows) == ending;
  }

  /** Swapping x for n gives these others and n exactly if they were there, and x is not one of them. */
  lemma SwapGives(before: set<nat>, x: nat, n: nat, others: set<nat>)
    requires x in before && n !in before && n !in others && |before| == |others| + 1
    ensures before - {x} + {n} == others + {n} <==> others <= before && x !in others
  {
    if others <= before && x !in others {
      SubsetSameSize(others + {x}, before);
    }
    if before - {x} + {n} == others + {n} {
      forall y | y in others ensures y in before && y != x {
        assert y in others + {n};
      }
    }
  }

  lemma ReplacedGives(before: seq<nat>, j: nat, newest: nat, others: set<nat>)
    requires Distinct(before) && newest !in before && newest !in others && |before| == |others| + 1
    ensures SetOf(if j < |before| then before[j := newest] else before) == others + {newest} <==>
      others <= SetOf(before) && j < |before| && before[j] !in others
  {
    SetOfSize(before);
    if j < |before| {
      ReplaceSet(before, j, newest);
      assert before[j] in SetOf(before);
      SwapGives(SetOf(before), before[j], newest, others);
    } else {
      assert newest in others + {newest} && newest !in SetOf(before);
    }
  }

  /** With the newest row in the reservoir, the other rows were there before and one row left. */
  lemma NewestCameIn(k: nat, m: nat, d: seq<nat>, others: set<nat>)
    requires m > 0 && d in AllDraws(k, m) && |d| == m
    requires k + m - 1 !in others && |others| == k - 1
    ensures SetOf(Kept(k, d)) == others + {k + m - 1} <==>
      others <= SetOf(Kept(k, d[..m - 1])) && Allows(Evicting(k, others), d[..m - 1], d[m - 1])
  {
    hide *;
    LastDraw(k, m, d);
    var before := Kept(k, d[..m - 1]);
    KeptDistinct(k, d[..m - 1]);
    ReplacedGives(before, d[m - 1], k + m - 1, others);
    EvictingIs(k, d[..m - 1], others, d[m - 1]);
  }

  lemma KeptDistinct(k: nat, d: seq<nat>)
    ensures Distinct(Kept(k, d)) && |Kept(k, d)| == k
  {
  }

  lemma EvictingIs(k: nat, d: seq<nat>, others: set<nat>, j: nat)
    ensures Allows(Evicting(k, others), d, j) <==> j < k && Kept(k, d)[j] !in others
  {
  }

  lemma HoldingIsOne(k: nat, m: nat, d: seq<nat>, others: set<nat>, spare: set<nat>)
    requires d in AllDraws(k, m) && |others| == k - 1
    requires spare == Below(k + m) - others
    ensures others <= SetOf(Kept(k, d)) <==> d in YieldingOne(k, m, others, spare)
  {
    AllDrawsAre(k, m, d);
    hide AllDraws;
    var rows := Kept(k, d);
    if others <= SetOf(rows) {
      SetOfSize(rows);
      if SetOf(rows) <= others {
        SubsetSize(SetOf(rows), others);
        assert false;
      }
      var x :| x in SetOf(rows) && x !in others;
      SubsetSameSize(others + {x}, SetOf(rows));
      assert x in spare;
    }
  }

  lemma OneChoice(k: nat, m: nat, others: set<nat>, spare: set<nat>, d: seq<nat>)
    requires m > 0 && k + m - 1 !in others && spare == Below(k + m - 1) - others
    requires d in YieldingOne(k, m - 1, others, spare)
    ensures |Choices(d, k + m, Evicting(k, others))| == 1
  {
    hide Choices, AllDraws, Kept;
    var x :| x in spare && SetOf(Kept(k, d)) == others + {x};
    EvictingCount(d, k, k + m, others, x);
  }

  lemma YieldingEntered(k: nat, m: nat, others: set<nat>, spare: set<nat>)
    requires m > 0 && k + m - 1 !in others && |others| == k - 1
    requires spare == Below(k + m - 1) - others
    ensures |Yielding(k, m, others + {k + m - 1})| == |YieldingOne(k, m - 1, others, spare)|
  {
    hide *;
    var b, rows, ds := k + m, others + {k + m - 1}, YieldingOne(k, m - 1, others, spare);
    forall d | d in ds ensures |Choices(d, b, Evicting(k, others))| == 1 {
      OneChoice(k, m, others, spare, d);
    }
    ExtendCount(ds, b, Evicting(k, others), 1);
    forall d ensures d in Yielding(k, m, rows) <==> d in Extend(ds, b, Evicting(k, others)) {
      EnteredIs(k, m, others, spare, d);
    }
    assert Yielding(k, m, rows) == Extend(ds, b, Evicting(k, others));
  }

  lemma EnteredIs(k: nat, m: nat, others: set<nat>, spare: set<nat>, d: seq<nat>)
    requires m > 0 && k + m - 1 !in others && |others| == k - 1
    requires spare == Below(k + m - 1) - others
    ensures d in Yielding(k, m, others + {k + m - 1}) <==>
      d in Extend(YieldingOne(k, m - 1, others, spare), k + m, Evicting(k, others))
  {
    hide Extend, Choices, AllDraws, Kept, Allows, Below;
    ExtendIs(k, m, YieldingOne(k, m - 1, others, spare), Evicting(k, others), d);
    if d in AllDraws(k, m) {
      LastDraw(k, m, d);
      NewestCameIn(k, m, d, others);
      HoldingIsOne(k, m - 1, d[..m - 1], others, spare);
    }
  }

  lemma SpareCount(k: nat, m: nat, others: set<nat>)
    requires m > 0 && |others| == k - 1 && others <= Below(k + m - 1)
    ensures |Below(k + m - 1) - others| == m
  {
    var all := Below(k + m - 1);
    assert all == all - others + others;
  }

  lemma YieldingOneSplit(k: nat, m: nat, others: set<nat>, spare: set<nat>, x0: nat)
    requires spare !! others && x0 in spare
    ensures YieldingOne(k, m, others, spare) == YieldingOne(k, m, others, spare - {x0}) + Yielding(k, m, others + {x0})
    ensures YieldingOne(k, m, others, spare - {x0}) !! Yielding(k, m, others + {x0})
  {
    hide Kept, AllDraws, SetOf;
    forall x | x in spare - {x0} ensures others + {x} != others + {x0} {
      assert x in others + {x} && x !in others + {x0};
    }
  }

  lemma YieldingNone(k: nat, m: nat, others: set<nat>)
    ensures YieldingOne(k, m, others, {}) == {}
  {
  }

  lemma {:induction false} YieldingOneCount(k: nat, m: nat, others: set<nat>, spare: set<nat>, c: nat)
    requires spare !! others
    requires forall x :: x in spare ==> |Yielding(k, m, others + {x})| == c
    ensures |YieldingOne(k, m, others, spare)| == |spare| * c
  {
    hide *;
    if spare == {} {
      YieldingNone(k, m, others);
    } else {
      var x0 :| x0 in spare;
      YieldingOneCount(k, m, others, spare - {x0}, c);
      YieldingOneSplit(k, m, others, spare, x0);
      assert |spare| == |spare - {x0}| + 1;
      OneMore(|spare - {x0}|, |spare|, c);
    }
  }

  lemma OnlyFirstRows(k: nat, rows: set<nat>)
    requires |rows| == k && rows <= Below(k)
    ensures |Yielding(k, 0, rows)| == 1
  {
    SubsetSameSize(rows, Below(k));
    assert SetOf(Iota(k)) == Below(k) by {
      forall x: nat | x < k ensures x in SetOf(Iota(k)) {
        assert Iota(k)[x] == x;
      }
    }
    assert Kept(k, []) == Iota(k);
    assert Yielding(k, 0, rows) == {[]};
  }

  /**
   Every set of k rows out of n = k + m is the reservoir for the same number of draw
   sequences, m!, whichever rows they are.
   */
  lemma {:induction false} EverySubsetAlike(k: nat, m: nat, rows: set<nat>)
    requires |rows| == k && rows <= Below(k + m)
    ensures |Yielding(k, m, rows)| == Factorial(m)
  {
    hide *;
    var newest := k + m - 1;
    FactorialNext(m);
    if m == 0 {
      OnlyFirstRows(k, rows);
    } else if newest !in rows {
      assert rows <= Below(k + m - 1);
      EverySubsetAlike(k, m - 1, rows);
      YieldingPassed(k, m, rows);
    } else {
      var others := rows - {newest};
      var spare := Below(newest) - others;
      forall x | x in spare ensures |Yielding(k, m - 1, others + {x})| == Factorial(m - 1) {
        assert others + {x} <= Below(k + m - 1);
        EverySubsetAlike(k, m - 1, others + {x});
      }
      assert others + {newest} == rows;
      YieldingOneCount(k, m - 1, others, spare, Factorial(m - 1));
      YieldingEntered(k, m, others, spare);
      SpareCount(k, m, others);
    }
  }

  lemma FactorialNext(m: nat)
    ensures Factorial(0) == 1 && (m > 0 ==> Factorial(m) == m * Factorial(m - 1))
  {
  }
}
