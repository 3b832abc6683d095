/**
 Demonstrations that cover every label evenly: `_balance_labels`
 (src/olmo_eval/data/helmet_icl_loader.py). A record stands for its position in the list of
 records, and `labels[x]` is the label of record x. Random draws are any that the generator
 may return.
 */
module Balance {
  import opened Collections

  datatype Label = Label(text: string)

  // ------------------------------------------------------------------ the generator

  predicate IsSample(indices: seq<nat>, n: nat, m: nat) {
    |indices| == m && Distinct(indices) && forall i :: 0 <= i < m ==> indices[i] < n
  }

  /** sample(range(n), m): any m of the n numbers, in any order. */
  method Sample(n: nat, m: nat) returns (indices: seq<nat>)
    requires m <= n
    ensures IsSample(indices, n, m)
  {
    assert IsSample(Iota(m), n, m);
    indices :| IsSample(indices, n, m);
  }

  /** shuffle: any order of the same elements. */
  method Shuffle(round: seq<nat>) returns (shuffled: seq<nat>)
    ensures multiset(shuffled) == multiset(round)
  {
    shuffled :| multiset(shuffled) == multiset(round);
  }

  // ------------------------------------------------------------------ how often

  /** How often x occurs in a list. */
  function Uses(s: seq<nat>, x: nat): nat {
    multiset(s)[x]
  }

  lemma UsesSum(a: seq<nat>, b: seq<nat>, x: nat)
    ensures Uses(a + b, x) == Uses(a, x) + Uses(b, x)
  {
    assert multiset(a + b) == multiset(a) + multiset(b);
  }

  /** How many of these records have this label. */
  function Count(records: seq<nat>, labels: seq<Label>, name: Label): nat {
    if records == [] then 0
    else
      var last := records[|records| - 1];
      Count(records[..|records| - 1], labels, name) + (if last < |labels| && labels[last] == name then 1 else 0)
  }

  lemma {:induction false} CountSum(a: seq<nat>, b: seq<nat>, labels: seq<Label>, name: Label)
    ensures Count(a + b, labels, name) == Count(a, labels, name) + Count(b, labels, name)
  {
    if b == [] {
      assert a + b == a;
    } else {
      CountSum(a, b[..|b| - 1], labels, name);
      assert (a + b)[..|a + b| - 1] == a + b[..|b| - 1];
    }
  }

  lemma RemoveAt(b: seq<nat>, k: nat, labels: seq<Label>, name: Label)
    requires k < |b|
    ensures multiset(b[..k] + b[k + 1..]) == multiset(b) - multiset{b[k]}
    ensures Count(b, labels, name) == Count(b[..k] + b[k + 1..], labels, name) + Count([b[k]], labels, name)
  {
    assert b == b[..k] + ([b[k]] + b[k + 1..]);
    CountSum(b[..k], [b[k]] + b[k + 1..], labels, name);
    CountSum([b[k]], b[k + 1..], labels, name);
    CountSum(b[..k], b[k + 1..], labels, name);
    hide Count;
  }

  /** A shuffle keeps the counts. */
  lemma {:induction false} CountShuffled(a: seq<nat>, b: seq<nat>, labels: seq<Label>, name: Label)
    requires multiset(a) == multiset(b)
    ensures |a| == |b| && Count(a, labels, name) == Count(b, labels, name)
  {
    assert |multiset(a)| == |a| && |multiset(b)| == |b|;
    if a != [] {
      var front, last := a[..|a| - 1], a[|a| - 1];
      assert a == front + [last];
      assert last in multiset(b);
      var k :| 0 <= k < |b| && b[k] == last;
      RemoveAt(b, k, labels, name);
      assert multiset(front) == multiset(a) - multiset{last};
      CountShuffled(front, b[..k] + b[k + 1..], labels, name);
      CountSum(front, [last], labels, name);
    }
  }

  /** A sample of all n numbers has each once, and a smaller one at most once. */
  lemma SampleUses(indices: seq<nat>, n: nat, m: nat, s: nat)
    requires IsSample(indices, n, m) && s < n
    ensures Uses(indices, s) <= 1
    ensures m == n ==> Uses(indices, s) == 1
    ensures m == 0 ==> Uses(indices, s) == 0
  {
    DistinctOnce(indices, s);
    if m == n {
      SetOfSize(indices);
      SubsetSameSize(SetOf(indices), Below(n));
      assert s in SetOf(indices);
    }
  }

  lemma {:induction false} DistinctOnce(s: seq<nat>, x: nat)
    requires Distinct(s)
    ensures Uses(s, x) == if x in s then 1 else 0
  {
    if s != [] {
      var front, last := s[..|s| - 1], s[|s| - 1];
      assert s == front + [last];
      DistinctOnce(front, x);
      assert last !in front;
    }
  }

  // ------------------------------------------------------------------ one label

  lemma RefillStep(rounds: nat, drawn: nat, n: nat)
    requires n > 0 && drawn < rounds && (rounds - drawn) % n == 0
    ensures rounds - drawn >= n
    ensures (rounds - (drawn + n)) % n == 0 && (drawn + n) / n == drawn / n + 1
    ensures drawn % n == rounds % n
  {
    var q := (rounds - drawn) / n;
    assert rounds - drawn == n * q;
    assert q > 0;
    MulAtLeast(n, q);
    SubMod(rounds - drawn, n);
    AddDiv(drawn, n);
    ModPeriods(drawn, q, n);
  }

  lemma MulAtLeast(a: nat, b: nat)
    requires b >= 1
    ensures a * b >= a
  {
    assert a * b == a + a * (b - 1);
  }

  lemma SubMod(a: int, n: nat)
    requires n > 0
    ensures (a - n) % n == a % n
  {
    assert a == n * (a / n) + a % n;
    assert a - n == n * (a / n - 1) + a % n;
    DivIs(a - n, a / n - 1, a % n, n);
  }

  lemma MulGap(n: nat, d: int)
    ensures d >= 1 ==> n * d >= n
    ensures d <= -1 ==> n * d <= 0 - n
  {
    if d >= 1 {
      MulAtLeast(n, d);
    } else if d <= -1 {
      var e := -d;
      MulAtLeast(n, e);
      assert n * d == -(n * e);
    }
  }

  lemma DivIs(a: int, q: int, r: nat, n: nat)
    requires n > 0 && a == n * q + r && r < n
    ensures a / n == q && a % n == r
  {
    var q', r' := a / n, a % n;
    assert a == n * q' + r';
    assert n * (q' - q) == n * q' - n * q;
    MulGap(n, q' - q);
  }

  lemma AddDiv(a: nat, n: nat)
    requires n > 0
    ensures (a + n) / n == a / n + 1 && (a + n) % n == a % n
  {
    DivIs(a + n, a / n + 1, a % n, n);
  }

  lemma ModPeriods(a: nat, q: nat, n: nat)
    requires n > 0
    ensures (a + n * q) % n == a % n && (a + n * q) / n == a / n + q
  {
    assert a + n * q == n * (a / n + q) + a % n;
    DivIs(a + n * q, a / n + q, a % n, n);
  }

  /** Between q and q + 1 times, and exactly q times when nothing is left over. */
  predicate Fair(uses: nat, total: nat, n: nat) {
    n > 0 && total / n <= uses <= total / n + (if total % n == 0 then 0 else 1)
  }

  predicate AllBelow(s: seq<nat>, n: nat) {
    forall i :: 0 <= i < |s| ==> s[i] < n
  }

  /** Every one of the n indices is used fairly. */
  ghost predicate FairlyUsed(indices: seq<nat>, n: nat) {
    && AllBelow(indices, n)
    && (forall s: nat :: s < n ==> Fair(Uses(indices, s), |indices|, n))
  }

  lemma FirstSampleFair(indices: seq<nat>, n: nat, m: nat)
    requires m < n && IsSample(indices, n, m)
    ensures FairlyUsed(indices, n)
  {
    DivIs(m, 0, m, n);
    forall s: nat | s < n ensures Fair(Uses(indices, s), m, n) {
      SampleUses(indices, n, m, s);
    }
  }

  lemma RefillFair(indices: seq<nat>, refill: seq<nat>, n: nat)
    requires n > 0 && FairlyUsed(indices, n) && IsSample(refill, n, n)
    ensures FairlyUsed(indices + refill, n)
  {
    AddDiv(|indices|, n);
    hide Uses;
    forall s: nat | s < n ensures Fair(Uses(indices + refill, s), |indices + refill|, n) {
      SampleUses(refill, n, n, s);
      UsesSum(indices, refill, s);
    }
  }

  ghost predicate Samples(refills: seq<seq<nat>>, n: nat) {
    forall i :: 0 <= i < |refills| ==> IsSample(refills[i], n, n)
  }

  /** A sample of m of the n indices, and then full permutations of them, one after the other. */
  ghost predicate Refilled(indices: seq<nat>, n: nat, m: nat) {
    exists first: seq<nat>, refills: seq<seq<nat>> ::
      IsSample(first, n, m) && Samples(refills, n) && indices == first + Flatten(refills)
  }

  lemma RefilledFirst(first: seq<nat>, n: nat, m: nat)
    requires IsSample(first, n, m)
    ensures Refilled(first, n, m)
  {
    var refills: seq<seq<nat>> := [];
    assert Samples(refills, n) && first == first + Flatten(refills);
  }

  lemma RefilledNext(indices: seq<nat>, refill: seq<nat>, n: nat, m: nat)
    requires Refilled(indices, n, m) && IsSample(refill, n, n)
    ensures Refilled(indices + refill, n, m)
  {
    hide IsSample;
    var first: seq<nat>, refills: seq<seq<nat>> :|
      IsSample(first, n, m) && Samples(refills, n) && indices == first + Flatten(refills);
    var more := refills + [refill];
    assert more[..|refills|] == refills;
    assert Samples(more, n);
    assert indices + refill == first + Flatten(more);
  }

  /** The indices of one label's records, one for each round; negative rounds leave the first sample. */
  method DrawIndices(n: nat, rounds: int) returns (indices: seq<nat>)
    requires n > 0
    ensures FairlyUsed(indices, n)
    ensures |indices| == if rounds >= 0 then rounds else rounds % n
    ensures Refilled(indices, n, rounds % n)
  {
    hide FairlyUsed, IsSample, Refilled;
    indices := Sample(n, rounds % n);
    IsSampleSize(indices, n, rounds % n);
    FirstSampleFair(indices, n, rounds % n);
    RefilledFirst(indices, n, rounds % n);
    if rounds >= 0 {
      LeftOver(rounds, n);
    }
    while |indices| < rounds
      invariant FairlyUsed(indices, n) && Refilled(indices, n, rounds % n)
      invariant rounds >= 0 ==> |indices| <= rounds && (rounds - |indices|) % n == 0
      invariant rounds < 0 ==> |indices| == rounds % n
      decreases rounds - |indices|
    {
      RefillStep(rounds, |indices|, n);
      var left := rounds - |indices|;
      var refill := Sample(n, if left < n then left else n);
      IsSampleSize(refill, n, n);
      RefillFair(indices, refill, n);
      RefilledNext(indices, refill, n, rounds % n);
      indices := indices + refill;
    }
  }

  lemma IsSampleSize(indices: seq<nat>, n: nat, m: nat)
    requires IsSample(indices, n, m)
    ensures |indices| == m
  {
  }

  lemma LeftOver(rounds: nat, n: nat)
    requires n > 0
    ensures rounds % n <= rounds && (rounds - rounds % n) % n == 0
  {
    assert rounds == n * (rounds / n) + rounds % n;
    DivIs(rounds - rounds % n, rounds / n, 0, n);
  }

  // ------------------------------------------------------------------ records by label

  ghost predicate GroupOf(group: seq<nat>, labels: seq<Label>, name: Label) {
    && Distinct(group) && |group| == multiset(labels)[name]
    && forall x: nat :: x in group <==> x < |labels| && labels[x] == name
  }

  /** Every label once, and the records of each. */
  ghost predicate Grouped(order: seq<Label>, samples: map<Label, seq<nat>>, labels: seq<Label>) {
    && Distinct(order)
    && (forall name :: name in order <==> name in labels)
    && (forall name :: name in samples <==> name in labels)
    && (forall name :: name in samples ==> GroupOf(samples[name], labels, name))
  }

  lemma GroupMore(group: seq<nat>, labels: seq<Label>, next: Label, name: Label)
    requires GroupOf(group, labels, name)
    ensures GroupOf(if next == name then group + [|labels|] else group, labels + [next], name)
  {
    assert |labels| !in group;
    assert multiset(labels + [next]) == multiset(labels) + multiset{next};
  }

  lemma NoGroup(labels: seq<Label>, name: Label)
    requires name !in labels
    ensures GroupOf([], labels, name)
  {
  }

  lemma GroupedMore(order: seq<Label>, samples: map<Label, seq<nat>>, labels: seq<Label>, name: Label)
    requires Grouped(order, samples, labels)
    ensures Grouped(
      if name in samples then order else order + [name],
      samples[name := (if name in samples then samples[name] else []) + [|labels|]], labels + [name])
  {
    var samples' := samples[name := (if name in samples then samples[name] else []) + [|labels|]];
    forall other | other in samples' ensures GroupOf(samples'[other], labels + [name], other) {
      if other in samples {
        GroupMore(samples[other], labels, name, other);
      } else {
        NoGroup(labels, name);
        GroupMore([], labels, name, name);
      }
    }
    hide GroupOf;
  }

  lemma GroupedAgain(order: seq<Label>, samples: map<Label, seq<nat>>, labels: seq<Label>, x: nat)
    requires x < |labels| && Grouped(order, samples, labels[..x]) && labels[x] in samples
    ensures Grouped(order, samples[labels[x] := samples[labels[x]] + [x]], labels[..x + 1])
  {
    GroupedMore(order, samples, labels[..x], labels[x]);
    assert labels[..x + 1] == labels[..x] + [labels[x]];
    hide Grouped;
  }

  lemma GroupedFirst(order: seq<Label>, samples: map<Label, seq<nat>>, labels: seq<Label>, x: nat)
    requires x < |labels| && Grouped(order, samples, labels[..x]) && labels[x] !in samples
    ensures Grouped(order + [labels[x]], samples[labels[x] := [x]], labels[..x + 1])
  {
    GroupedMore(order, samples, labels[..x], labels[x]);
    assert labels[..x + 1] == labels[..x] + [labels[x]];
    assert [] + [x] == [x];
    hide Grouped;
  }

  lemma NoneGrouped()
    ensures Grouped([], map[], []) && InListOrder([], map[], 0)
  {
  }

  /** A label's records, all below n, are in the order of the list. */
  ghost predicate ListOrder(group: seq<nat>, n: nat) {
    group != [] && Rising(group) && AllBelow(group, n)
  }

  /** Labels come in the order of their first records, and a label's records in the order of the list. */
  ghost predicate InListOrder(order: seq<Label>, samples: map<Label, seq<nat>>, n: nat) {
    && (forall i :: 0 <= i < |order| ==> order[i] in samples && ListOrder(samples[order[i]], n))
    && (forall i, j :: 0 <= i < j < |order| ==> samples[order[i]][0] < samples[order[j]][0])
  }

  lemma ListOrderNext(group: seq<nat>, n: nat)
    ensures ListOrder(group, n) ==>
      ListOrder(group, n + 1) && ListOrder(group + [n], n + 1) && (group + [n])[0] == group[0]
    ensures ListOrder([n], n + 1)
  {
  }

  lemma OrderAgain(order: seq<Label>, samples: map<Label, seq<nat>>, n: nat, name: Label)
    requires InListOrder(order, samples, n) && name in samples && samples[name] != []
    ensures InListOrder(order, samples[name := samples[name] + [n]], n + 1)
  {
    var samples' := samples[name := samples[name] + [n]];
    forall i | 0 <= i < |order|
      ensures ListOrder(samples'[order[i]], n + 1) && samples'[order[i]][0] == samples[order[i]][0]
    {
      ListOrderNext(samples[order[i]], n);
    }
  }

  lemma OrderFirst(order: seq<Label>, samples: map<Label, seq<nat>>, n: nat, name: Label)
    requires InListOrder(order, samples, n) && name !in samples
    ensures InListOrder(order + [name], samples[name := [n]], n + 1)
  {
    var order', samples' := order + [name], samples[name := [n]];
    forall i | 0 <= i < |order'|
      ensures ListOrder(samples'[order'[i]], n + 1)
      ensures i < |order| ==> samples'[order'[i]][0] == samples[order[i]][0] < n
    {
      ListOrderNext(samples'[order'[i]], n);
      if i < |order| {
        assert ListOrder(samples[order[i]], n);
      }
    }
  }

  lemma NotEmptyGroup(order: seq<Label>, samples: map<Label, seq<nat>>, labels: seq<Label>, name: Label)
    requires Grouped(order, samples, labels) && name in samples
    ensures samples[name] != []
  {
    assert multiset(labels)[name] > 0;
    assert GroupOf(samples[name], labels, name);
  }

  lemma AgainInOrder(order: seq<Label>, samples: map<Label, seq<nat>>, labels: seq<Label>, x: nat)
    requires x < |labels| && Grouped(order, samples, labels[..x]) && InListOrder(order, samples, x)
    requires labels[x] in samples
    ensures var samples' := samples[labels[x] := samples[labels[x]] + [x]];
      Grouped(order, samples', labels[..x + 1]) && InListOrder(order, samples', x + 1)
  {
    hide *;
    GroupedAgain(order, samples, labels, x);
    NotEmptyGroup(order, samples, labels[..x], labels[x]);
    OrderAgain(order, samples, x, labels[x]);
  }

  lemma FirstInOrder(order: seq<Label>, samples: map<Label, seq<nat>>, labels: seq<Label>, x: nat)
    requires x < |labels| && Grouped(order, samples, labels[..x]) && InListOrder(order, samples, x)
    requires labels[x] !in samples
    ensures
      Grouped(order + [labels[x]], samples[labels[x] := [x]], labels[..x + 1]) &&
      InListOrder(order + [labels[x]], samples[labels[x] := [x]], x + 1)
  {
    hide *;
    GroupedFirst(order, samples, labels, x);
    OrderFirst(order, samples, x, labels[x]);
  }

  /** Labels in order of appearance, and the records of each in the order of the list. */
  method Group(labels: seq<Label>) returns (order: seq<Label>, samples: map<Label, seq<nat>>)
    ensures Grouped(order, samples, labels) && InListOrder(order, samples, |labels|)
  {
    hide *;
    order, samples := [], map[];
    assert labels[..0] == [];
    NoneGrouped();
    for x := 0 to |labels|
      invariant Grouped(order, samples, labels[..x]) && InListOrder(order, samples, x)
    {
      var name := labels[x];
      if name in samples {
        AgainInOrder(order, samples, labels, x);
        samples := samples[name := samples[name] + [x]];
      } else {
        FirstInOrder(order, samples, labels, x);
        order := order + [name];
        samples := samples[name := [x]];
      }
    }
    assert labels[..|labels|] == labels;
  }

  // ------------------------------------------------------------------ rounds

  /** Every round has one record of each label done. */
  ghost predicate Covered(rounds: seq<seq<nat>>, labels: seq<Label>, done: seq<Label>) {
    forall i :: 0 <= i < |rounds| ==> CoveredRound(rounds[i], labels, done)
  }

  lemma ShuffledBelow(s: seq<nat>, shuffled: seq<nat>, n: nat)
    requires multiset(shuffled) == multiset(s) && AllBelow(s, n)
    ensures AllBelow(shuffled, n)
  {
    forall i | 0 <= i < |shuffled| ensures shuffled[i] < n {
      assert shuffled[i] in multiset(s);
    }
  }

  ghost predicate CoveredRound(round: seq<nat>, labels: seq<Label>, done: seq<Label>) {
    && |round| == |done|
    && AllBelow(round, |labels|)
    && (forall name :: name in labels ==> Count(round, labels, name) == if name in done then 1 else 0)
  }

  /** Over all rounds, the records of each label done are used fairly, and no others. */
  ghost predicate UsedFairly(rounds: seq<seq<nat>>, labels: seq<Label>, done: seq<Label>) {
    forall x: nat :: x < |labels| ==> UsedRecord(Uses(Flatten(rounds), x), |rounds|, labels, done, x)
  }

  ghost predicate UsedRecord(uses: nat, rounds: nat, labels: seq<Label>, done: seq<Label>, x: nat)
    requires x < |labels|
  {
    if labels[x] in done then Fair(uses, rounds, multiset(labels)[labels[x]]) else uses == 0
  }

  function Pick(group: seq<nat>, indices: seq<nat>): (column: seq<nat>)
    requires AllBelow(indices, |group|)
    ensures |column| == |indices| && forall i :: 0 <= i < |indices| ==> column[i] == group[indices[i]]
  {
    if indices == [] then [] else Pick(group, indices[..|indices| - 1]) + [group[indices[|indices| - 1]]]
  }

  lemma {:induction false} PickUses(group: seq<nat>, indices: seq<nat>, s: nat)
    requires Distinct(group) && s < |group| && AllBelow(indices, |group|)
    ensures Uses(Pick(group, indices), group[s]) == Uses(indices, s)
  {
    if indices != [] {
      var front, last := indices[..|indices| - 1], indices[|indices| - 1];
      PickUses(group, front, s);
      assert group[last] == group[s] <==> last == s;
      LastUse(indices, s);
      LastUse(Pick(group, indices), group[s]);
      assert Pick(group, indices)[..|front|] == Pick(group, front);
    }
  }

  lemma LastUse(s: seq<nat>, x: nat)
    requires s != []
    ensures Uses(s, x) == Uses(s[..|s| - 1], x) + if s[|s| - 1] == x then 1 else 0
  {
    assert s == s[..|s| - 1] + [s[|s| - 1]];
  }

  /** One more element in each round. */
  ghost predicate Extended(rounds: seq<seq<nat>>, rounds': seq<seq<nat>>, column: seq<nat>) {
    |rounds'| == |rounds| == |column| && forall i :: 0 <= i < |rounds| ==> rounds'[i] == rounds[i] + [column[i]]
  }

  lemma {:induction false} ExtendedUses(rounds: seq<seq<nat>>, rounds': seq<seq<nat>>, column: seq<nat>, x: nat)
    requires Extended(rounds, rounds', column)
    ensures Uses(Flatten(rounds'), x) == Uses(Flatten(rounds), x) + Uses(column, x)
  {
    if rounds != [] {
      var n := |rounds| - 1;
      ExtendedUses(rounds[..n], rounds'[..n], column[..n], x);
      assert column == column[..n] + [column[n]];
      hide Uses;
      UsesSum(column[..n], [column[n]], x);
      UsesSum(Flatten(rounds[..n]), rounds[n], x);
      UsesSum(Flatten(rounds'[..n]), rounds[n] + [column[n]], x);
      UsesSum(rounds[n], [column[n]], x);
    }
  }

  lemma NextCovered(
    rounds: seq<seq<nat>>, rounds': seq<seq<nat>>, column: seq<nat>, labels: seq<Label>, done: seq<Label>, name: Label)
    requires Covered(rounds, labels, done) && Extended(rounds, rounds', column) && name !in done
    requires forall i :: 0 <= i < |column| ==> column[i] < |labels| && labels[column[i]] == name
    ensures Covered(rounds', labels, done + [name])
  {
    forall i | 0 <= i < |rounds'| ensures CoveredRound(rounds'[i], labels, done + [name]) {
      assert CoveredRound(rounds[i], labels, done);
      assert rounds'[i][..|rounds[i]|] == rounds[i];
    }
  }

  lemma NextUsed(
    rounds: seq<seq<nat>>, rounds': seq<seq<nat>>, group: seq<nat>, indices: seq<nat>,
    labels: seq<Label>, done: seq<Label>, name: Label)
    requires UsedFairly(rounds, labels, done) && name !in done && name in labels && GroupOf(group, labels, name)
    requires FairlyUsed(indices, |group|) && |indices| == |rounds|
    requires Extended(rounds, rounds', Pick(group, indices))
    ensures UsedFairly(rounds', labels, done + [name])
  {
    forall x: nat | x < |labels|
      ensures UsedRecord(Uses(Flatten(rounds'), x), |rounds'|, labels, done + [name], x)
    {
      assert UsedRecord(Uses(Flatten(rounds), x), |rounds|, labels, done, x);
      hide *;
      NextUsedOne(rounds, rounds', group, indices, labels, done, name, x);
    }
  }

  lemma NextUsedOne(
    rounds: seq<seq<nat>>, rounds': seq<seq<nat>>, group: seq<nat>, indices: seq<nat>,
    labels: seq<Label>, done: seq<Label>, name: Label, x: nat)
    requires x < |labels| && UsedRecord(Uses(Flatten(rounds), x), |rounds|, labels, done, x)
    requires name !in done && name in labels && GroupOf(group, labels, name)
    requires FairlyUsed(indices, |group|) && |indices| == |rounds| == |rounds'|
    requires AllBelow(indices, |group|) && Extended(rounds, rounds', Pick(group, indices))
    ensures UsedRecord(Uses(Flatten(rounds'), x), |rounds'|, labels, done + [name], x)
  {
    hide *;
    ExtendedUses(rounds, rounds', Pick(group, indices), x);
    NextUsedRecord(Uses(Flatten(rounds), x), group, indices, labels, done, name, x);
  }

  lemma NextUsedRecord(
    uses: nat, group: seq<nat>, indices: seq<nat>, labels: seq<Label>, done: seq<Label>, name: Label, x: nat)
    requires x < |labels| && UsedRecord(uses, |indices|, labels, done, x)
    requires name !in done && name in labels && GroupOf(group, labels, name)
    requires FairlyUsed(indices, |group|)
    ensures UsedRecord(uses + Uses(Pick(group, indices), x), |indices|, labels, done + [name], x)
  {
    hide Fair;
    if labels[x] == name {
      assert x in group;
      var s :| 0 <= s < |group| && group[s] == x;
      PickUses(group, indices, s);
      hide Pick;
      assert Fair(Uses(indices, s), |indices|, |group|);
    } else {
      assert x !in group;
      assert x !in Pick(group, indices);
    }
  }

  /** Append a label's records, one to each round; None if there are fewer rounds than indices. */
  method AddColumn(rounds: seq<seq<nat>>, group: seq<nat>, indices: seq<nat>) returns (r: Option<seq<seq<nat>>>)
    requires AllBelow(indices, |group|)
    ensures r.None? <==> |indices| > |rounds|
    ensures r.Some? && |indices| == |rounds| ==> Extended(rounds, r.value, Pick(group, indices))
  {
    var more := rounds;
    for i := 0 to |indices|
      invariant |more| == |rounds| && i <= |rounds|
      invariant forall m :: 0 <= m < i ==> more[m] == rounds[m] + [group[indices[m]]]
      invariant forall m :: i <= m < |rounds| ==> more[m] == rounds[m]
    {
      if i >= |rounds| {
        return None;
      }
      more := more[i := more[i] + [group[indices[i]]]];
    }
    return Some(more);
  }

  // ------------------------------------------------------------------ shuffling

  lemma {:induction false} ShuffledUses(rounds: seq<seq<nat>>, i: nat, round: seq<nat>)
    requires i < |rounds| && multiset(round) == multiset(rounds[i])
    ensures multiset(Flatten(rounds[i := round])) == multiset(Flatten(rounds))
  {
    var n := |rounds| - 1;
    if i < n {
      ShuffledUses(rounds[..n], i, round);
      assert rounds[i := round][..n] == rounds[..n][i := round];
    } else {
      assert rounds[i := round][..n] == rounds[..n];
    }
  }

  lemma ShuffledCovered(rounds: seq<seq<nat>>, i: nat, round: seq<nat>, labels: seq<Label>, done: seq<Label>)
    requires i < |rounds| && multiset(round) == multiset(rounds[i])
    requires Covered(rounds, labels, done)
    ensures Covered(rounds[i := round], labels, done)
  {
    assert CoveredRound(rounds[i], labels, done);
    forall name | name in labels ensures Count(round, labels, name) == Count(rounds[i], labels, name) {
      CountShuffled(round, rounds[i], labels, name);
    }
    assert |round| == |multiset(round)|;
    ShuffledBelow(rounds[i], round, |labels|);
    assert CoveredRound(round, labels, done);
    hide CoveredRound;
  }

  lemma ShuffledUsed(rounds: seq<seq<nat>>, i: nat, round: seq<nat>, labels: seq<Label>, done: seq<Label>)
    requires i < |rounds| && multiset(round) == multiset(rounds[i])
    requires UsedFairly(rounds, labels, done)
    ensures UsedFairly(rounds[i := round], labels, done)
  {
    ShuffledUses(rounds, i, round);
    hide Flatten, UsedRecord;
    var rounds' := rounds[i := round];
    assert forall x: nat :: x < |labels| ==> Uses(Flatten(rounds'), x) == Uses(Flatten(rounds), x);
  }

  // ------------------------------------------------------------------ prefixes

  /** A round has at most one record of a label before any point. */
  lemma RoundPrefix(round: seq<nat>, labels: seq<Label>, order: seq<Label>, name: Label, t: nat)
    requires CoveredRound(round, labels, order) && name in labels && name in order && t <= |round|
    ensures Count(round[..t], labels, name) <= 1
    ensures t == |round| ==> Count(round[..t], labels, name) == 1
  {
    assert round == round[..t] + round[t..];
    CountSum(round[..t], round[t..], labels, name);
    assert t == |round| ==> round[..t] == round;
  }

  lemma FairAfterRounds(n: nat, t: nat, l: nat, count: nat, p: nat)
    requires 0 < t <= l && count <= 1 && (t == l ==> count == 1)
    requires p == t + l * n
    ensures Fair(n + count, p, l)
  {
    if t == l {
      DivIs(p, n + 1, 0, l);
    } else {
      DivIs(p, n, t, l);
    }
  }

  lemma OneMore(n: nat, l: nat)
    ensures (n + 1) * l == n * l + l
  {
  }

  lemma {:induction false} WholeRounds(rounds: seq<seq<nat>>, labels: seq<Label>, order: seq<Label>, name: Label)
    requires Covered(rounds, labels, order) && name in labels && name in order
    ensures |Flatten(rounds)| == |rounds| * |order|
    ensures Count(Flatten(rounds), labels, name) == |rounds|
  {
    if rounds != [] {
      var n := |rounds| - 1;
      var front, last := rounds[..n], rounds[n];
      assert Covered(front, labels, order) && CoveredRound(last, labels, order);
      WholeRounds(front, labels, order, name);
      assert Flatten(rounds) == Flatten(front) + last;
      hide Flatten, Count, CoveredRound, Covered;
      CountSum(Flatten(front), last, labels, name);
      RoundSize(last, labels, order);
      RoundPrefix(last, labels, order, name, |last|);
      assert last[..|last|] == last;
      OneMore(n, |order|);
    }
  }

  lemma {:induction false} RoundsBelow(rounds: seq<seq<nat>>, labels: seq<Label>, order: seq<Label>)
    requires Covered(rounds, labels, order)
    ensures AllBelow(Flatten(rounds), |labels|)
  {
    if rounds != [] {
      RoundsBelow(rounds[..|rounds| - 1], labels, order);
      RoundSize(rounds[|rounds| - 1], labels, order);
    }
  }

  /** Wherever the list is cut, every label occurs as often as every other, give or take one. */
  lemma {:induction false} PrefixFair(
    rounds: seq<seq<nat>>, labels: seq<Label>, order: seq<Label>, name: Label, p: nat)
    requires Covered(rounds, labels, order) && name in labels && name in order
    requires p <= |Flatten(rounds)|
    ensures Fair(Count(Flatten(rounds)[..p], labels, name), p, |order|)
  {
    if p == 0 {
      DivIs(0, 0, 0, |order|);
    } else {
      var front, last := rounds[..|rounds| - 1], rounds[|rounds| - 1];
      WholeRounds(front, labels, order, name);
      var whole := Flatten(front);
      if p <= |whole| {
        PrefixFair(front, labels, order, name, p);
        assert Flatten(rounds)[..p] == whole[..p];
      } else {
        var t := p - |whole|;
        assert CoveredRound(last, labels, order);
        assert Flatten(rounds)[..p] == whole + last[..t];
        hide Count, CoveredRound, Fair, Flatten;
        RoundPrefix(last, labels, order, name, t);
        CountSum(whole, last[..t], labels, name);
        assert |last| == |order| by { RoundSize(last, labels, order); }
        FairAfterRounds(|front|, t, |order|, Count(last[..t], labels, name), p);
      }
    }
  }

  lemma RoundSize(round: seq<nat>, labels: seq<Label>, order: seq<Label>)
    requires CoveredRound(round, labels, order)
    ensures |round| == |order| && AllBelow(round, |labels|)
  {
  }

  // ------------------------------------------------------------------ the sampler

  /** ceil(shots / l) */
  function NumRounds(shots: int, l: nat): int
    requires l > 0
  {
    -((-shots) / l)
  }

  lemma Ceiling(shots: int, l: nat)
    requires l > 0
    ensures (NumRounds(shots, l) - 1) * l < shots <= NumRounds(shots, l) * l
    ensures NumRounds(shots, l) < 0 ==> shots < 0
  {
    var q := (-shots) / l;
    assert -shots == l * q + (-shots) % l;
    assert NumRounds(shots, l) * l == -(l * q);
    assert (NumRounds(shots, l) - 1) * l == -(l * q) - l;
  }

  datatype Result = Drawn(records: seq<nat>) | ZeroDivision | IndexOutOfRange

  ghost function NumLabels(labels: seq<Label>): (l: nat)
    ensures labels != [] ==> l > 0
  {
    assert labels != [] ==> labels[0] in SetOf(labels);
    |SetOf(labels)|
  }

  /** Some label's records do not come out even over this many rounds. */
  ghost predicate SomeLeftOver(labels: seq<Label>, rounds: int) {
    exists name :: name in labels && rounds % multiset(labels)[name] != 0
  }

  lemma EveryLabel(order: seq<Label>, samples: map<Label, seq<nat>>, labels: seq<Label>)
    requires Grouped(order, samples, labels)
    ensures order == [] <==> labels == []
    ensures |order| == NumLabels(labels)
    ensures forall name :: name in order <==> name in labels
    ensures forall k :: 0 <= k < |order| ==> order[k] in labels && order[k] in samples
  {
    assert labels != [] ==> labels[0] in labels;
    assert order != [] ==> order[0] in order;
    SetOfSize(order);
    assert SetOf(order) == SetOf(labels);
  }

  lemma OneGroup(order: seq<Label>, samples: map<Label, seq<nat>>, labels: seq<Label>, name: Label)
    requires Grouped(order, samples, labels) && name in order
    ensures name in samples && GroupOf(samples[name], labels, name) && |samples[name]| > 0
    ensures Distinct(order)
  {
  }

  function NoRounds(n: int): (rounds: seq<seq<nat>>)
    ensures |rounds| == if n > 0 then n else 0
    ensures forall i :: 0 <= i < |rounds| ==> rounds[i] == []
  {
    if n <= 0 then [] else NoRounds(n - 1) + [[]]
  }

  lemma {:induction false} FlattenEmpty(rounds: seq<seq<nat>>)
    requires forall i :: 0 <= i < |rounds| ==> rounds[i] == []
    ensures Flatten(rounds) == []
  {
    if rounds != [] {
      FlattenEmpty(rounds[..|rounds| - 1]);
    }
  }

  lemma NothingDrawn(rounds: seq<seq<nat>>, labels: seq<Label>)
    requires forall i :: 0 <= i < |rounds| ==> rounds[i] == []
    ensures Covered(rounds, labels, []) && UsedFairly(rounds, labels, [])
  {
    FlattenEmpty(rounds);
  }

  lemma InRange(indices: seq<nat>, n: nat)
    requires FairlyUsed(indices, n)
    ensures AllBelow(indices, n)
  {
  }

  lemma NextLabel(
    rounds: seq<seq<nat>>, rounds': seq<seq<nat>>, group: seq<nat>, indices: seq<nat>,
    labels: seq<Label>, done: seq<Label>, name: Label)
    requires Covered(rounds, labels, done) && UsedFairly(rounds, labels, done)
    requires name !in done && name in labels && GroupOf(group, labels, name)
    requires FairlyUsed(indices, |group|) && |indices| == |rounds|
    requires Extended(rounds, rounds', Pick(group, indices))
    ensures Covered(rounds', labels, done + [name]) && UsedFairly(rounds', labels, done + [name])
  {
    hide Covered, UsedFairly;
    forall i | 0 <= i < |indices|
      ensures Pick(group, indices)[i] < |labels| && labels[Pick(group, indices)[i]] == name
    {
      assert group[indices[i]] in group;
    }
    NextCovered(rounds, rounds', Pick(group, indices), labels, done, name);
    NextUsed(rounds, rounds', group, indices, labels, done, name);
  }

  /** The rounds hold at least as many records as are asked for. */
  lemma Enough(rounds: seq<seq<nat>>, labels: seq<Label>, order: seq<Label>, shots: int)
    requires order != [] && order[0] in labels && Covered(rounds, labels, order)
    requires var n := NumRounds(shots, |order|); |rounds| == if n > 0 then n else 0
    ensures shots <= |Flatten(rounds)|
    ensures shots >= 0 ==> |rounds| == NumRounds(shots, |order|)
    ensures AllBelow(Flatten(rounds), |labels|)
  {
    WholeRounds(rounds, labels, order, order[0]);
    RoundsBelow(rounds, labels, order);
    Ceiling(shots, |order|);
  }

  /** The records of the rounds are records of the list, each used fairly. */
  lemma Balanced(rounds: seq<seq<nat>>, labels: seq<Label>, order: seq<Label>)
    requires UsedFairly(rounds, labels, order) && forall name :: name in labels ==> name in order
    ensures forall x: nat :: x < |labels| ==>
      Fair(Uses(Flatten(rounds), x), |rounds|, multiset(labels)[labels[x]])
  {
    hide Flatten, Fair, Uses;
  }

  /** `rounds` are the shuffled rounds before the list is cut. */
  method BalanceLabels(labels: seq<Label>, shots: int) returns (r: Result, ghost rounds: seq<seq<nat>>)
    // no records at all, and a negative number of rounds that some label does not divide
    ensures r.ZeroDivision? <==> labels == []
    ensures r.IndexOutOfRange? <==>
      labels != [] && NumRounds(shots, NumLabels(labels)) < 0
      && SomeLeftOver(labels, NumRounds(shots, NumLabels(labels)))
    ensures r.Drawn? ==> |r.records| == if shots > 0 then shots else 0
    ensures r.Drawn? ==> AllBelow(r.records, |labels|)
    // in every prefix, each label occurs as often as every other, give or take one
    ensures r.Drawn? ==> forall p, name :: 0 <= p <= |r.records| && name in labels ==>
      Fair(Count(r.records[..p], labels, name), p, NumLabels(labels))
    // before the cut, each record is used as often as the others of its label, give or take one
    ensures r.Drawn? && shots >= 0 ==>
      && |rounds| == NumRounds(shots, NumLabels(labels)) && r.records <= Flatten(rounds)
      && forall x: nat :: x < |labels| ==>
           Fair(Uses(Flatten(rounds), x), |rounds|, multiset(labels)[labels[x]])
  {
    hide Grouped, Covered, UsedFairly, NumRounds, FairlyUsed, Extended, Pick, Flatten, Fair, Count, Uses;
    rounds := [];
    var order, samples := Group(labels);
    EveryLabel(order, samples, labels);
    if order == [] {
      return ZeroDivision, [];
    }
    var n := NumRounds(shots, |order|);
    var work: seq<seq<nat>> := NoRounds(n);
    NothingDrawn(work, labels);
    assert order[..0] == [];
    for j := 0 to |order|
      invariant |work| == if n > 0 then n else 0
      invariant Covered(work, labels, order[..j]) && UsedFairly(work, labels, order[..j])
      invariant n < 0 ==> forall k :: 0 <= k < j ==> n % multiset(labels)[order[k]] == 0
    {
      var name := order[j];
      var group := samples[name];
      OneGroup(order, samples, labels, name);
      var indices := DrawIndices(|group|, n);
      InRange(indices, |group|);
      var more := AddColumn(work, group, indices);
      if more.None? {
        return IndexOutOfRange, [];
      }
      NextLabel(work, more.value, group, indices, labels, order[..j], name);
      assert order[..j + 1] == order[..j] + [name];
      work := more.value;
    }
    assert order[..|order|] == order;
    for i := 0 to |work|
      invariant |work| == if n > 0 then n else 0
      invariant Covered(work, labels, order) && UsedFairly(work, labels, order)
    {
      var shuffled := Shuffle(work[i]);
      ShuffledCovered(work, i, shuffled, labels, order);
      ShuffledUsed(work, i, shuffled, labels, order);
      work := work[i := shuffled];
    }
    rounds := work;
    var all := Flatten(work);
    var cut := if shots > 0 then shots else 0;
    Enough(work, labels, order, shots);
    r := Drawn(all[..cut]);
    Balanced(work, labels, order);
    forall p, name | 0 <= p <= cut && name in labels
      ensures Fair(Count(r.records[..p], labels, name), p, |order|)
    {
      PrefixFair(work, labels, order, name, p);
      assert r.records[..p] == all[..p];
    }
  }

  /** Two records of one label and -1 shots: one round less than none, which two does not divide. */
  lemma MinusOneShot(labels: seq<Label>, name: Label)
    requires labels == [name, name]
    ensures NumLabels(labels) == 1 && NumRounds(-1, 1) == -1 && SomeLeftOver(labels, -1)
  {
    assert SetOf(labels) == {name};
    assert name in labels && multiset(labels)[name] == 2;
  }
}
