/** Optional values, and facts about sequences and sets that several modules use. */
module Collections {
  datatype Option<T> = None | Some(value: T) {
    function GetOr(default: T): T {
      if Some? then value else default
    }
  }

  function Get<K, V>(m: map<K, V>, k: K): Option<V> {
    if k in m then Some(m[k]) else None
  }

  function Flatten<T>(batches: seq<seq<T>>): seq<T> {
    if batches == [] then [] else Flatten(batches[..|batches| - 1]) + batches[|batches| - 1]
  }

  lemma FlattenAppend<T>(batches: seq<seq<T>>, batch: seq<T>)
    ensures Flatten(batches + [batch]) == Flatten(batches) + batch
  {
    assert (batches + [batch])[..|batches|] == batches;
  }

  /** 0 to n - 1 in order. */
  function Iota(n: nat): (s: seq<nat>)
    ensures |s| == n && forall i :: 0 <= i < n ==> s[i] == i
  {
    if n == 0 then [] else Iota(n - 1) + [n - 1]
  }

  ghost function SetOf<T>(s: seq<T>): set<T> {
    set x | x in s
  }

  predicate Distinct<T(==)>(s: seq<T>) {
    forall i, j :: 0 <= i < j < |s| ==> s[i] != s[j]
  }

  /** The numbers below b. */
  ghost function Below(b: nat): (js: set<nat>)
    ensures forall j :: j in js <==> 0 <= j < b
    ensures |js| == b
  {
    if b == 0 then {} else Below(b - 1) + {b - 1}
  }

  ghost function Element<T>(s: set<T>): (x: T)
    requires s != {}
    ensures x in s
  {
    var x :| x in s;
    x
  }

  lemma {:induction false} SetOfSize<T>(s: seq<T>)
    ensures |SetOf(s)| <= |s|
    ensures Distinct(s) ==> |SetOf(s)| == |s|
  {
    if s != [] {
      SetOfSize(s[..|s| - 1]);
      assert SetOf(s) == SetOf(s[..|s| - 1]) + {s[|s| - 1]};
    }
  }

  lemma {:induction false} SubsetSize<T>(a: set<T>, b: set<T>)
    requires a <= b
    ensures |a| <= |b|
  {
    if a != {} {
      var x :| x in a;
      SubsetSize(a - {x}, b - {x});
    }
  }

  lemma SubsetSameSize<T>(a: set<T>, b: set<T>)
    requires a <= b && |a| == |b|
    ensures a == b
  {
    if x :| x in b && x !in a {
      SubsetSize(a, b - {x});
    }
  }

  /** Keep the first of equal elements, in order. */
  function WithoutRepeats<T(==)>(s: seq<T>): seq<T> {
    if s == [] then []
    else
      var front := WithoutRepeats(s[..|s| - 1]);
      if s[|s| - 1] in front then front else front + [s[|s| - 1]]
  }

  ghost predicate Rising(at: seq<int>) {
    forall j, k :: 0 <= j < k < |at| ==> at[j] < at[k]
  }

  /** `part` are the elements of s at these places, in order. */
  ghost predicate Places<T>(s: seq<T>, part: seq<T>, at: seq<nat>) {
    && |at| == |part| && Rising(at)
    && forall k :: 0 <= k < |at| ==> at[k] < |s| && part[k] == s[at[k]]
  }

  /** `part` are exactly the elements of s that pass, in order. */
  ghost predicate Passes<T(!new)>(s: seq<T>, pass: T -> bool, part: seq<T>) {
    exists at: seq<nat> :: Places(s, part, at) && AllPassing(s, pass, at)
  }

  ghost predicate AllPassing<T(!new)>(s: seq<T>, pass: T -> bool, at: seq<nat>) {
    forall i :: 0 <= i < |s| ==> (pass(s[i]) <==> i in at)
  }

  lemma PassesNone<T(!new)>(pass: T -> bool)
    ensures Passes([], pass, [])
  {
    var none: seq<nat> := [];
    assert Places<T>([], [], none) && AllPassing([], pass, none);
  }

  lemma PassesMore<T(!new)>(s: seq<T>, pass: T -> bool, part: seq<T>, x: T)
    requires Passes(s, pass, part)
    ensures Passes(s + [x], pass, if pass(x) then part + [x] else part)
  {
    hide Places, AllPassing;
    var at: seq<nat> :| Places(s, part, at) && AllPassing(s, pass, at);
    PlacesMore(s, part, at, x);
    PassingMore(s, pass, part, at, x);
  }

  lemma PlacesMore<T>(s: seq<T>, part: seq<T>, at: seq<nat>, x: T)
    requires Places(s, part, at)
    ensures Places(s + [x], part, at) && Places(s + [x], part + [x], at + [|s|])
  {
  }

  lemma PassingMore<T(!new)>(s: seq<T>, pass: T -> bool, part: seq<T>, at: seq<nat>, x: T)
    requires Places(s, part, at) && AllPassing(s, pass, at)
    ensures AllPassing(s + [x], pass, if pass(x) then at + [|s|] else at)
  {
  }

  /** `at` are the places in s of the first occurrences of the elements of `kept`, in order. */
  ghost predicate FirstPlaces<T>(s: seq<T>, kept: seq<T>, at: seq<nat>) {
    Places(s, kept, at) && forall k :: 0 <= k < |at| ==> kept[k] !in s[..at[k]]
  }

  lemma LaterPlaces<T>(s: seq<T>, kept: seq<T>, at: seq<nat>, last: T)
    requires FirstPlaces(s, kept, at)
    ensures FirstPlaces(s + [last], kept, at)
    ensures last !in s ==> FirstPlaces(s + [last], kept + [last], at + [|s|])
  {
    assert forall k :: 0 <= k < |at| ==> (s + [last])[..at[k]] == s[..at[k]];
    assert (s + [last])[..|s|] == s;
  }

  /** All elements are kept, each once, at the place of its first occurrence. */
  lemma {:induction false} KeptAreFirst<T>(s: seq<T>)
    ensures forall x :: x in WithoutRepeats(s) <==> x in s
    ensures Distinct(WithoutRepeats(s))
    ensures exists at: seq<nat> :: FirstPlaces(s, WithoutRepeats(s), at)
  {
    hide FirstPlaces;
    if s == [] {
      NoPlaces(s);
    } else {
      var front, last := s[..|s| - 1], s[|s| - 1];
      KeptAreFirst(front);
      assert s == front + [last];
      var at: seq<nat> :| FirstPlaces(front, WithoutRepeats(front), at);
      LaterPlaces(front, WithoutRepeats(front), at, last);
    }
  }

  lemma NoPlaces<T>(s: seq<T>)
    requires s == []
    ensures FirstPlaces(s, [], [])
  {
  }
}
