/**
 Unique instance keys (`_unique_native_id` in src/olmo_eval/upload/extract.py): a repeated
 key gets a numbered suffix, found from a cached counter instead of from the start.
 */
module NativeIds {
  import opened Collections

  const MAX_NATIVE_ID := 512

  const NUMERAL_LIMIT := 500

  // ------------------------------------------------------------------ decimal numerals

  function Digit(d: nat): char
    requires d < 10
  {
    '0' + d as char
  }

  function Numeral(n: nat): (s: string)
    ensures |s| >= 1
    ensures forall i :: 0 <= i < |s| ==> '0' <= s[i] <= '9'
  {
    if n < 10 then [Digit(n)] else Numeral(n / 10) + [Digit(n % 10)]
  }

  lemma {:induction false} NumeralInjective(n: nat, m: nat)
    requires Numeral(n) == Numeral(m)
    ensures n == m
  {
    if n >= 10 && m >= 10 {
      var s := Numeral(n);
      assert s[..|s| - 1] == Numeral(n / 10) == Numeral(m / 10);
      assert s[|s| - 1] == Digit(n % 10) == Digit(m % 10);
      NumeralInjective(n / 10, m / 10);
    }
  }

  /** What a text of digits says. */
  function Value(s: string): int {
    if s == [] then 0 else 10 * Value(s[..|s| - 1]) + (s[|s| - 1] as int - '0' as int)
  }

  /** A numeral says its number, and begins with no zero but for the number zero. */
  lemma {:induction false} NumeralReads(n: nat)
    ensures Value(Numeral(n)) == n && (n > 0 ==> Numeral(n)[0] != '0')
  {
    if n < 10 {
      DigitReads(n);
    } else {
      NumeralReads(n / 10);
      DigitReads(n % 10);
      var s := Numeral(n);
      assert s[..|s| - 1] == Numeral(n / 10);
    }
  }

  lemma DigitReads(d: nat)
    requires d < 10
    ensures Digit(d) as int - '0' as int == d && Value([Digit(d)]) == d && (d > 0 ==> Digit(d) != '0')
  {
    assert [Digit(d)][..0] == [];
  }

  function Pow10(d: nat): nat {
    if d == 0 then 1 else 10 * Pow10(d - 1)
  }

  lemma {:induction false} NumeralShort(n: nat, d: nat)
    requires d >= 1 && n < Pow10(d)
    ensures |Numeral(n)| <= d
  {
    if n >= 10 {
      assert d > 1 by { assert Pow10(1) == 10 * Pow10(0) == 10; }
      NumeralShort(n / 10, d - 1);
    }
  }

  // ------------------------------------------------------------------ candidates

  /** s[:k] as Python slices it: a negative k counts from the end. */
  function Cut(s: string, k: int): string {
    if k >= |s| then s
    else if k >= 0 then s[..k]
    else if |s| + k >= 0 then s[..|s| + k]
    else ""
  }

  function Suffix(n: nat): string {
    "#" + Numeral(n)
  }

  /** What the search tries for number n. */
  function Candidate(base: string, n: nat): string {
    if n == 1 then base else Cut(base, MAX_NATIVE_ID - |Suffix(n)|) + Suffix(n)
  }

  /** A numbered candidate is as much of the base as fits 512 characters with the mark and the number after it. */
  lemma CandidateKeeps(base: string, n: nat)
    requires n != 1 && |Numeral(n)| < 512
    ensures
      var id, mark := Candidate(base, n), "#" + Numeral(n);
      var kept := |id| - |mark|;
      && 0 <= kept <= |base| && id == base[..kept] + mark
      && |id| == if |base| + |mark| < 512 then |base| + |mark| else 512
  {
    hide Numeral;
  }

  /** No two numbers above one give the same candidate, however the base is cut. */
  lemma CandidatesDiffer(base: string, n: nat, m: nat)
    requires n != 1 && m != 1 && n != m
    ensures Candidate(base, n) != Candidate(base, m)
  {
    if |Numeral(n)| == |Numeral(m)| {
      SameTail(base, n, m);
    } else if |Numeral(n)| < |Numeral(m)| {
      MarkInside(base, n, m);
    } else {
      MarkInside(base, m, n);
    }
  }

  lemma SameTail(base: string, n: nat, m: nat)
    requires n != 1 && m != 1 && n != m && |Numeral(n)| == |Numeral(m)|
    ensures Candidate(base, n) != Candidate(base, m)
  {
    hide Numeral, Cut;
    var p, q := Cut(base, MAX_NATIVE_ID - |Suffix(n)|), Cut(base, MAX_NATIVE_ID - |Suffix(m)|);
    if p + Suffix(n) == q + Suffix(m) {
      EndsAlike(p, q, Suffix(n), Suffix(m));
      EndsAlike("#", "#", Numeral(n), Numeral(m));
      NumeralInjective(n, m);
    }
  }

  lemma EndsAlike(p: string, q: string, s: string, t: string)
    requires |s| == |t| && p + s == q + t
    ensures s == t
  {
    assert (p + s)[|p|..] == s && (q + t)[|q|..] == t;
  }

  /** The mark of the shorter numeral would fall on a digit of the longer one. */
  lemma MarkInside(base: string, n: nat, m: nat)
    requires n != 1 && m != 1 && |Numeral(n)| < |Numeral(m)|
    ensures Candidate(base, n) != Candidate(base, m)
  {
    hide Numeral, Cut;
    var p, q := Cut(base, MAX_NATIVE_ID - |Suffix(n)|), Cut(base, MAX_NATIVE_ID - |Suffix(m)|);
    TailAt(p, Suffix(n), |Suffix(n)|);
    TailAt(q, Suffix(m), |Suffix(n)|);
  }

  /** The character l places from the end of p + tail is that of the tail. */
  lemma TailAt(p: string, tail: string, l: nat)
    requires 1 <= l <= |tail|
    ensures (p + tail)[|p + tail| - l] == tail[|tail| - l]
  {
  }

  ghost function Numbered(base: string, n: nat): set<string> {
    set m | 2 <= m <= n :: Candidate(base, m)
  }

  lemma {:induction false} NumberedCount(base: string, n: nat)
    requires n >= 1
    ensures |Numbered(base, n)| == n - 1
  {
    if n == 1 {
      assert Numbered(base, 1) == {};
    } else {
      NumberedCount(base, n - 1);
      assert Numbered(base, n) == Numbered(base, n - 1) + {Candidate(base, n)};
      forall m | 2 <= m <= n - 1 ensures Candidate(base, m) != Candidate(base, n) {
        CandidatesDiffer(base, m, n);
      }
    }
  }

  /** Candidates 1 to n are all taken. */
  ghost predicate Taken(base: string, used: set<string>, n: nat) {
    forall m :: 1 <= m <= n ==> Candidate(base, m) in used
  }

  lemma TakenBounded(base: string, used: set<string>, n: nat)
    requires Taken(base, used, n)
    ensures n <= |used| + 1
  {
    if n >= 1 {
      NumberedCount(base, n);
      SubsetSize(Numbered(base, n), used);
    }
  }

  /** The naive search: the least free number from n on. */
  ghost function LeastFrom(base: string, used: set<string>, n: nat): (k: nat)
    requires n >= 1 && Taken(base, used, n - 1)
    ensures k >= n && Taken(base, used, k - 1) && Candidate(base, k) !in used
    ensures k <= |used| + 2
    decreases |used| + 2 - n
  {
    TakenBounded(base, used, n - 1);
    if Candidate(base, n) !in used then n
    else
      TakenBounded(base, used, n);
      LeastFrom(base, used, n + 1)
  }

  ghost function LeastFree(base: string, used: set<string>): nat {
    LeastFrom(base, used, 1)
  }

  lemma LeastIsUnique(base: string, used: set<string>, k: nat)
    requires k >= 1 && Taken(base, used, k - 1) && Candidate(base, k) !in used
    ensures k == LeastFree(base, used)
  {
    var l := LeastFree(base, used);
    assert Candidate(base, l) !in used;
  }

  // ------------------------------------------------------------------ the cached counter

  /** The `counts` and `used` that one pass over a file carries along. */
  class Keys {
    var counts: map<string, nat>
    var used: set<string>

    constructor ()
      ensures Valid() && used == {} && counts == map[]
    {
      counts, used := map[], {};
    }

    /** Every number a counter has passed is taken, so the search may start after it. */
    ghost predicate Valid()
      reads this
    {
      forall base :: base in counts ==> Taken(base, used, counts[base])
    }

    /** _unique_native_id */
    method Unique(base: string) returns (id: string)
      requires Valid()
      modifies this
      ensures Valid()
      ensures id == Candidate(base, LeastFree(base, old(used)))
      ensures id !in old(used) && used == old(used) + {id}
      ensures counts == old(counts)[base := LeastFree(base, old(used))]
    {
      var n: nat := if base in counts then counts[base] else 0;
      TakenBounded(base, used, n);
      while true
        invariant Taken(base, used, n)
        invariant n <= |used| + 1
        invariant used == old(used) && counts == old(counts)
        decreases |used| + 1 - n
      {
        n := n + 1;
        var candidate := base;
        if n != 1 {
          var suffix := "#" + Numeral(n);
          candidate := Cut(base, MAX_NATIVE_ID - |suffix|) + suffix;
        }
        if candidate !in used {
          LeastIsUnique(base, used, n);
          counts := counts[base := n];
          used := used + {candidate};
          return candidate;
        }
        assert Taken(base, used, n);
        TakenBounded(base, used, n);
      }
    }
  }

  // ------------------------------------------------------------------ a whole file

  /** The ids of a file, each by naive search among the ids before it. */
  ghost function Ids(bases: seq<string>): (ids: seq<string>)
    ensures |ids| == |bases|
  {
    if bases == [] then []
    else
      var before, base := Ids(bases[..|bases| - 1]), bases[|bases| - 1];
      before + [Candidate(base, LeastFree(base, SetOf(before)))]
  }

  lemma CandidateLength(base: string, n: nat)
    requires 1 <= |base| <= MAX_NATIVE_ID && n >= 1 && n < Pow10(NUMERAL_LIMIT)
    ensures 1 <= |Candidate(base, n)| <= MAX_NATIVE_ID
  {
    hide Pow10;
    NumeralShort(n, NUMERAL_LIMIT);
  }

  /**
   All ids of a file are different, and have 1 to 512 characters like their bases. The
   bound on the number of lines only keeps line numbers to 500 digits.
   */
  lemma {:induction false} IdsAreKeys(bases: seq<string>)
    requires forall i :: 0 <= i < |bases| ==> 1 <= |bases[i]| <= MAX_NATIVE_ID
    requires |bases| + 2 < Pow10(NUMERAL_LIMIT)
    ensures Distinct(Ids(bases))
    ensures forall i :: 0 <= i < |bases| ==> 1 <= |Ids(bases)[i]| <= MAX_NATIVE_ID
  {
    hide Pow10;
    if bases != [] {
      var before, base := Ids(bases[..|bases| - 1]), bases[|bases| - 1];
      IdsAreKeys(bases[..|bases| - 1]);
      SetOfSize(before);
      CandidateLength(base, LeastFree(base, SetOf(before)));
      assert forall i :: 0 <= i < |before| ==> before[i] in SetOf(before);
    }
  }

  lemma {:induction false} IdsDistinct(bases: seq<string>)
    ensures Distinct(Ids(bases))
  {
    if bases != [] {
      var before := Ids(bases[..|bases| - 1]);
      IdsDistinct(bases[..|bases| - 1]);
      assert forall i :: 0 <= i < |before| ==> before[i] in SetOf(before);
    }
  }

  /** Ids are the bases themselves exactly when no base repeats. */
  lemma {:induction false} UnchangedWhenDistinct(bases: seq<string>)
    ensures Ids(bases) == bases <==> Distinct(bases)
  {
    IdsDistinct(bases);
    if bases != [] && Distinct(bases) {
      var front, base := bases[..|bases| - 1], bases[|bases| - 1];
      UnchangedWhenDistinct(front);
      assert base !in SetOf(front);
      LeastIsUnique(base, SetOf(front), 1);
      assert bases == front + [base];
    }
  }

  /** An id that repeats: the second one is changed. */
  lemma RepeatedIdChanges()
    ensures Ids(["7", "7"]) == ["7", "7#2"]
  {
    var bases := ["7", "7"];
    assert bases[..1] == ["7"] && bases[..1][..0] == [];
    LeastIsUnique("7", SetOf([]), 1);
    assert Ids(bases[..1]) == [] + ["7"];
    SecondCandidate("7");
    assert Candidate("7", 1) == "7" && Candidate("7", 2) == "7#2";
    LeastIsUnique("7", SetOf(["7"]), 2);
    assert Ids(bases) == ["7"] + ["7#2"];
  }

  lemma SecondCandidate(base: string)
    requires |base| == 1
    ensures Candidate(base, 2) == base + "#2"
  {
    assert Numeral(2) == "2";
    assert Suffix(2) == "#2";
  }
}
