/**
 pass@k and pass^k (src/olmo_eval/common/utils.py) over the reals: the product form is the
 share of k-subsets of the samples that hold a correct one.
 */
module PassAtK {
  import opened Collections

  /** The share of wrong samples among those left after i wrong ones are drawn. */
  function Factor(n: int, c: int, i: int): real
    requires i < n
  {
    (n - c - i) as real / (n - i) as real
  }

  /** The product of (n - c - i) / (n - i) for i below k. */
  function MissProduct(n: int, c: int, k: int): real
    requires k <= 0 || k <= n
    decreases k
  {
    if k <= 0 then 1.0 else MissProduct(n, c, k - 1) * Factor(n, c, k - 1)
  }

  function Min(a: int, b: int): int {
    if a < b then a else b
  }

  /** compute_pass_at_k */
  function ComputePassAtK(n: int, c: int, k: int): real {
    if n == 0 then 0.0
    else
      var k := Min(k, n);
      if n - c < k then 1.0 else 1.0 - MissProduct(n, c, k)
  }

  function Pow(x: real, k: nat): real {
    if k == 0 then 1.0 else x * Pow(x, k - 1)
  }

  /** compute_pass_pow_k */
  function ComputePassPowK(n: int, c: int, k: nat): real {
    if n == 0 then 0.0 else Pow(c as real / n as real, k)
  }

  // ------------------------------------------------------------------ counting subsets

  /** Binomial coefficients by Pascal's rule. */
  ghost function Choose(n: nat, k: nat): nat {
    if k == 0 then 1 else if n == 0 then 0 else Choose(n - 1, k) + Choose(n - 1, k - 1)
  }

  ghost function With(sets: set<set<nat>>, x: nat): set<set<nat>> {
    set t | t in sets :: t + {x}
  }

  /** All subsets of s with k elements. */
  ghost function Subsets(s: set<nat>, k: nat): set<set<nat>> {
    if k == 0 then {{}}
    else if s == {} then {}
    else
      var x := Element(s);
      Subsets(s - {x}, k) + With(Subsets(s - {x}, k - 1), x)
  }

  lemma InWith(sets: set<set<nat>>, x: nat, t: set<nat>)
    requires forall u :: u in sets ==> x !in u
    ensures t in With(sets, x) <==> x in t && t - {x} in sets
  {
    if t in With(sets, x) {
      var u :| u in sets && t == u + {x};
      assert t - {x} == u;
    }
    if x in t {
      assert t == (t - {x}) + {x};
    }
  }

  lemma SubsetsStep(s: set<nat>, k: nat)
    requires k > 0 && s != {}
    ensures var x := Element(s);
      Subsets(s, k) == Subsets(s - {x}, k) + With(Subsets(s - {x}, k - 1), x)
  {
  }

  lemma SubsetsEnd(s: set<nat>, k: nat)
    requires k == 0 || s == {}
    ensures Subsets(s, k) == if k == 0 then {{}} else {}
  {
  }

  lemma WithoutElement(s: set<nat>, x: nat, t: set<nat>)
    requires x in s
    ensures x in t ==> |t - {x}| == |t| - 1 && (t - {x} <= s - {x} <==> t <= s)
    ensures x !in t ==> (t <= s - {x} <==> t <= s)
  {
    if x in t && t - {x} <= s - {x} {
      forall y | y in t ensures y in s {
        assert y == x || y in t - {x};
      }
    }
  }

  lemma {:induction false} SubsetsAre(s: set<nat>, k: nat)
    ensures forall t :: t in Subsets(s, k) <==> t <= s && |t| == k
    decreases |s|
  {
    hide Subsets, With;
    if k > 0 && s != {} {
      var x := Element(s);
      SubsetsAre(s - {x}, k);
      SubsetsAre(s - {x}, k - 1);
      SubsetsStep(s, k);
      forall t ensures t in Subsets(s, k) <==> t <= s && |t| == k {
        InWith(Subsets(s - {x}, k - 1), x, t);
        WithoutElement(s, x, t);
      }
    } else {
      SubsetsEnd(s, k);
    }
  }

  lemma {:induction false} WithCount(sets: set<set<nat>>, x: nat)
    requires forall t :: t in sets ==> x !in t
    ensures |With(sets, x)| == |sets|
  {
    if sets != {} {
      var t :| t in sets;
      WithCount(sets - {t}, x);
      InWith(sets - {t}, x, t + {x});
      assert t + {x} - {x} == t;
      assert With(sets, x) == With(sets - {t}, x) + {t + {x}};
    }
  }

  lemma {:induction false} SubsetsCount(s: set<nat>, k: nat)
    ensures |Subsets(s, k)| == Choose(|s|, k)
    decreases |s|
  {
    hide Subsets, With;
    if k > 0 && s != {} {
      var x := Element(s);
      var without, others := Subsets(s - {x}, k), Subsets(s - {x}, k - 1);
      SubsetsCount(s - {x}, k);
      SubsetsCount(s - {x}, k - 1);
      SubsetsAre(s - {x}, k);
      SubsetsAre(s - {x}, k - 1);
      SubsetsStep(s, k);
      WithCount(others, x);
      forall t | t in without ensures t !in With(others, x) {
        InWith(others, x, t);
      }
      DisjointCount(without, With(others, x));
    } else {
      SubsetsEnd(s, k);
    }
  }

  lemma DisjointCount(a: set<set<nat>>, b: set<set<nat>>)
    requires forall t :: t in a ==> t !in b
    ensures |a + b| == |a| + |b|
  {
    assert a !! b;
  }

  /** The k-subsets of the samples that hold a correct one. */
  ghost function Passing(samples: set<nat>, correct: set<nat>, k: nat): set<set<nat>> {
    set t | t in Subsets(samples, k) && t * correct != {}
  }

  lemma InPassing(samples: set<nat>, correct: set<nat>, k: nat, t: set<nat>)
    ensures t in Passing(samples, correct, k) <==> t in Subsets(samples, k) && t * correct != {}
  {
  }

  /** A subset misses every correct sample exactly when it is one of the wrong ones. */
  lemma Missing(samples: set<nat>, correct: set<nat>, t: set<nat>)
    ensures t <= samples - correct <==> t <= samples && t * correct == {}
  {
    if t <= samples && t * correct == {} {
      forall x | x in t ensures x in samples - correct {
        assert x !in t * correct;
      }
    }
  }

  lemma PassingCount(samples: set<nat>, correct: set<nat>, k: nat)
    requires correct <= samples && |correct| <= |samples|
    ensures |Passing(samples, correct, k)| == Choose(|samples|, k) - Choose(|samples| - |correct|, k)
  {
    hide *;
    var wrong, passing := samples - correct, Passing(samples, correct, k);
    assert |wrong| == |samples| - |correct|;
    SubsetsAre(samples, k);
    SubsetsAre(wrong, k);
    SubsetsCount(samples, k);
    SubsetsCount(wrong, k);
    forall t
      ensures t in Subsets(samples, k) <==> t in passing + Subsets(wrong, k)
      ensures t in passing ==> t !in Subsets(wrong, k)
    {
      InPassing(samples, correct, k, t);
      Missing(samples, correct, t);
    }
    assert Subsets(samples, k) == passing + Subsets(wrong, k);
    DisjointCount(passing, Subsets(wrong, k));
  }

  // ------------------------------------------------------------------ the product form

  /** k C(n, k) = (n - k + 1) C(n, k - 1) */
  lemma {:induction false} Absorption(n: nat, k: nat)
    requires k >= 1
    ensures k * Choose(n, k) == (n - k + 1) * Choose(n, k - 1)
  {
    if n == 0 {
    } else if k == 1 {
      Absorption(n - 1, 1);
    } else {
      Absorption(n - 1, k);
      Absorption(n - 1, k - 1);
      AbsorptionStep(n, k, Choose(n - 1, k), Choose(n - 1, k - 1), Choose(n - 1, k - 2));
    }
  }

  lemma AbsorptionStep(n: nat, k: nat, a: nat, b: nat, c: nat)
    requires k * a == (n - k) * b && (k - 1) * b == (n - k + 1) * c
    ensures k * (a + b) == (n - k + 1) * (b + c)
  {
    assert k * (a + b) == (n - k) * b + k * b;
    assert (n - k) * b + k * b == n * b;
    assert (n - k + 1) * (b + c) == (n - k + 1) * b + (k - 1) * b;
    assert (n - k + 1) * b + (k - 1) * b == n * b;
  }

  lemma {:induction false} ChoosePositive(n: nat, k: nat)
    requires k <= n
    ensures Choose(n, k) > 0
  {
    if k > 0 {
      ChoosePositive(n - 1, k - 1);
    }
  }

  lemma {:induction false} ChooseTooMany(n: nat, k: nat)
    requires k > n
    ensures Choose(n, k) == 0
  {
    if n > 0 {
      ChooseTooMany(n - 1, k);
      ChooseTooMany(n - 1, k - 1);
    }
  }

  /** The product is the share of k-subsets that miss every correct sample. */
  lemma {:induction false} ProductIsShare(n: nat, c: nat, k: nat)
    requires c <= n && k <= n
    ensures MissProduct(n, c, k) * Choose(n, k) as real == Choose(n - c, k) as real
  {
    hide *;
    if k == 0 {
      NothingDrawn(n, c);
    } else {
      ProductIsShare(n, c, k - 1);
      NextShare(n, c, k);
    }
  }

  lemma NothingDrawn(n: nat, c: nat)
    ensures MissProduct(n, c, 0) == 1.0 && Choose(n, 0) == 1 && (c <= n ==> Choose(n - c, 0) == 1)
  {
  }

  lemma NextShare(n: nat, c: nat, k: nat)
    requires c <= n && 0 < k <= n
    requires MissProduct(n, c, k - 1) * Choose(n, k - 1) as real == Choose(n - c, k - 1) as real
    ensures MissProduct(n, c, k) * Choose(n, k) as real == Choose(n - c, k) as real
  {
    hide *;
    ProductStep(n, c, k);
    Absorption(n, k);
    Absorption(n - c, k);
    ShareStep(MissProduct(n, c, k - 1), k, n - k + 1, n - c - k + 1,
              Choose(n, k - 1), Choose(n, k), Choose(n - c, k - 1), Choose(n - c, k));
  }

  lemma ProductStep(n: nat, c: nat, k: nat)
    requires 0 < k <= n
    ensures MissProduct(n, c, k) == MissProduct(n, c, k - 1) * ((n - c - k + 1) as real / (n - k + 1) as real)
  {
  }

  lemma ShareStep(p: real, k: nat, d: int, e: int, a: nat, a': nat, b: nat, b': nat)
    requires k > 0 && d > 0
    requires p * a as real == b as real && k * a' == d * a && k * b' == e * b
    ensures p * (e as real / d as real) * a' as real == b' as real
  {
    var kr, dr, er, ar, ar', br, br' := k as real, d as real, e as real, a as real, a' as real, b as real, b' as real;
    assert kr * ar' == dr * ar && kr * br' == er * br;
    RealStep(p, kr, dr, er, ar, ar', br, br');
  }

  lemma RealStep(p: real, k: real, d: real, e: real, a: real, a': real, b: real, b': real)
    requires k > 0.0 && d > 0.0 && p * a == b && k * a' == d * a && k * b' == e * b
    ensures p * (e / d) * a' == b'
  {
    var q := e / d;
    assert q * d == e;
    calc {
      k * (p * q * a');
      p * q * (k * a');
      p * q * (d * a);
      (q * d) * (p * a);
      e * b;
      k * b';
    }
  }

  /**
   pass@k is the probability that k of the n samples, drawn without replacement, hold one of the
   c correct ones, with k cut to n; the early return agrees with it.
   */
  lemma PassAtKIsShare(samples: set<nat>, correct: set<nat>, k: nat)
    requires samples != {} && correct <= samples && k >= 1
    ensures
      var n, k' := |samples|, Min(k, |samples|);
      ComputePassAtK(n, |correct|, k) * |Subsets(samples, k')| as real == |Passing(samples, correct, k')| as real
    ensures |Subsets(samples, Min(k, |samples|))| > 0
  {
    hide Subsets, Passing, Choose, MissProduct;
    var n, c, k' := |samples|, |correct|, Min(k, |samples|);
    SubsetSize(correct, samples);
    SubsetsCount(samples, k');
    PassingCount(samples, correct, k');
    ChoosePositive(n, k');
    if n - c < k' {
      ChooseTooMany(n - c, k');
    } else {
      ProductIsShare(n, c, k');
      Complement(MissProduct(n, c, k'), Choose(n, k'), Choose(n - c, k'));
    }
  }

  lemma Complement(p: real, all: nat, missing: nat)
    requires p * all as real == missing as real
    ensures (1.0 - p) * all as real == (all - missing) as real
  {
  }

  // ------------------------------------------------------------------ bounds and order

  /** Past the wrong samples the product is zero, so the early return only saves work. */
  lemma {:induction false} ProductRunsOut(n: nat, c: nat, k: nat)
    requires n - c < k <= n && c <= n
    ensures MissProduct(n, c, k) == 0.0
  {
    hide Factor;
    if n - c < k - 1 {
      ProductRunsOut(n, c, k - 1);
    } else {
      NoWrongLeft(n, c, k - 1);
    }
  }

  lemma NoWrongLeft(n: int, c: int, i: int)
    requires n - c == i < n
    ensures Factor(n, c, i) == 0.0
  {
  }

  lemma FactorBound(n: int, c: int, c': int, i: int)
    requires 0 <= c <= c' && 0 <= n - c' - i && i < n
    ensures 0.0 <= Factor(n, c', i) <= Factor(n, c, i) <= 1.0
  {
    Fractions((n - c' - i) as real, (n - c - i) as real, (n - i) as real);
  }

  lemma Fractions(e': real, e: real, d: real)
    requires 0.0 <= e' <= e <= d && d > 0.0
    ensures 0.0 <= e' / d <= e / d <= 1.0
  {
  }

  lemma {:induction false} ProductBounds(n: nat, c: nat, k: nat)
    requires c <= n && k <= n
    ensures 0.0 <= MissProduct(n, c, k) <= 1.0
    ensures k > 0 ==> MissProduct(n, c, k) <= MissProduct(n, c, k - 1)
  {
    hide Factor;
    if k > 0 {
      ProductBounds(n, c, k - 1);
      if n - c < k {
        ProductRunsOut(n, c, k);
      } else {
        FactorBound(n, c, c, k - 1);
        SmallerProduct(MissProduct(n, c, k - 1), MissProduct(n, c, k - 1), 1.0, Factor(n, c, k - 1));
      }
    }
  }

  lemma {:induction false} ProductFalls(n: nat, c: nat, k: nat, k': nat)
    requires c <= n && k <= k' <= n
    ensures MissProduct(n, c, k') <= MissProduct(n, c, k)
  {
    if k < k' {
      ProductFalls(n, c, k, k' - 1);
      ProductBounds(n, c, k');
    }
  }

  lemma SmallerProduct(p: real, p': real, q: real, q': real)
    requires 0.0 <= p' <= p && 0.0 <= q' <= q
    ensures 0.0 <= p' * q' <= p * q
  {
    assert p' * q' <= p * q';
  }

  lemma {:induction false} ProductFallsWithCorrect(n: nat, c: nat, c': nat, k: nat)
    requires c <= c' <= n && k <= n
    ensures MissProduct(n, c', k) <= MissProduct(n, c, k)
  {
    hide Factor;
    ProductBounds(n, c, k);
    if k > 0 {
      if n - c' < k {
        ProductRunsOut(n, c', k);
      } else {
        ProductFallsWithCorrect(n, c, c', k - 1);
        ProductBounds(n, c', k - 1);
        FactorBound(n, c, c', k - 1);
        SmallerProduct(MissProduct(n, c, k - 1), MissProduct(n, c', k - 1), Factor(n, c, k - 1), Factor(n, c', k - 1));
      }
    }
  }

  /** Both branches, with k cut to n. */
  lemma PassAtKIsProduct(n: nat, c: nat, k: nat)
    requires c <= n && n >= 1
    ensures ComputePassAtK(n, c, k) == 1.0 - MissProduct(n, c, Min(k, n))
  {
    if n - c < Min(k, n) {
      ProductRunsOut(n, c, Min(k, n));
    }
  }

  /** A probability, larger for more correct samples and for more tries. */
  lemma PassAtKOrder(n: nat, c: nat, c': nat, k: nat, k': nat)
    requires c <= c' <= n && n >= 1 && k <= k'
    ensures 0.0 <= ComputePassAtK(n, c, k) <= ComputePassAtK(n, c', k') <= 1.0
  {
    PassAtKIsProduct(n, c, k);
    PassAtKIsProduct(n, c', k');
    ProductFalls(n, c, Min(k, n), Min(k', n));
    ProductFallsWithCorrect(n, c, c', Min(k', n));
    ProductBounds(n, c, Min(k, n));
    ProductBounds(n, c', Min(k', n));
  }

  /** One try: the success rate. */
  lemma PassAtOne(n: nat, c: nat)
    requires c <= n && n >= 1
    ensures ComputePassAtK(n, c, 1) == c as real / n as real
  {
    PassAtKIsProduct(n, c, 1);
    assert MissProduct(n, c, 1) == MissProduct(n, c, 0) * Factor(n, c, 0);
  }

  lemma {:induction false} PowBounds(x: real, k: nat)
    requires 0.0 <= x <= 1.0
    ensures 0.0 <= Pow(x, k) <= 1.0
    ensures k >= 1 ==> Pow(x, k) <= x
  {
    if k > 0 {
      PowBounds(x, k - 1);
      var p := Pow(x, k - 1);
      assert 0.0 <= x * p <= x;
    }
  }

  /** That any try passes is at least as likely as that all do. */
  lemma AnyAtLeastAll(n: nat, c: nat, k: nat)
    requires c <= n && n >= 1 && k >= 1
    ensures 0.0 <= ComputePassPowK(n, c, k) <= ComputePassAtK(n, c, k)
  {
    var x := c as real / n as real;
    assert 0.0 <= x <= 1.0;
    PowBounds(x, k);
    PassAtOne(n, c);
    PassAtKOrder(n, c, c, 1, k);
  }

  // ------------------------------------------------------------------ pass^k

  ghost function EndingIn(ts: set<seq<nat>>, x: nat): set<seq<nat>> {
    set t | t in ts :: t + [x]
  }

  ghost function Followed(ts: set<seq<nat>>, s: set<nat>): set<seq<nat>> {
    set t, x | t in ts && x in s :: t + [x]
  }

  /** All sequences of k samples, repeats allowed. */
  ghost function Tuples(s: set<nat>, k: nat): set<seq<nat>> {
    if k == 0 then {[]} else Followed(Tuples(s, k - 1), s)
  }

  lemma SameFront(t: seq<nat>, x: nat, u: seq<nat>, y: nat)
    ensures t + [x] == u + [y] <==> t == u && x == y
  {
    assert (t + [x])[..|t|] == t && (u + [y])[..|u|] == u;
  }

  lemma {:induction false} EndingCount(ts: set<seq<nat>>, x: nat)
    ensures |EndingIn(ts, x)| == |ts|
  {
    if ts != {} {
      var t :| t in ts;
      EndingCount(ts - {t}, x);
      forall u | u in ts - {t} ensures u + [x] != t + [x] {
        SameFront(t, x, u, x);
      }
      assert EndingIn(ts, x) == EndingIn(ts - {t}, x) + {t + [x]};
    }
  }

  lemma {:induction false} FollowedCount(ts: set<seq<nat>>, s: set<nat>)
    ensures |Followed(ts, s)| == |ts| * |s|
  {
    hide Followed, EndingIn;
    if s == {} {
      NoneFollows(ts);
    } else {
      var x :| x in s;
      FollowedCount(ts, s - {x});
      EndingCount(ts, x);
      FollowedSplit(ts, s, x);
      TimesOneMore(|ts|, |s - {x}|, |s|);
    }
  }

  lemma NoneFollows(ts: set<seq<nat>>)
    ensures Followed(ts, {}) == {}
  {
  }

  lemma TimesOneMore(a: nat, b: nat, b': nat)
    requires b' == b + 1
    ensures a * b' == a * b + a
  {
  }

  lemma FollowedSplit(ts: set<seq<nat>>, s: set<nat>, x: nat)
    requires x in s
    ensures Followed(ts, s) == Followed(ts, s - {x}) + EndingIn(ts, x)
    ensures Followed(ts, s - {x}) !! EndingIn(ts, x)
  {
    forall t | t in Followed(ts, s) ensures t in Followed(ts, s - {x}) + EndingIn(ts, x) {
      var u, y :| u in ts && y in s && t == u + [y];
      assert y != x ==> y in s - {x};
    }
    forall t | t in Followed(ts, s - {x}) ensures t !in EndingIn(ts, x) && t in Followed(ts, s) {
      var u, y :| u in ts && y in s - {x} && t == u + [y];
      forall v | v in ts ensures t != v + [x] {
        SameFront(u, y, v, x);
      }
    }
  }

  lemma {:induction false} TuplesAre(s: set<nat>, k: nat, t: seq<nat>)
    ensures t in Tuples(s, k) <==> |t| == k && forall i :: 0 <= i < k ==> t[i] in s
  {
    if k > 0 {
      if t in Tuples(s, k) {
        var u, x :| u in Tuples(s, k - 1) && x in s && t == u + [x];
        TuplesAre(s, k - 1, u);
      }
      if |t| == k && forall i :: 0 <= i < k ==> t[i] in s {
        TuplesAre(s, k - 1, t[..k - 1]);
        assert t == t[..k - 1] + [t[k - 1]];
      }
    }
  }

  lemma {:induction false} TuplesCount(s: set<nat>, k: nat)
    ensures |Tuples(s, k)| as real == Pow(|s| as real, k)
  {
    if k > 0 {
      TuplesCount(s, k - 1);
      FollowedCount(Tuples(s, k - 1), s);
      assert (|Tuples(s, k - 1)| * |s|) as real == |s| as real * |Tuples(s, k - 1)| as real;
    }
  }

  lemma PowStep(x: real, k: nat)
    requires k > 0
    ensures Pow(x, k) == x * Pow(x, k - 1)
  {
  }

  lemma {:induction false} PowOfShare(q: real, c: real, n: real, k: nat)
    requires n > 0.0 && q * n == c
    ensures Pow(q, k) * Pow(n, k) == Pow(c, k) && Pow(n, k) > 0.0
  {
    if k > 0 {
      PowOfShare(q, c, n, k - 1);
      PowStep(q, k);
      PowStep(n, k);
      PowStep(c, k);
      hide *;
      Interchange(q, Pow(q, k - 1), n, Pow(n, k - 1));
    }
  }

  lemma Interchange(a: real, b: real, c: real, d: real)
    requires c > 0.0 && d > 0.0
    ensures (a * b) * (c * d) == (a * c) * (b * d) && c * d > 0.0
  {
    assert (a * b) * (c * d) == a * (b * (c * d));
    assert b * (c * d) == c * (b * d);
  }

  lemma DividedTimes(c: real, n: real)
    requires n > 0.0
    ensures c / n * n == c
  {
  }

  /** pass^k is the probability that k samples, each drawn from all n anew, are all correct. */
  lemma PassPowIsShare(samples: set<nat>, correct: set<nat>, k: nat)
    requires samples != {} && correct <= samples
    ensures
      var all := Tuples(samples, k);
      var allCorrect := set t | t in all && forall i :: 0 <= i < |t| ==> t[i] in correct;
      ComputePassPowK(|samples|, |correct|, k) * |all| as real == |allCorrect| as real && |all| > 0
  {
    hide Tuples;
    var all := Tuples(samples, k);
    var allCorrect := set t | t in all && forall i :: 0 <= i < |t| ==> t[i] in correct;
    forall t ensures t in allCorrect <==> t in Tuples(correct, k) {
      TuplesAre(samples, k, t);
      TuplesAre(correct, k, t);
    }
    assert allCorrect == Tuples(correct, k);
    TuplesCount(samples, k);
    TuplesCount(correct, k);
    DividedTimes(|correct| as real, |samples| as real);
    PowOfShare(|correct| as real / |samples| as real, |correct| as real, |samples| as real, k);
  }
}
