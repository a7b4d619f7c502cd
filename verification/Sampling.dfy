/** Sampling from logits under temperature, top-k and top-p, in exact reals.
    The loops that compute these functions are in `Sampler`. */
module Sampling {

  // The nucleus that is served, and why a short candidate list serves the same one.
  // `exp` is any positive function.

  datatype Params = Params(temperature: real, topP: real, topK: nat)

  datatype Result<T> = Ok(value: T) | Err(message: string)

  predicate ValidParams(p: Params) {
    p.temperature >= 0.0 && 0.0 < p.topP <= 1.0
  }

  ghost predicate Positive(exp: real -> real) {
    forall x :: exp(x) > 0.0
  }

  /** A token with its logit. */
  datatype Cand = Cand(value: real, token: nat)

  /** Larger logit first, ties by smaller token id. */
  predicate Before(a: Cand, b: Cand) {
    if a.value != b.value then a.value > b.value else a.token < b.token
  }

  predicate Distinct(s: seq<Cand>) {
    forall i, j :: 0 <= i < j < |s| ==> s[i].token != s[j].token
  }

  // ------------------------------------------------------------ partial sort

  /** The first of a non-empty list in the order. */
  function First(s: seq<Cand>): (m: Cand)
    requires s != []
    ensures m in s
    ensures forall x :: x in s ==> x == m || Before(m, x)
  {
    assert s == [s[0]] + s[1..];
    if |s| == 1 then s[0]
    else
      var m := First(s[1..]);
      if Before(m, s[0]) then m else s[0]
  }

  function Without(s: seq<Cand>, x: Cand): seq<Cand> {
    if s == [] then []
    else if s[0] == x then s[1..]
    else [s[0]] + Without(s[1..], x)
  }

  lemma {:induction false} WithoutShorter(s: seq<Cand>, x: Cand)
    requires x in s
    ensures |Without(s, x)| == |s| - 1
  {
    if s[0] != x {
      assert s == [s[0]] + s[1..];
      WithoutShorter(s[1..], x);
    }
  }

  lemma TailMembers(s: seq<Cand>)
    requires s != [] && Distinct(s)
    ensures Distinct(s[1..])
    ensures forall y :: y in s[1..] <==> y in s && y != s[0]
    ensures forall y :: y in s[1..] ==> y.token != s[0].token
  {
    forall y ensures y in s[1..] <==> y in s && y != s[0] {
      assert y in s[1..] <==> exists i :: 0 < i < |s| && s[i] == y;
    }
    forall y | y in s[1..] ensures y.token != s[0].token {
      var i :| 0 <= i < |s[1..]| && s[1..][i] == y;
      assert s[i + 1] == y;
    }
  }

  lemma {:induction false} WithoutMembers(s: seq<Cand>, x: Cand)
    requires Distinct(s) && x in s
    ensures |Without(s, x)| == |s| - 1 && Distinct(Without(s, x))
    ensures forall y :: y in Without(s, x) <==> y in s && y != x
  {
    TailMembers(s);
    if s[0] != x {
      WithoutMembers(s[1..], x);
      ConsDistinct(s[0], Without(s[1..], x));
    }
  }

  lemma ConsDistinct(x: Cand, r: seq<Cand>)
    requires Distinct(r) && forall y :: y in r ==> y.token != x.token
    ensures Distinct([x] + r) && forall y :: y in [x] + r <==> y == x || y in r
  {}

  /** The first `k` of the list in the order: what a partial sort leaves in front.
      Entries that tie completely are alike, so their order is no choice. */
  function Sorted(s: seq<Cand>, k: nat): (r: seq<Cand>)
    requires k <= |s|
    ensures |r| == k
    decreases k
  {
    if k == 0 then []
    else
      var m := First(s);
      WithoutShorter(s, m);
      [m] + Sorted(Without(s, m), k - 1)
  }

  /** In order, from the list, nothing left out that comes before what was kept. */
  ghost predicate PartiallySorted(s: seq<Cand>, r: seq<Cand>) {
    && (forall i, j :: 0 <= i < j < |r| ==> Before(r[i], r[j]))
    && (forall i :: 0 <= i < |r| ==> r[i] in s)
    && (forall x, i :: x in s && x !in r && 0 <= i < |r| ==> Before(r[i], x))
  }

  lemma FirstInFront(s: seq<Cand>, m: Cand, t: seq<Cand>, r: seq<Cand>)
    requires m in s && PartiallySorted(t, r)
    requires forall y :: y in t <==> y in s && y != m
    requires forall y :: y in t ==> Before(m, y)
    ensures PartiallySorted(s, [m] + r)
  {
    hide Before;
    var all := [m] + r;
    forall i, j | 0 <= i < j < |all| ensures Before(all[i], all[j]) {
      assert all[j] == r[j - 1] && r[j - 1] in t;
      assert i > 0 ==> all[i] == r[i - 1];
    }
    forall x, i | x in s && x !in all && 0 <= i < |all| ensures Before(all[i], x) {
      assert m == all[0] && x in t && x !in r;
      assert i > 0 ==> all[i] == r[i - 1];
    }
  }

  lemma {:induction false} SortedIsPartialSort(s: seq<Cand>, k: nat)
    requires k <= |s| && Distinct(s)
    ensures PartiallySorted(s, Sorted(s, k))
    decreases k
  {
    if k > 0 {
      hide PartiallySorted;
      var m := First(s);
      WithoutMembers(s, m);
      SortedIsPartialSort(Without(s, m), k - 1);
      FirstInFront(s, m, Without(s, m), Sorted(Without(s, m), k - 1));
    }
  }

  lemma DistinctTokens(s: seq<Cand>, x: Cand, y: Cand)
    requires Distinct(s) && x in s && y in s && x != y
    ensures x.token != y.token
  {
    var i :| 0 <= i < |s| && s[i] == x;
    var j :| 0 <= j < |s| && s[j] == y;
  }

  /** Any list drawn from `full` that still has its first `k` sorts to the same `k`. */
  lemma {:induction false} CandidatesSortAlike(full: seq<Cand>, part: seq<Cand>, k: nat)
    requires k <= |full| && k <= |part| && Distinct(full) && Distinct(part)
    requires forall x :: x in part ==> x in full
    requires forall x :: x in Sorted(full, k) ==> x in part
    ensures Sorted(part, k) == Sorted(full, k)
    decreases k
  {
    hide Sorted, First, Without, Distinct;
    if k > 0 {
      SortedStep(full, k);
      SortedStep(part, k);
      var m := First(full);
      var f1, p1 := Without(full, m), Without(part, m);
      assert Sorted(full, k) == [m] + Sorted(f1, k - 1);
      assert m in Sorted(full, k);
      FirstOfPart(full, part);
      forall x | x in Sorted(f1, k - 1) ensures x in p1 {
        assert x in Sorted(full, k);
      }
      CandidatesSortAlike(f1, p1, k - 1);
    } else {
      SortedNone(full);
      SortedNone(part);
    }
  }

  lemma SortedNone(s: seq<Cand>)
    requires Distinct(s)
    ensures Sorted(s, 0) == []
  {}

  lemma SortedStep(s: seq<Cand>, k: nat)
    requires 0 < k <= |s| && Distinct(s)
    ensures var m := First(s); var t := Without(s, m);
      && m in s && |t| == |s| - 1 && Distinct(t)
      && (forall y :: y in t <==> y in s && y != m)
      && Sorted(s, k) == [m] + Sorted(t, k - 1)
      && forall y :: y in Sorted(t, k - 1) ==> y in t
  {
    var m := First(s);
    WithoutMembers(s, m);
    SortedIsPartialSort(Without(s, m), k - 1);
    forall y | y in Sorted(Without(s, m), k - 1) ensures y in Without(s, m) {}
  }

  lemma FirstOfPart(full: seq<Cand>, part: seq<Cand>)
    requires full != [] && part != [] && Distinct(full) && First(full) in part
    requires forall x :: x in part ==> x in full
    ensures First(part) == First(full)
  {
    var a, b := First(full), First(part);
    assert a == b || Before(a, b);
    assert a == b || Before(b, a);
  }

  // ----------------------------------------------------------------- nucleus

  /** A product kept as a name in the longer proofs. */
  function Times(a: real, b: real): real { a * b }

  function Sum(w: seq<real>): real {
    if w == [] then 0.0 else Sum(w[..|w| - 1]) + w[|w| - 1]
  }

  function Weights(order: seq<Cand>, p: Params, exp: real -> real): (w: seq<real>)
    requires order != [] && p.temperature > 0.0
    ensures |w| == |order|
  {
    var maximum := order[0].value / p.temperature;
    seq(|order|, i requires 0 <= i < |order| => exp(order[i].value / p.temperature - maximum))
  }

  /** How many weights are needed to reach the cutoff: at least one. */
  function Needed(w: seq<real>, cutoff: real, n: nat): (r: nat)
    requires 0 < n <= |w|
    ensures n <= r <= |w|
    decreases |w| - n
  {
    if n < |w| && Sum(w[..n]) < cutoff then Needed(w, cutoff, n + 1) else n
  }

  /** Ties with the last one kept stay in. */
  function WithTies(order: seq<Cand>, n: nat): (r: nat)
    requires 0 < n <= |order|
    ensures n <= r <= |order|
    decreases |order| - n
  {
    if n < |order| && order[n].value == order[n - 1].value then WithTies(order, n + 1) else n
  }

  function Retained(order: seq<Cand>, w: seq<real>, p: Params): (r: nat)
    requires order != [] && |w| == |order|
    ensures 0 < r <= |order|
  {
    if p.topP < 1.0 then WithTies(order, Needed(w, Times(Sum(w), p.topP), 1)) else |order|
  }

  /** Tokens with unnormalised weights. */
  datatype Dist = Dist(tokens: seq<nat>, weights: seq<real>, total: real, argmax: nat)

  function Tokens(order: seq<Cand>): (t: seq<nat>)
    ensures |t| == |order|
  {
    seq(|order|, i requires 0 <= i < |order| => order[i].token)
  }

  /** The served distribution of an ordered list. */
  function Nucleus(order: seq<Cand>, p: Params, exp: real -> real): Dist
    requires order != [] && p.temperature > 0.0
  {
    var w := Weights(order, p, exp);
    var n := Retained(order, w, p);
    Dist(Tokens(order[..n]), w[..n], Sum(w[..n]), order[0].token)
  }

  /** All the mass on one token. */
  function Delta(t: nat): Dist {
    Dist([t], [1.0], 1.0, t)
  }

  function Keep(p: Params, n: nat): nat {
    if p.topK == 0 || p.topK > n then n else p.topK
  }

  /** What sampling under `p` serves, for a non-empty list. */
  function Served(s: seq<Cand>, p: Params, exp: real -> real): Dist
    requires s != [] && p.temperature >= 0.0
  {
    if p.temperature == 0.0 || p.topK == 1 then Delta(First(s).token)
    else Nucleus(Sorted(s, Keep(p, |s|)), p, exp)
  }

  function FullList(logits: seq<real>): (s: seq<Cand>)
    ensures |s| == |logits| && Distinct(s)
  {
    seq(|logits|, i requires 0 <= i < |logits| => Cand(logits[i], i))
  }

  lemma SortedFirst(s: seq<Cand>, k: nat)
    requires s != [] && Distinct(s) && 0 < k <= |s|
    ensures Sorted(s, k)[0] == First(s)
  {}

  /** The candidate path serves what the full path serves: same tokens, same weights,
      same argmax, ties at the nucleus boundary included. */
  lemma CandidatesServeAlike(full: seq<Cand>, part: seq<Cand>, p: Params, exp: real -> real)
    requires Distinct(full) && Distinct(part) && ValidParams(p)
    requires 1 <= p.topK <= |part| <= |full|
    requires forall x :: x in part ==> x in full
    requires forall x :: x in Sorted(full, p.topK) ==> x in part
    ensures Served(part, p, exp) == Served(full, p, exp)
  {
    CandidatesSortAlike(full, part, p.topK);
    SortedFirst(full, p.topK);
    assert Sorted(full, p.topK)[0] in part;
    FirstOfPart(full, part);
  }

  // ------------------------------------------------------ well-formed results

  predicate NoRepeats(t: seq<nat>) {
    forall i, j :: 0 <= i < j < |t| ==> t[i] != t[j]
  }

  /** A distribution over distinct tokens, every listed token with some mass. */
  predicate WellFormed(d: Dist) {
    && |d.tokens| == |d.weights| > 0
    && NoRepeats(d.tokens)
    && (forall i :: 0 <= i < |d.weights| ==> d.weights[i] > 0.0)
    && d.total == Sum(d.weights)
    && d.argmax in d.tokens
  }

  lemma OrderNeverRepeats(s: seq<Cand>, order: seq<Cand>, n: nat)
    requires Distinct(s) && PartiallySorted(s, order) && n <= |order|
    ensures NoRepeats(Tokens(order[..n]))
  {
    hide Distinct;
    forall i, j | 0 <= i < j < n ensures order[i].token != order[j].token {
      assert Before(order[i], order[j]) && order[i] in s && order[j] in s;
      DistinctTokens(s, order[i], order[j]);
    }
  }

  lemma WeightsPositive(order: seq<Cand>, p: Params, exp: real -> real)
    requires order != [] && p.temperature > 0.0 && Positive(exp)
    ensures forall i :: 0 <= i < |order| ==> Weights(order, p, exp)[i] > 0.0
  {}

  lemma NucleusWellFormed(s: seq<Cand>, order: seq<Cand>, p: Params, exp: real -> real)
    requires order != [] && p.temperature > 0.0 && Positive(exp) && Distinct(s) && PartiallySorted(s, order)
    ensures WellFormed(Nucleus(order, p, exp)) && Nucleus(order, p, exp).argmax == order[0].token
  {
    hide PartiallySorted, Sum, Retained, Distinct, Weights, NoRepeats, Positive;
    var n := Retained(order, Weights(order, p, exp), p);
    WeightsPositive(order, p, exp);
    OrderNeverRepeats(s, order, n);
    assert Tokens(order[..n])[0] == order[0].token;
  }

  lemma DeltaWellFormed(t: nat)
    ensures WellFormed(Delta(t))
  {
    assert [1.0][..0] == [];
  }

  lemma ServedWellFormed(s: seq<Cand>, p: Params, exp: real -> real)
    requires s != [] && Distinct(s) && ValidParams(p) && Positive(exp)
    ensures WellFormed(Served(s, p, exp)) && Served(s, p, exp).argmax == First(s).token
  {
    hide PartiallySorted, Sorted, First, Nucleus, WellFormed, Distinct, Positive;
    if p.temperature == 0.0 || p.topK == 1 {
      DeltaWellFormed(First(s).token);
    } else {
      var k := Keep(p, |s|);
      SortedIsPartialSort(s, k);
      SortedFirst(s, k);
      NucleusWellFormed(s, Sorted(s, k), p, exp);
    }
  }

  lemma {:induction false} SumPositive(w: seq<real>)
    requires w != [] && forall i :: 0 <= i < |w| ==> w[i] > 0.0
    ensures Sum(w) > 0.0
  {
    if |w| == 1 {
      assert w[..0] == [];
    } else {
      SumPositive(w[..|w| - 1]);
    }
  }

  /** Every token left out by top-p has a smaller logit than every token kept. */
  lemma {:induction false} NucleusCutsBelowTies(order: seq<Cand>, n: nat)
    requires 0 < n <= |order| && forall i, j :: 0 <= i < j < |order| ==> Before(order[i], order[j])
    ensures forall i, j :: 0 <= i < WithTies(order, n) <= j < |order| ==> order[i].value > order[j].value
    decreases |order| - n
  {
    if n < |order| && order[n].value == order[n - 1].value {
      NucleusCutsBelowTies(order, n + 1);
    } else if n < |order| {
      forall i, j | 0 <= i < n <= j < |order| ensures order[i].value > order[j].value {
        assert Before(order[n - 1], order[n]);
        assert i < n - 1 ==> Before(order[i], order[n - 1]);
        assert n < j ==> Before(order[n], order[j]);
      }
    }
  }

  // ------------------------------------------ what the served distribution is

  /** The weights of an ordered list: exponentials of the logits over the temperature,
      measured from the largest. */
  ghost predicate Weighted(order: seq<Cand>, p: Params, exp: real -> real, w: seq<real>)
    requires order != [] && p.temperature > 0.0
  {
    && |w| == |order|
    && forall i :: 0 <= i < |w| ==> w[i] == exp(order[i].value / p.temperature - order[0].value / p.temperature)
  }

  /** May the list be cut at `m` without tearing tokens of one logit apart? */
  predicate CutPoint(order: seq<Cand>, m: nat) {
    m == |order| || (0 < m < |order| && order[m].value != order[m - 1].value)
  }

  /** A front of the list; below top-p 1 the shortest front between ties that holds at
      least the share top-p of all the weight. */
  ghost predicate NucleusOf(order: seq<Cand>, w: seq<real>, p: Params, d: Dist) {
    var n := |d.tokens|;
    && 0 < n <= |order| == |w| && n == |d.weights|
    && (forall i :: 0 <= i < n ==> d.tokens[i] == order[i].token && d.weights[i] == w[i])
    && d.total == Sum(w[..n])
    && d.argmax == order[0].token
    && (p.topP >= 1.0 ==> n == |order|)
    && (p.topP < 1.0 ==>
      && CutPoint(order, n)
      && d.total >= Times(Sum(w), p.topP)
      && forall m :: 0 < m < n && CutPoint(order, m) ==> Sum(w[..m]) < Times(Sum(w), p.topP))
  }

  /** The larger logit goes first, of equal ones the smaller token. */
  predicate GoesFirst(a: Cand, b: Cand) {
    a.value > b.value || (a.value == b.value && a.token < b.token)
  }

  /** A front of `s` in this order: nothing outside goes before anything in it. */
  ghost predicate InOrder(s: seq<Cand>, order: seq<Cand>) {
    && (forall i, j :: 0 <= i < j < |order| ==> GoesFirst(order[i], order[j]))
    && (forall i :: 0 <= i < |order| ==> order[i] in s)
    && (forall x, i :: x in s && x !in order && 0 <= i < |order| ==> GoesFirst(order[i], x))
  }

  lemma InOrderIs(s: seq<Cand>, order: seq<Cand>)
    ensures InOrder(s, order) <==> PartiallySorted(s, order)
  {
    forall a, b ensures GoesFirst(a, b) <==> Before(a, b) {}
  }

  /** The first of the list alone. */
  ghost predicate Greedy(s: seq<Cand>, d: Dist) {
    exists best :: best in s && (forall x :: x in s && x != best ==> GoesFirst(best, x))
      && d == Dist([best.token], [1.0], 1.0, best.token)
  }

  /** What sampling under `p` promises to serve, whatever computes it. */
  ghost predicate IsServed(s: seq<Cand>, p: Params, exp: real -> real, d: Dist)
    requires p.temperature >= 0.0
  {
    if p.temperature == 0.0 || p.topK == 1 then Greedy(s, d)
    else exists order, w :: IsServedAs(s, p, exp, d, order, w)
  }

  ghost predicate IsServedAs(s: seq<Cand>, p: Params, exp: real -> real, d: Dist, order: seq<Cand>, w: seq<real>)
    requires p.temperature > 0.0
  {
    && order != []
    && InOrder(s, order)
    && |order| == (if 0 < p.topK < |s| then p.topK else |s|)
    && Weighted(order, p, exp, w)
    && NucleusOf(order, w, p, d)
  }

  lemma {:induction false} SumGrows(w: seq<real>, m: nat, n: nat)
    requires m <= n <= |w| && forall i :: 0 <= i < |w| ==> w[i] > 0.0
    ensures Sum(w[..m]) <= Sum(w[..n])
    decreases n
  {
    if m < n {
      assert w[..n][..n - 1] == w[..n - 1];
      SumGrows(w, m, n - 1);
    }
  }

  lemma {:induction false} NeededReaches(w: seq<real>, cutoff: real, n: nat)
    requires 0 < n <= |w| && Sum(w) >= cutoff
    ensures var r := Needed(w, cutoff, n);
      && Sum(w[..r]) >= cutoff
      && forall m :: n <= m < r ==> Sum(w[..m]) < cutoff
    decreases |w| - n
  {
    assert w[..|w|] == w;
    if n < |w| && Sum(w[..n]) < cutoff { NeededReaches(w, cutoff, n + 1); }
  }

  lemma {:induction false} TiesEnd(order: seq<Cand>, n: nat)
    requires 0 < n <= |order|
    ensures var r := WithTies(order, n);
      CutPoint(order, r) && forall m :: n <= m < r ==> !CutPoint(order, m)
    decreases |order| - n
  {
    if n < |order| && order[n].value == order[n - 1].value { TiesEnd(order, n + 1); }
  }

  lemma ShareOfAll(total: real, topP: real)
    requires total > 0.0 && topP <= 1.0
    ensures Times(total, topP) <= total
  {
    assert (1.0 - topP) * total >= 0.0;
  }

  /** Where the list is cut: the shortest front between ties with enough weight. */
  lemma RetainedIsShortest(order: seq<Cand>, w: seq<real>, p: Params)
    requires order != [] && |w| == |order| && p.topP < 1.0 && forall i :: 0 <= i < |w| ==> w[i] > 0.0
    ensures var n := Retained(order, w, p);
      && CutPoint(order, n)
      && Sum(w[..n]) >= Times(Sum(w), p.topP)
      && forall m :: 0 < m < n && CutPoint(order, m) ==> Sum(w[..m]) < Times(Sum(w), p.topP)
  {
    hide CutPoint, Times, Sum;
    var cutoff := Times(Sum(w), p.topP);
    SumPositive(w);
    ShareOfAll(Sum(w), p.topP);
    NeededReaches(w, cutoff, 1);
    var k := Needed(w, cutoff, 1);
    TiesEnd(order, k);
    SumGrows(w, k, Retained(order, w, p));
  }

  lemma NucleusIs(order: seq<Cand>, p: Params, exp: real -> real)
    requires order != [] && p.temperature > 0.0 && p.topP <= 1.0 && Positive(exp)
    ensures Weighted(order, p, exp, Weights(order, p, exp))
    ensures NucleusOf(order, Weights(order, p, exp), p, Nucleus(order, p, exp))
  {
    hide Sum, Times, Retained, CutPoint;
    var w := Weights(order, p, exp);
    WeightsPositive(order, p, exp);
    if p.topP < 1.0 { RetainedIsShortest(order, w, p); } else { WholeRetained(order, w, p); }
  }

  lemma WholeRetained(order: seq<Cand>, w: seq<real>, p: Params)
    requires order != [] && |w| == |order| && p.topP >= 1.0
    ensures Retained(order, w, p) == |order|
  {}

  /** Two fronts that both promise this are the same. */
  lemma NucleusUnique(order: seq<Cand>, w: seq<real>, p: Params, d: Dist, e: Dist)
    requires NucleusOf(order, w, p, d) && NucleusOf(order, w, p, e)
    ensures d == e
  {
    hide Sum, Times, CutPoint;
    if p.topP < 1.0 {
      assert !(|d.tokens| < |e.tokens|) && !(|e.tokens| < |d.tokens|);
    }
    assert d.tokens == e.tokens && d.weights == e.weights;
  }

  /** There is only one first `k` of a list without repeats. */
  lemma {:induction false} PartialSortUnique(s: seq<Cand>, r: seq<Cand>)
    requires Distinct(s) && PartiallySorted(s, r) && |r| <= |s|
    ensures r == Sorted(s, |r|)
    decreases |r|
  {
    hide First, Without, Sorted, PartiallySorted, Distinct;
    if r == [] {
      SortedNone(s);
    } else {
      SortedStep(s, |r|);
      FrontIsFirst(s, r);
      TailSorted(s, r, Without(s, First(s)));
      PartialSortUnique(Without(s, First(s)), r[1..]);
      assert r == [r[0]] + r[1..];
    }
  }

  lemma FrontIsFirst(s: seq<Cand>, r: seq<Cand>)
    requires s != [] && r != [] && PartiallySorted(s, r)
    ensures r[0] == First(s)
  {
    var m := First(s);
    assert r[0] in s;
    if m in r {
      var i :| 0 <= i < |r| && r[i] == m;
      assert i > 0 ==> Before(r[0], r[i]);
    }
  }

  lemma TailSorted(s: seq<Cand>, r: seq<Cand>, t: seq<Cand>)
    requires r != [] && PartiallySorted(s, r)
    requires forall y :: y in t <==> y in s && y != r[0]
    ensures PartiallySorted(t, r[1..])
  {
    var q := r[1..];
    forall i | 0 <= i < |q| ensures q[i] in t {
      assert q[i] == r[i + 1] && Before(r[0], r[i + 1]);
    }
    forall x, i | x in t && x !in q && 0 <= i < |q| ensures Before(q[i], x) {
      assert r == [r[0]] + q;
      assert q[i] == r[i + 1] && x !in r;
    }
    forall i, j | 0 <= i < j < |q| ensures Before(q[i], q[j]) {
      assert q[i] == r[i + 1] && q[j] == r[j + 1];
    }
  }

  lemma FirstIsGreedy(s: seq<Cand>, d: Dist)
    requires s != []
    ensures Greedy(s, d) <==> d == Delta(First(s).token)
  {
    var m := First(s);
    if Greedy(s, d) {
      var best :| best in s && (forall x :: x in s && x != best ==> GoesFirst(best, x))
        && d == Dist([best.token], [1.0], 1.0, best.token);
      assert best == m;
    }
  }

  /** The served distribution is the one promised, and the only one. */
  lemma ServedExactly(s: seq<Cand>, p: Params, exp: real -> real, d: Dist)
    requires s != [] && Distinct(s) && ValidParams(p) && Positive(exp)
    ensures IsServed(s, p, exp, d) <==> d == Served(s, p, exp)
  {
    hide PartiallySorted, InOrder, Sorted, First, Nucleus, Distinct, Positive, Weights, Greedy, NucleusOf, Weighted;
    if p.temperature == 0.0 || p.topK == 1 {
      FirstIsGreedy(s, d);
    } else {
      var order := Sorted(s, Keep(p, |s|));
      var w := Weights(order, p, exp);
      SortedIsPartialSort(s, |order|);
      InOrderIs(s, order);
      NucleusIs(order, p, exp);
      if d == Served(s, p, exp) { assert IsServedAs(s, p, exp, d, order, w); }
      if IsServed(s, p, exp, d) {
        var o, v :| IsServedAs(s, p, exp, d, o, v);
        InOrderIs(s, o);
        PartialSortUnique(s, o);
        WeightedUnique(order, p, exp, v, w);
        NucleusUnique(order, w, p, d, Nucleus(order, p, exp));
      }
    }
  }

  lemma WeightedUnique(order: seq<Cand>, p: Params, exp: real -> real, v: seq<real>, w: seq<real>)
    requires order != [] && p.temperature > 0.0 && Weighted(order, p, exp, v) && Weighted(order, p, exp, w)
    ensures v == w
  {}
}
