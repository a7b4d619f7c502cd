/** The sampling routines as they are written, with their loops, against the
    distributions they serve. */
module Sampler {
  import opened Sampling
  import opened Rejection

  /** First index of a largest logit. */
  method Argmax(logits: seq<real>) returns (best: nat)
    requires logits != []
    ensures best == First(FullList(logits)).token
  {
    best := 0;
    var i := 1;
    while i < |logits|
      invariant 1 <= i <= |logits| && best < i
      invariant forall j :: 0 <= j < i ==> logits[j] <= logits[best] && (logits[j] == logits[best] ==> best <= j)
    {
      if logits[i] > logits[best] { best := i; }
      i := i + 1;
    }
    var s := FullList(logits);
    var m := First(s);
    var k :| 0 <= k < |s| && s[k] == m;
    assert s[best] in s;
  }

  /** The weight loop: every kept candidate in order, and their sum. */
  method WeighAll(order: seq<Cand>, p: Params, exp: real -> real) returns (w: seq<real>, total: real)
    requires order != [] && p.temperature > 0.0
    ensures w == Weights(order, p, exp) && total == Sum(w)
  {
    var maximum := order[0].value / p.temperature;
    w, total := [], 0.0;
    var i := 0;
    ghost var all := Weights(order, p, exp);
    while i < |order|
      invariant 0 <= i <= |order| && w == all[..i] && total == Sum(w)
    {
      var weight := exp(order[i].value / p.temperature - maximum);
      SumSnoc(w, weight);
      w := w + [weight];
      total := total + weight;
      i := i + 1;
    }
  }

  lemma SumSnoc(w: seq<real>, x: real)
    ensures Sum(w + [x]) == Sum(w) + x
  {
    assert (w + [x])[..|w|] == w;
  }

  /** The top-p loops: until the cutoff is reached, then through the ties. */
  method Truncate(order: seq<Cand>, w: seq<real>, total: real, p: Params) returns (retained: nat, mass: real)
    requires order != [] && |w| == |order| && total == Sum(w)
    ensures retained == Retained(order, w, p) && mass == Sum(w[..retained])
  {
    if p.topP >= 1.0 {
      assert w[..|w|] == w;
      return |order|, total;
    }
    var cutoff := Times(total, p.topP);
    SumTo(w, 0);
    assert w[..0] == [];
    mass, retained := 0.0 + w[0], 1;
    while retained < |w| && mass < cutoff
      invariant 1 <= retained <= |w| && mass == Sum(w[..retained])
      invariant Needed(w, cutoff, retained) == Needed(w, cutoff, 1)
    {
      SumTo(w, retained);
      mass := mass + w[retained];
      retained := retained + 1;
    }
    ghost var n := retained;
    while retained < |w| && order[retained].value == order[retained - 1].value
      invariant n <= retained <= |w| && mass == Sum(w[..retained])
      invariant WithTies(order, retained) == WithTies(order, n)
    {
      SumTo(w, retained);
      mass := mass + w[retained];
      retained := retained + 1;
    }
  }

  lemma SumTo(w: seq<real>, i: nat)
    requires i < |w|
    ensures Sum(w[..i + 1]) == Sum(w[..i]) + w[i]
  {
    assert w[..i + 1][..i] == w[..i];
  }

  /** Weights and top-p cut of an ordered list. */
  method BuildNucleus(order: seq<Cand>, p: Params, exp: real -> real) returns (d: Dist)
    requires order != [] && p.temperature > 0.0 && Positive(exp)
    ensures d == Nucleus(order, p, exp)
  {
    var w, total := WeighAll(order, p, exp);
    SumPositive(w);
    var retained, mass := Truncate(order, w, total, p);
    d := Dist(Tokens(order[..retained]), w[..retained], mass, order[0].token);
  }

  /** The served distribution from a full row of logits. */
  method BuildServedDistribution(logits: seq<real>, p: Params, exp: real -> real) returns (r: Result<Dist>)
    requires Positive(exp)
    ensures if !ValidParams(p) || logits == [] then r.Err? else r == Ok(Served(FullList(logits), p, exp))
    ensures r.Ok? ==> IsServed(FullList(logits), p, exp, r.value)
  {
    hide IsServed, Served, Nucleus, Sorted, First;
    if !ValidParams(p) { return Err("bad sampling parameters"); }
    if logits == [] { return Err("logits/vocab empty for served dist"); }
    var full := FullList(logits);
    ServedExactly(full, p, exp, Served(full, p, exp));
    if p.temperature == 0.0 || p.topK == 1 {
      var best := Argmax(logits);
      GreedyServed(full, p, exp);
      return Ok(Delta(best));
    }
    SortedServed(full, p, exp);
    var order := Sorted(full, Keep(p, |full|));
    var d := BuildNucleus(order, p, exp);
    return Ok(d);
  }

  lemma GreedyServed(s: seq<Cand>, p: Params, exp: real -> real)
    requires s != [] && ValidParams(p) && (p.temperature == 0.0 || p.topK == 1)
    ensures Served(s, p, exp) == Delta(First(s).token)
  {}

  lemma SortedServed(s: seq<Cand>, p: Params, exp: real -> real)
    requires s != [] && ValidParams(p) && p.temperature > 0.0 && p.topK != 1
    ensures Keep(p, |s|) <= |s| && Sorted(s, Keep(p, |s|)) != []
    ensures Served(s, p, exp) == Nucleus(Sorted(s, Keep(p, |s|)), p, exp)
  {}

  /** The candidate list as the GPU hands it over: values and token ids side by side. */
  function Zip(values: seq<real>, indices: seq<nat>, count: nat): (s: seq<Cand>)
    requires count <= |values| && count <= |indices|
    ensures |s| == count
  {
    seq(count, i requires 0 <= i < count => Cand(values[i], indices[i]))
  }

  /** The served distribution from a list of candidates. */
  method BuildServedFromCandidates(values: seq<real>, indices: seq<nat>, count: nat, p: Params, exp: real -> real) returns (r: Result<Dist>)
    requires Positive(exp) && count <= |values| && count <= |indices|
    ensures if !ValidParams(p) || count == 0 then r.Err? else r == Ok(Served(Zip(values, indices, count), p, exp))
    ensures r.Ok? && Distinct(Zip(values, indices, count)) ==> IsServed(Zip(values, indices, count), p, exp, r.value)
  {
    hide IsServed, Served, Nucleus, Sorted, First, Distinct;
    if !ValidParams(p) { return Err("bad sampling parameters"); }
    if count == 0 { return Err("empty candidates for served dist"); }
    var s := Zip(values, indices, count);
    if Distinct(s) { ServedExactly(s, p, exp, Served(s, p, exp)); }
    if p.temperature == 0.0 || p.topK == 1 {
      GreedyServed(s, p, exp);
      return Ok(Delta(First(s).token));
    }
    SortedServed(s, p, exp);
    var order := Sorted(s, Keep(p, |s|));
    var d := BuildNucleus(order, p, exp);
    return Ok(d);
  }

  /** Sampling from a whole list, no token excluded. */
  function SampleList(s: seq<Cand>, p: Params, exp: real -> real, u: real): Result<nat>
    requires s != [] && p.temperature >= 0.0
  {
    SampleServed(Served(s, p, exp), u, NO_EXCLUDE)
  }

  /** Plain sampling: the draw walks the nucleus in order. */
  method Draw(order: seq<Cand>, p: Params, exp: real -> real, u: real) returns (t: nat)
    requires order != [] && p.temperature > 0.0 && Positive(exp) && 0.0 <= u < 1.0
    ensures Ok(t) == SampleServed(Nucleus(order, p, exp), u, NO_EXCLUDE)
  {
    var d := BuildNucleus(order, p, exp);
    NucleusHasMass(order, p, exp);
    t := Consume(d, u);
  }

  lemma NucleusHasMass(order: seq<Cand>, p: Params, exp: real -> real)
    requires order != [] && p.temperature > 0.0 && Positive(exp)
    ensures var d := Nucleus(order, p, exp);
      |d.tokens| == |d.weights| > 0 && d.total == Residual(d, NO_EXCLUDE) > 0.0
  {
    var d := Nucleus(order, p, exp);
    SumPositive(d.weights);
    PlainMass(d, |d.tokens|);
    assert d.weights[..|d.weights|] == d.weights;
  }

  /** Subtract the weights from the draw until it is used up. */
  method Consume(d: Dist, u: real) returns (t: nat)
    requires |d.tokens| == |d.weights| > 0 && d.total == Residual(d, NO_EXCLUDE) > 0.0
    ensures Ok(t) == SampleServed(d, u, NO_EXCLUDE)
  {
    hide UniformDraw, Residual;
    var draw := UniformDraw(u, d.total);
    var i := 0;
    while i < |d.tokens|
      invariant 0 <= i <= |d.tokens|
      invariant Pick(d, NO_EXCLUDE, 0, UniformDraw(u, d.total)) == Pick(d, NO_EXCLUDE, i, draw)
    {
      draw := draw - d.weights[i];
      if draw <= 0.0 { return d.tokens[i]; }
      i := i + 1;
    }
    t := d.tokens[|d.tokens| - 1];
  }

  lemma {:induction false} PlainMass(d: Dist, i: nat)
    requires |d.tokens| == |d.weights| && i <= |d.tokens|
    ensures Cum(d, NO_EXCLUDE, i) == Sum(d.weights[..i])
  {
    if i == 0 {
      assert d.weights[..0] == [];
    } else {
      PlainMass(d, i - 1);
      assert d.weights[..i][..i - 1] == d.weights[..i - 1];
    }
  }

  lemma DeltaServes(t: nat, u: real)
    requires 0.0 <= u < 1.0
    ensures SampleServed(Delta(t), u, NO_EXCLUDE) == Ok(t)
  {
    var d := Delta(t);
    assert Cum(d, NO_EXCLUDE, 1) == 1.0;
    assert UniformDraw(u, 1.0) == u;
    assert Pick(d, NO_EXCLUDE, 0, u) == Ok(t);
  }

  /** Sampling from the full logits serves exactly the distribution built from them. */
  method SampleLogits(logits: seq<real>, p: Params, exp: real -> real, u: real) returns (r: Result<nat>)
    requires Positive(exp) && 0.0 <= u < 1.0
    ensures if !ValidParams(p) || logits == [] then r.Err? else r == SampleList(FullList(logits), p, exp, u)
  {
    if !ValidParams(p) { return Err("bad sampling parameters"); }
    if logits == [] { return Err("logits are empty"); }
    if p.temperature == 0.0 || p.topK == 1 {
      var best := Argmax(logits);
      DeltaServes(best, u);
      return Ok(best);
    }
    var full := FullList(logits);
    var t := Draw(Sorted(full, Keep(p, |full|)), p, exp, u);
    return Ok(t);
  }

  /** Sampling from a candidate list. */
  method SampleCandidates(values: seq<real>, indices: seq<nat>, count: nat, p: Params, exp: real -> real, u: real) returns (r: Result<nat>)
    requires Positive(exp) && 0.0 <= u < 1.0
    ensures if !ValidParams(p) || count == 0 || |values| < count || |indices| < count then r.Err?
            else r == SampleList(Zip(values, indices, count), p, exp, u)
  {
    if !ValidParams(p) { return Err("bad sampling parameters"); }
    if count == 0 { return Err("candidate list is empty"); }
    if |values| < count || |indices| < count { return Err("candidate list shorter than count"); }
    var s := Zip(values, indices, count);
    if p.temperature == 0.0 || p.topK == 1 {
      DeltaServes(First(s).token, u);
      return Ok(First(s).token);
    }
    var t := Draw(Sorted(s, Keep(p, |s|)), p, exp, u);
    return Ok(t);
  }

  /** A candidate list that is drawn from the logits and still holds their first top-k. */
  ghost predicate Covers(values: seq<real>, indices: seq<nat>, count: nat, logits: seq<real>, k: nat) {
    && k <= count <= |logits| && count <= |values| && count <= |indices|
    && Distinct(Zip(values, indices, count))
    && (forall i :: 0 <= i < count ==> indices[i] < |logits| && values[i] == logits[indices[i]])
    && forall x :: x in Sorted(FullList(logits), k) ==> exists i :: 0 <= i < count && indices[i] == x.token
  }

  /** Full row and covering candidate list: one served distribution, and the same token
      for the same draw. */
  lemma CandidatePathAgrees(values: seq<real>, indices: seq<nat>, count: nat, logits: seq<real>, p: Params, exp: real -> real)
    requires ValidParams(p) && 1 <= p.topK && Covers(values, indices, count, logits, p.topK)
    ensures Served(Zip(values, indices, count), p, exp) == Served(FullList(logits), p, exp)
    ensures forall u :: SampleList(Zip(values, indices, count), p, exp, u) == SampleList(FullList(logits), p, exp, u)
  {
    var full, part := FullList(logits), Zip(values, indices, count);
    forall x | x in part ensures x in full {
      var i :| 0 <= i < |part| && part[i] == x;
      assert x == full[indices[i]];
    }
    SortedIsPartialSort(full, p.topK);
    forall x | x in Sorted(full, p.topK) ensures x in part {
      var i :| 0 <= i < count && indices[i] == x.token;
      var j :| 0 <= j < |full| && full[j] == x;
      assert part[i] == x;
    }
    CandidatesServeAlike(full, part, p, exp);
  }

  // ----------------------------------------------------- speculative decoding

  method ServedProbabilityOf(d: Dist, token: nat) returns (p: real)
    requires |d.tokens| == |d.weights|
    ensures p == ServedProbability(d, token)
  {
    if !(d.total > 0.0) { return 0.0; }
    var i := 0;
    while i < |d.tokens|
      invariant 0 <= i <= |d.tokens| && token !in d.tokens[..i]
    {
      if d.tokens[i] == token {
        IndexIs(d.tokens, token, i);
        return d.weights[i] / d.total;
      }
      i := i + 1;
    }
    IndexIs(d.tokens, token, |d.tokens|);
    p := 0.0;
  }

  lemma IndexIs(t: seq<nat>, x: nat, i: nat)
    requires i <= |t| && x !in t[..i] && (i < |t| ==> t[i] == x)
    ensures IndexOf(t, x) == i
  {
    assert forall j :: 0 <= j < i ==> t[..i][j] == t[j];
  }

  /** The residual draw, as a loop over the slots. */
  method SampleServedFrom(d: Dist, u: real, exclude: int) returns (r: Result<nat>)
    requires |d.tokens| == |d.weights|
    ensures r == SampleServed(d, u, exclude)
  {
    if d.tokens == [] { return Err("empty served distribution"); }
    var total := 0.0;
    var i := 0;
    while i < |d.tokens|
      invariant 0 <= i <= |d.tokens| && total == Cum(d, exclude, i)
    {
      if !(exclude >= 0 && ToInt32(d.tokens[i]) == exclude) { total := total + d.weights[i]; }
      i := i + 1;
    }
    if !(total > 0.0) {
      if exclude >= 0 { return Err("empty residual after excluding draft from nucleus"); }
      return Ok(d.argmax);
    }
    var draw := UniformDraw(u, total);
    i := 0;
    while i < |d.tokens|
      invariant 0 <= i <= |d.tokens|
      invariant Pick(d, exclude, 0, UniformDraw(u, total)) == Pick(d, exclude, i, draw)
    {
      if !(exclude >= 0 && ToInt32(d.tokens[i]) == exclude) {
        draw := draw - d.weights[i];
        if draw <= 0.0 { return Ok(d.tokens[i]); }
      }
      i := i + 1;
    }
    while i > 0
      invariant 0 <= i <= |d.tokens|
      invariant LastAllowed(d, exclude, i) == LastAllowed(d, exclude, |d.tokens|)
    {
      i := i - 1;
      if exclude < 0 || ToInt32(d.tokens[i]) != exclude { return Ok(d.tokens[i]); }
    }
    r := Err("no non-excluded token");
  }

  /** The accept loop over the lanes. */
  method SpecRejectionAccept(lanes: seq<Dist>, drafts: seq<nat>, us: seq<real>, v: real) returns (r: Result<Walked>)
    requires |us| == |drafts| && forall i :: 0 <= i < |lanes| ==> |lanes[i].tokens| == |lanes[i].weights|
    ensures if |lanes| < 2 || |drafts| + 1 != |lanes| then r.Err? else r == Walk(lanes, drafts, us, v)
  {
    if |lanes| < 2 { return Err("spec rejection needs live>=2 lanes"); }
    if |drafts| + 1 != |lanes| { return Err("drafts size must be live-1"); }
    var stopLane, exclude := |drafts|, NO_EXCLUDE;
    var k := 0;
    while k < |drafts|
      invariant 0 <= k <= |drafts| && stopLane == |drafts| && exclude == NO_EXCLUDE
      invariant Accepted(lanes, drafts, us, k) == Accepted(lanes, drafts, us, 0)
    {
      var p := ServedProbabilityOf(lanes[k], drafts[k]);
      if !(us[k] < p) {
        stopLane, exclude := k, ToInt32(drafts[k]);
        break;
      }
      k := k + 1;
    }
    var t := SampleServedFrom(lanes[stopLane], v, exclude);
    match t
    case Ok(pending) => r := Ok(Walked(stopLane + 1, stopLane, exclude, pending));
    case Err(e) => r := Err(e);
  }

  /** A walk that rejects `draft` and then draws it again. */
  ghost predicate Redraws(draft: nat, lanes: seq<Dist>, drafts: seq<nat>, us: seq<real>, v: real) {
    && |lanes| == |drafts| + 1 && |us| == |drafts| && Drawn(us, v)
    && (forall i :: 0 <= i < |lanes| ==> WellFormed(lanes[i]))
    && var r := Walk(lanes, drafts, us, v);
       r.Ok? && r.value.stopLane < |drafts| && drafts[r.value.stopLane] == draft == r.value.pending
  }

  /** A walk can draw the draft it has just rejected exactly when the id is negative as a
      signed 32-bit number. */
  lemma RejectedDraftExcludedExactly(draft: nat)
    requires draft < 0x1_0000_0000
    ensures draft < 0x8000_0000 <==> forall lanes, drafts, us, v :: !Redraws(draft, lanes, drafts, us, v)
  {
    if draft < 0x8000_0000 {
      forall lanes, drafts, us, v ensures !Redraws(draft, lanes, drafts, us, v) {
        if Redraws(draft, lanes, drafts, us, v) { NeverRedraws(draft, lanes, drafts, us, v); }
      }
    } else {
      RedrawnDraft(draft);
    }
  }

  lemma NeverRedraws(draft: nat, lanes: seq<Dist>, drafts: seq<nat>, us: seq<real>, v: real)
    requires draft < 0x8000_0000
    ensures !Redraws(draft, lanes, drafts, us, v)
  {
    hide SampleServed, ServedProbability;
    if Redraws(draft, lanes, drafts, us, v) {
      var k := Accepted(lanes, drafts, us, 0);
      EmptyResidual(lanes[k], v, draft);
      SampleAllowed(lanes[k], draft, v);
    }
  }

  /** What is drawn after an exclusion has some mass to be drawn from. */
  lemma EmptyResidual(d: Dist, v: real, exclude: int)
    requires |d.tokens| == |d.weights| && exclude >= 0 && SampleServed(d, v, exclude).Ok?
    ensures Residual(d, exclude) > 0.0
  {}

  /** An even chance between the draft and token 0: draw 0.5 rejects the draft, and draw
      0.25 takes it all the same. */
  lemma RedrawnDraft(draft: nat)
    requires 0x8000_0000 <= draft < 0x1_0000_0000
    ensures var d := Dist([draft, 0], [1.0, 1.0], 2.0, draft); Redraws(draft, [d, d], [draft], [0.5], 0.25)
  {
    var d := Dist([draft, 0], [1.0, 1.0], 2.0, draft);
    var w, x := d.weights, ToInt32(draft);
    assert w[..1] == [1.0] && w[..1][..0] == [] && Sum([1.0]) == 1.0;
    assert Sum(w) == Sum(w[..1]) + 1.0;
    assert WellFormed(d);
    assert forall t :: !Excluded(t, x);
    assert Cum(d, x, 0) == 0.0 && Cum(d, x, 1) == 1.0;
    assert Cum(d, x, 2) == Cum(d, x, 1) + 1.0;
    assert IndexOf(d.tokens, draft) == 0;
    assert ServedProbability(d, draft) == 0.5;
    assert Accepted([d, d], [draft], [0.5], 0) == 0;
    assert UniformDraw(0.25, 2.0) == 0.5;
    assert Pick(d, x, 0, 0.5) == Ok(draft);
    assert SampleServed(d, 0.25, x) == Ok(draft);
  }
}
