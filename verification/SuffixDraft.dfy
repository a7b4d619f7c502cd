/** Drafting from repetition: the longest recent match of the stream's suffix, found
    through an index of hashed 4-grams, and its periodic continuation. */
module SuffixDraft {

  const NG := 4
  const MAXCAND := 64
  const MAXEXT := 256

  /** Positions below `n` of the last token of a 4-gram with this hash, ascending. */
  function Positions(t: seq<int>, hash: seq<int> -> int, key: int, n: nat): (r: seq<nat>)
    requires n <= |t|
    ensures forall i :: 0 <= i < |r| ==> NG - 1 <= r[i] < n
    ensures forall p: nat :: NG - 1 <= p < n && hash(t[p + 1 - NG..p + 1]) == key ==> p in r
    ensures forall i :: 0 <= i < |r| ==> hash(t[r[i] + 1 - NG..r[i] + 1]) == key
    ensures forall i, j :: 0 <= i < j < |r| ==> r[i] < r[j]
  {
    if n < NG then []
    else Positions(t, hash, key, n - 1) + if hash(t[n - NG..n]) == key then [n - 1] else []
  }

  lemma PositionsNext(t: seq<int>, hash: seq<int> -> int, key: int, i: nat)
    requires NG - 1 <= i < |t|
    ensures Positions(t, hash, key, i + 1) ==
      var before := Positions(t, hash, key, i);
      if hash(t[i + 1 - NG..i + 1]) == key then before + [i] else before
  {}

  /** The last 64. */
  function Latest(s: seq<nat>): seq<nat> {
    if |s| <= MAXCAND then s else s[|s| - MAXCAND..]
  }

  lemma LatestAppend(s: seq<nat>, p: nat)
    ensures var v := Latest(s) + [p];
      Latest(s + [p]) == if |v| > MAXCAND then v[1..] else v
  {}

  lemma LatestIs(s: seq<nat>)
    ensures forall i :: 0 <= i < |s| && i >= |s| - MAXCAND ==> s[i] in Latest(s)
    ensures forall p :: p in Latest(s) ==> exists i :: 0 <= i < |s| && i >= |s| - MAXCAND && s[i] == p
    ensures |Latest(s)| == if |s| < MAXCAND then |s| else MAXCAND
  {
    if |s| > MAXCAND {
      forall i | |s| - MAXCAND <= i < |s| ensures s[i] in Latest(s) { assert Latest(s)[i - (|s| - MAXCAND)] == s[i]; }
      forall p | p in Latest(s) ensures exists i :: 0 <= i < |s| && i >= |s| - MAXCAND && s[i] == p {
        var j :| 0 <= j < MAXCAND && Latest(s)[j] == p;
        assert s[j + (|s| - MAXCAND)] == p;
      }
    }
  }

  /** Growing the stream does not disturb earlier positions. */
  lemma {:induction false} PositionsGrow(t: seq<int>, tok: int, hash: seq<int> -> int, key: int, n: nat)
    requires n <= |t|
    ensures Positions(t + [tok], hash, key, n) == Positions(t, hash, key, n)
  {
    if n >= NG {
      PositionsGrow(t, tok, hash, key, n - 1);
      assert (t + [tok])[n - NG..n] == t[n - NG..n];
    }
  }

  lemma NoPositions(t: seq<int>, hash: seq<int> -> int)
    ensures forall key, n: nat {:trigger Positions(t, hash, key, n)} ::
      n < NG && n <= |t| ==> Latest(Positions(t, hash, key, n)) == []
  {}

  /** The last `m` tokens of `t + [pending]` also end at position `p`. */
  predicate Matches(t: seq<int>, pending: int, p: nat, m: nat) {
    p < |t| && m <= p + 1 && t[p + 1 - m..p + 1] == (t + [pending])[|t| + 1 - m..]
  }

  /** Matches grow token by token. */
  lemma MatchStep(t: seq<int>, pending: int, p: nat, m: nat)
    requires p < |t| && m <= p
    ensures Matches(t, pending, p, m + 1) <==>
      Matches(t, pending, p, m) && t[p - m] == (t + [pending])[|t| - m]
  {
    var s := t + [pending];
    assert t[p - m..p + 1] == [t[p - m]] + t[p + 1 - m..p + 1];
    assert s[|t| - m..] == [s[|t| - m]] + s[|t| + 1 - m..];
  }

  lemma {:induction false} MatchShorter(t: seq<int>, pending: int, p: nat, m: nat, l: nat)
    requires Matches(t, pending, p, m) && l <= m
    ensures Matches(t, pending, p, l)
    decreases m
  {
    if l < m {
      MatchStep(t, pending, p, m - 1);
      MatchShorter(t, pending, p, m - 1, l);
    }
  }

  /** `m` is the length of the match at `p`, cut at the cap. */
  ghost predicate LongestAt(t: seq<int>, pending: int, p: nat, m: nat) {
    && NG <= m <= MAXEXT && Matches(t, pending, p, m)
    && forall l: nat :: l <= MAXEXT && Matches(t, pending, p, l) ==> l <= m
  }

  /** Of the candidates, `p` has the longest match, and is the most recent of those. */
  ghost predicate Best(t: seq<int>, pending: int, cand: seq<nat>, p: nat, m: nat) {
    && p in cand && LongestAt(t, pending, p, m)
    && forall q: nat, l: nat :: q in cand && l <= MAXEXT && NG <= l && Matches(t, pending, q, l) ==> l < m || (l == m && q <= p)
  }

  ghost predicate NoMatch(t: seq<int>, pending: int, cand: seq<nat>) {
    forall q: nat :: q in cand ==> !Matches(t, pending, q, NG)
  }

  /** What a scan has found so far. */
  ghost predicate Found(t: seq<int>, pending: int, cand: seq<nat>, p: int, m: nat) {
    if m == 0 then NoMatch(t, pending, cand) else p >= 0 && Best(t, pending, cand, p, m)
  }

  lemma FoundNone(t: seq<int>, pending: int)
    ensures Found(t, pending, [], -1, 0)
  {}

  lemma FoundMiss(t: seq<int>, pending: int, cand: seq<nat>, q: nat, p: int, m: nat)
    requires Found(t, pending, cand, p, m) && !Matches(t, pending, q, NG)
    ensures Found(t, pending, cand + [q], p, m)
  {
    hide Matches;
    forall l: nat | NG <= l ensures !Matches(t, pending, q, l) {
      if Matches(t, pending, q, l) { MatchShorter(t, pending, q, l, NG); }
    }
  }

  lemma FoundHit(t: seq<int>, pending: int, cand: seq<nat>, q: nat, p: int, m: nat, l: nat)
    requires Found(t, pending, cand, p, m) && LongestAt(t, pending, q, l)
    requires forall i :: 0 <= i < |cand| ==> cand[i] < q
    ensures Found(t, pending, cand + [q], if l >= m then q else p, if l >= m then l else m)
  {
    hide Matches;
    if m == 0 {
      forall c: nat, k: nat | c in cand && NG <= k ensures !Matches(t, pending, c, k) {
        if Matches(t, pending, c, k) { MatchShorter(t, pending, c, k, NG); }
      }
    }
  }

  lemma FoundMeans(t: seq<int>, pending: int, cand: seq<nat>, p: int, m: nat)
    requires Found(t, pending, cand, p, m)
    ensures m == 0 <==> NoMatch(t, pending, cand)
    ensures m > 0 ==> p >= 0 && Best(t, pending, cand, p, m)
  {
    hide Matches;
    if m > 0 { MatchShorter(t, pending, p, m, NG); }
  }

  /** The proposal continues the matched place, running on into itself. */
  predicate Continues(t: seq<int>, pending: int, p: nat, out: seq<int>) {
    p < |t| && forall i :: 0 <= i < |out| ==> out[i] == (t + [pending] + out)[p + 1 + i]
  }

  class Drafter {
    const hash: seq<int> -> int
    var t: seq<int>
    var idx: map<int, seq<nat>>

    /** The index holds, for every hash, the latest positions below `n`. */
    ghost predicate IndexedTo(n: nat)
      reads this
    {
      && n <= |t|
      && forall key :: (if key in idx then idx[key] else []) == Latest(Positions(t, hash, key, n))
    }

    ghost predicate Valid()
      reads this
    {
      IndexedTo(|t|)
    }

    constructor (h: seq<int> -> int)
      ensures Valid() && t == [] && hash == h
    {
      hash := h;
      t, idx := [], map[];
    }

    method IndexPos(i: nat)
      requires NG - 1 <= i < |t| && IndexedTo(i)
      modifies `idx
      ensures IndexedTo(i + 1)
    {
      hide Positions, Latest;
      ghost var before := idx;
      var key := hash(t[i + 1 - NG..i + 1]);
      var v := if key in idx then idx[key] else [];
      v := v + [i];
      if |v| > MAXCAND { v := v[1..]; }
      idx := idx[key := v];
      forall k ensures (if k in idx then idx[k] else []) == Latest(Positions(t, hash, k, i + 1)) {
        PositionsNext(t, hash, k, i);
        LatestAppend(Positions(t, hash, k, i), i);
        assert (if k in before then before[k] else []) == Latest(Positions(t, hash, k, i));
      }
    }

    method Reset(prompt: seq<int>)
      modifies this
      ensures Valid() && t == prompt
    {
      hide Positions, Latest;
      t, idx := prompt, map[];
      var i := NG - 1;
      NoPositions(t, hash);
      if |t| < NG { return; }
      while i < |t|
        invariant NG - 1 <= i <= |t| && t == prompt && IndexedTo(i)
      {
        hide IndexedTo;
        IndexPos(i);
        i := i + 1;
      }
    }

    method Append(tok: int)
      requires Valid()
      modifies this
      ensures Valid() && t == old(t) + [tok]
    {
      hide Positions, Latest;
      ghost var n := |t|;
      t := t + [tok];
      forall key ensures (if key in idx then idx[key] else []) == Latest(Positions(t, hash, key, n)) {
        PositionsGrow(old(t), tok, hash, key, n);
      }
      if |t| >= NG {
        IndexPos(|t| - 1);
      } else {
        NoPositions(t, hash);
        NoPositions(old(t), hash);
      }
    }

    /** The positions the search looks at. */
    ghost function Candidates(pending: int): (r: seq<nat>)
      requires |t| >= NG - 1
      reads this
    {
      Latest(Positions(t, hash, hash((t + [pending])[|t| + 1 - NG..]), |t|))
    }

    method Extend(pending: int, p: nat) returns (m: nat)
      requires p < |t| && NG <= p + 1 && Matches(t, pending, p, NG)
      ensures LongestAt(t, pending, p, m)
    {
      var s := t + [pending];
      m := NG;
      while m < MAXEXT && p - m >= 0 && t[p - m] == s[|t| - m]
        invariant NG <= m <= MAXEXT && m <= p + 1 && Matches(t, pending, p, m)
      {
        MatchStep(t, pending, p, m);
        m := m + 1;
      }
      forall l: nat | l <= MAXEXT && Matches(t, pending, p, l) ensures l <= m {
        if l > m {
          MatchShorter(t, pending, p, l, m + 1);
          MatchStep(t, pending, p, m);
        }
      }
    }

    /** Guard against hash collisions: do the key tokens really stand here? */
    method KeyStandsAt(pending: int, p: nat) returns (ok: bool)
      requires NG - 1 <= p < |t|
      ensures ok == Matches(t, pending, p, NG)
    {
      var s := t + [pending];
      var j := 0;
      while j < NG
        invariant j <= NG && Matches(t, pending, p, j)
      {
        MatchStep(t, pending, p, j);
        if t[p - j] != s[|t| - j] {
          if Matches(t, pending, p, NG) { MatchShorter(t, pending, p, NG, j + 1); }
          return false;
        }
        j := j + 1;
      }
      ok := true;
    }

    /** Scan the candidates, later ones winning ties. */
    method Scan(pending: int, cand: seq<nat>) returns (m: nat, p: int)
      requires forall i :: 0 <= i < |cand| ==> NG - 1 <= cand[i] < |t|
      requires forall i, j :: 0 <= i < j < |cand| ==> cand[i] < cand[j]
      ensures m == 0 <==> NoMatch(t, pending, cand)
      ensures m > 0 ==> p >= 0 && Best(t, pending, cand, p, m)
    {
      hide Matches, LongestAt, Found;
      m, p := 0, -1;
      var c := 0;
      FoundNone(t, pending);
      while c < |cand|
        invariant c <= |cand| && Found(t, pending, cand[..c], p, m)
      {
        var q := cand[c];
        assert cand[..c + 1] == cand[..c] + [q];
        var ok := KeyStandsAt(pending, q);
        if ok {
          var l := Extend(pending, q);
          FoundHit(t, pending, cand[..c], q, p, m, l);
          if l >= m { m, p := l, q; }
        } else {
          FoundMiss(t, pending, cand[..c], q, p, m);
        }
        c := c + 1;
      }
      assert cand[..c] == cand;
      FoundMeans(t, pending, cand, p, m);
    }

    /** `propose_with`. */
    method ProposeWith(pending: int, k: nat) returns (m: nat, out: seq<int>)
      requires Valid()
      ensures |t| < NG - 1 ==> m == 0
      ensures |t| >= NG - 1 ==> (m == 0 <==> NoMatch(t, pending, Candidates(pending)))
      ensures m > 0 ==> |t| >= NG - 1 && |out| == k
      ensures m > 0 ==> exists p: nat :: Best(t, pending, Candidates(pending), p, m) && Continues(t, pending, p, out)
    {
      hide Positions, LongestAt, Matches, Continues;
      m, out := 0, [];
      if |t| < NG - 1 { return; }
      var s := t + [pending];
      var key := hash(s[|s| - NG..]);
      if key !in idx { return; }
      assert idx[key] == Candidates(pending);
      var p;
      m, p := Scan(pending, idx[key]);
      if m == 0 { return; }
      out := Continuation(pending, p, k);
    }

    method Continuation(pending: int, p: nat, k: nat) returns (out: seq<int>)
      requires p < |t|
      ensures |out| == k && Continues(t, pending, p, out)
    {
      out := [];
      var s := t + [pending];
      var i := 0;
      while i < k
        invariant i <= k && |out| == i && Continues(t, pending, p, out)
      {
        var src := p + 1 + i;
        ghost var before := out;
        out := out + [if src < |s| then s[src] else out[src - |s|]];
        forall j | 0 <= j < |out| ensures out[j] == (t + [pending] + out)[p + 1 + j] {
          assert j < i ==> before[j] == (t + [pending] + before)[p + 1 + j];
        }
        i := i + 1;
      }
    }
  }

  /** Up to 64 hash-equal positions, the candidates miss no match in the whole stream. */
  lemma CandidatesAreAll(d: Drafter, pending: int, q: nat)
    requires |d.t| >= NG - 1 && NG - 1 <= q && Matches(d.t, pending, q, NG)
    requires |Positions(d.t, d.hash, d.hash((d.t + [pending])[|d.t| + 1 - NG..]), |d.t|)| <= MAXCAND
    ensures q in d.Candidates(pending)
  {
    var gram := d.t[q + 1 - NG..q + 1];
    assert gram == (d.t + [pending])[|d.t| + 1 - NG..];
    assert d.hash(gram) == d.hash((d.t + [pending])[|d.t| + 1 - NG..]);
  }

  /** In general they are the most recent: anything missed is older than all of them. */
  lemma MissedIsOlder(d: Drafter, pending: int, q: nat)
    requires |d.t| >= NG - 1 && NG - 1 <= q && Matches(d.t, pending, q, NG) && q !in d.Candidates(pending)
    ensures |d.Candidates(pending)| == MAXCAND && forall p :: p in d.Candidates(pending) ==> q < p
  {
    var gram := d.t[q + 1 - NG..q + 1];
    assert gram == (d.t + [pending])[|d.t| + 1 - NG..];
    assert d.hash(gram) == d.hash((d.t + [pending])[|d.t| + 1 - NG..]);
    var all := Positions(d.t, d.hash, d.hash((d.t + [pending])[|d.t| + 1 - NG..]), |d.t|);
    LatestIs(all);
    assert q in all;
  }
}
