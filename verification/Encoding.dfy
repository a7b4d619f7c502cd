/** What an encoding is, said without computing one, and that the encoder gives it and
    nothing else. */
module Encoding {
  import opened ByteSymbols
  import opened Tokenizer
  import TokenPattern

  // ------------------------------------------------------------------ merging

  /** The pair at `i` is the one to merge: no other pair has a lower rank, and none to its
      left the same. */
  ghost predicate NextMerge(v: Vocab, parts: seq<string>, i: nat) {
    && Mergeable(v, parts, i) && RankAt(v, parts, i) < INT32_MAX
    && forall j: nat :: Mergeable(v, parts, j) ==>
      RankAt(v, parts, i) < RankAt(v, parts, j) || (RankAt(v, parts, i) == RankAt(v, parts, j) && i <= j)
  }

  /** Merging pair by pair leads from `parts` to `merged`, where no pair is left to merge. */
  ghost predicate MergesTo(v: Vocab, parts: seq<string>, merged: seq<string>)
    decreases |parts|
  {
    if exists i: nat :: NextMerge(v, parts, i) then
      exists i: nat :: NextMerge(v, parts, i) && MergesTo(v, parts[..i] + ([parts[i] + parts[i + 1]] + parts[i + 2..]), merged)
    else merged == parts
  }

  lemma NextMergeUnique(v: Vocab, parts: seq<string>, i: nat, j: nat)
    requires NextMerge(v, parts, i) && NextMerge(v, parts, j)
    ensures i == j
  {}

  /** The scan finds the next merge. */
  lemma BestPairIsNext(v: Vocab, parts: seq<string>)
    requires |parts| > 1
    ensures var i := BestPair(v, parts, 0, INT32_MAX, -1);
      if i < 0 then forall j: nat :: !NextMerge(v, parts, j) else NextMerge(v, parts, i)
  {
    hide BestPair;
    BestPairLowest(v, parts, 0, INT32_MAX, -1);
  }

  lemma {:induction false} MergesExactly(v: Vocab, parts: seq<string>, merged: seq<string>)
    ensures MergesTo(v, parts, merged) <==> merged == Merge(v, parts)
    decreases |parts|
  {
    hide BestPair;
    if |parts| > 1 {
      var i := BestPair(v, parts, 0, INT32_MAX, -1);
      BestPairIsNext(v, parts);
      if i >= 0 {
        MergesExactly(v, MergeAt(parts, i), merged);
        forall j: nat | NextMerge(v, parts, j) ensures j == i { NextMergeUnique(v, parts, i, j); }
      }
    }
  }

  // -------------------------------------------------------------------- words

  function Flat(cuts: seq<seq<int>>): seq<int> {
    if cuts == [] then [] else cuts[0] + Flat(cuts[1..])
  }

  /** A part that is a token is that token; of any other its characters are. */
  ghost predicate PartTokens(v: Vocab, part: string, ids: seq<int>) {
    if part in v.ids then ids == [v.ids[part]] else ids == CharIds(v, Utf8Chars(part))
  }

  ghost predicate PartsTokens(v: Vocab, parts: seq<string>, cuts: seq<seq<int>>) {
    |cuts| == |parts| && forall k :: 0 <= k < |parts| ==> PartTokens(v, parts[k], cuts[k])
  }

  /** The tokens of a word: those of its merged symbols, in pieces of 1024 bytes. */
  ghost predicate WordTokens(v: Vocab, word: string, ids: seq<int>)
    requires AllBytes(word)
    decreases |word|
  {
    if |word| > 1024 then
      exists a, b :: ids == a + b && WordTokens(v, word[..1024], a) && WordTokens(v, word[1024..], b)
    else
      exists parts, cuts :: MergesTo(v, seq(|word|, i requires 0 <= i < |word| => Symbol(word[i])), parts)
        && PartsTokens(v, parts, cuts) && ids == Flat(cuts)
  }

  lemma {:induction false} SymbolsAre(word: string)
    requires AllBytes(word)
    ensures Symbols(word) == seq(|word|, i requires 0 <= i < |word| => Symbol(word[i]))
  {
    if word != "" {
      SymbolsAre(word[1..]);
      assert forall i :: 0 < i < |word| ==> word[1..][i - 1] == word[i];
    }
  }

  lemma {:induction false} PartsFlat(v: Vocab, parts: seq<string>, cuts: seq<seq<int>>)
    requires PartsTokens(v, parts, cuts)
    ensures Flat(cuts) == PartIds(v, parts)
  {
    if parts != [] { PartsFlat(v, parts[1..], cuts[1..]); }
  }

  lemma {:induction false} PartsCut(v: Vocab, parts: seq<string>) returns (cuts: seq<seq<int>>)
    ensures PartsTokens(v, parts, cuts)
  {
    if parts == [] {
      cuts := [];
    } else {
      var rest := PartsCut(v, parts[1..]);
      cuts := [if parts[0] in v.ids then [v.ids[parts[0]]] else CharIds(v, Utf8Chars(parts[0]))] + rest;
      forall k | 0 < k < |parts| ensures PartTokens(v, parts[k], cuts[k]) { assert parts[1..][k - 1] == parts[k]; }
    }
  }

  lemma PartsExactly(v: Vocab, parts: seq<string>, ids: seq<int>)
    ensures (exists cuts :: PartsTokens(v, parts, cuts) && ids == Flat(cuts)) <==> ids == PartIds(v, parts)
  {
    hide PartsTokens, Flat, PartIds;
    var own := PartsCut(v, parts);
    PartsFlat(v, parts, own);
    forall cuts | PartsTokens(v, parts, cuts) ensures Flat(cuts) == PartIds(v, parts) { PartsFlat(v, parts, cuts); }
  }

  lemma {:induction false} WordExactly(v: Vocab, word: string, ids: seq<int>)
    requires AllBytes(word)
    ensures WordTokens(v, word, ids) <==> ids == Bpe(v, word)
    decreases |word|
  {
    hide Merge, PartIds, MergesTo, PartsTokens;
    if |word| > WORD_CAP {
      var x, y := word[..WORD_CAP], word[WORD_CAP..];
      WordExactly(v, x, Bpe(v, x));
      WordExactly(v, y, Bpe(v, y));
      forall a, b | WordTokens(v, x, a) && WordTokens(v, y, b) ensures a == Bpe(v, x) && b == Bpe(v, y) {
        WordExactly(v, x, a);
        WordExactly(v, y, b);
      }
    } else {
      SymbolsAre(word);
      var parts := Merge(v, Symbols(word));
      forall merged ensures MergesTo(v, Symbols(word), merged) <==> merged == parts {
        MergesExactly(v, Symbols(word), merged);
      }
      PartsExactly(v, parts, ids);
    }
  }

  // --------------------------------------------------------------------- text

  /** A span without special tokens: the words the pattern cuts it into, each on its own. */
  ghost predicate SpanTokens(v: Vocab, span: string, ids: seq<int>)
    requires AllBytes(span)
  {
    exists words, cuts :: TokenPattern.CutBy(TokenPattern.CODED, span, 0, words)
      && WordsTokens(v, words, cuts) && ids == Flat(cuts)
  }

  ghost predicate WordsTokens(v: Vocab, words: seq<string>, cuts: seq<seq<int>>) {
    |cuts| == |words| && forall k :: 0 <= k < |words| ==> AllBytes(words[k]) && WordTokens(v, words[k], cuts[k])
  }

  predicate StartsWith(v: Vocab, t: string, k: nat) {
    k < |v.specials| && v.specials[k].text <= t
  }

  /** The first special token of the list that stands at the front. */
  ghost predicate FirstSpecial(v: Vocab, t: string, k: nat) {
    StartsWith(v, t, k) && forall j: nat :: j < k ==> !StartsWith(v, t, j)
  }

  /** No special token starts before `e`, and one does there, or the text ends. */
  ghost predicate PlainUpTo(v: Vocab, t: string, e: nat) {
    && 0 < e <= |t|
    && (forall p: nat, k: nat :: p < e ==> !StartsWith(v, t[p..], k))
    && (e < |t| ==> exists k: nat :: StartsWith(v, t[e..], k))
  }

  /** The tokens of a text: special tokens where they stand, the spans between them. */
  ghost predicate Encodes(v: Vocab, t: string, ids: seq<int>)
    requires AllBytes(t)
    decreases |t|
  {
    if t == "" then ids == []
    else if exists k: nat :: StartsWith(v, t, k) then
      exists k: nat, rest :: FirstSpecial(v, t, k) && 0 < |v.specials[k].text| <= |t|
        && ids == [v.specials[k].id] + rest && Encodes(v, t[|v.specials[k].text|..], rest)
    else
      exists e: nat, a, rest :: PlainUpTo(v, t, e)
        && SpanTokens(v, t[..e], a) && Encodes(v, t[e..], rest) && ids == a + rest
  }

  lemma {:induction false} WordsFlat(v: Vocab, words: seq<string>, cuts: seq<seq<int>>)
    requires WordsTokens(v, words, cuts)
    ensures forall w :: w in words ==> AllBytes(w)
    ensures Flat(cuts) == WordIds(v, words)
  {
    hide WordTokens, Bpe;
    if words != [] {
      WordExactly(v, words[0], cuts[0]);
      WordsFlat(v, words[1..], cuts[1..]);
    }
  }

  lemma {:induction false} WordsCut(v: Vocab, words: seq<string>) returns (cuts: seq<seq<int>>)
    requires forall w :: w in words ==> AllBytes(w)
    ensures WordsTokens(v, words, cuts)
  {
    hide WordTokens, Bpe;
    if words == [] {
      cuts := [];
    } else {
      var rest := WordsCut(v, words[1..]);
      cuts := [Bpe(v, words[0])] + rest;
      WordExactly(v, words[0], cuts[0]);
      forall k | 0 < k < |words| ensures AllBytes(words[k]) && WordTokens(v, words[k], cuts[k]) {
        assert words[1..][k - 1] == words[k];
      }
    }
  }

  lemma SpanExactly(v: Vocab, span: string, ids: seq<int>)
    requires AllBytes(span)
    ensures SpanTokens(v, span, ids) <==> ids == SpanIds(v, span)
  {
    hide WordsTokens, Flat, WordIds, TokenPattern.CutBy;
    var own := Pieces(span, 0);
    PiecesBytes(span);
    TokenPattern.PiecesCutExactly(span, 0, own);
    var cut := WordsCut(v, own);
    WordsFlat(v, own, cut);
    forall words, cuts | TokenPattern.CutBy(TokenPattern.CODED, span, 0, words) && WordsTokens(v, words, cuts)
      ensures Flat(cuts) == SpanIds(v, span)
    {
      TokenPattern.PiecesCutExactly(span, 0, words);
      WordsFlat(v, words, cuts);
    }
  }

  lemma MatchIsFirst(v: Vocab, t: string)
    ensures var k := MatchSpecial(v.specials, t);
      if k < |v.specials| then FirstSpecial(v, t, k) else forall j: nat :: !StartsWith(v, t, j)
  {}

  lemma FirstSpecialUnique(v: Vocab, t: string, i: nat, j: nat)
    requires FirstSpecial(v, t, i) && FirstSpecial(v, t, j)
    ensures i == j
  {}

  lemma {:induction false} NextIsPlain(v: Vocab, t: string, p: nat)
    requires p <= |t| && forall q: nat, k: nat :: q < p ==> !StartsWith(v, t[q..], k)
    ensures var e := NextSpecial(v.specials, t, p);
      && (forall q: nat, k: nat :: q < e ==> !StartsWith(v, t[q..], k))
      && (e < |t| ==> exists k: nat :: StartsWith(v, t[e..], k))
    decreases |t| - p
  {
    hide StartsWith;
    MatchIsFirst(v, t[p..]);
    if p < |t| && !AnySpecial(v.specials, t[p..]) {
      NextIsPlain(v, t, p + 1);
    } else if p < |t| {
      FirstStarts(v, t[p..], MatchSpecial(v.specials, t[p..]));
    }
  }

  lemma FirstStarts(v: Vocab, t: string, k: nat)
    requires FirstSpecial(v, t, k)
    ensures StartsWith(v, t, k)
  {}

  lemma PlainUnique(v: Vocab, t: string, d: nat, e: nat)
    requires PlainUpTo(v, t, d) && PlainUpTo(v, t, e)
    ensures d == e
  {
    hide StartsWith;
  }

  /** The encoder gives the encoding of a text and there is no other. */
  lemma {:induction false} EncodedExactly(v: Vocab, t: string, ids: seq<int>)
    requires AllBytes(t) && forall k :: 0 <= k < |v.specials| ==> v.specials[k].text != ""
    ensures Encodes(v, t, ids) <==> ids == Encode(v, t)
    decreases |t|
  {
    hide SpanTokens, SpanIds, NextSpecial, PlainUpTo, FirstSpecial, StartsWith;
    if t != "" {
      MatchIsFirst(v, t);
      var k := MatchSpecial(v.specials, t);
      if k < |v.specials| {
        FirstStarts(v, t, k);
        SpecialEncoded(v, t, ids, k);
      } else {
        assert forall j: nat :: !StartsWith(v, t, j);
        PlainEncoded(v, t, ids);
      }
    }
  }

  lemma {:induction false} SpecialEncoded(v: Vocab, t: string, ids: seq<int>, k: nat)
    requires AllBytes(t) && t != "" && forall i :: 0 <= i < |v.specials| ==> v.specials[i].text != ""
    requires k == MatchSpecial(v.specials, t) < |v.specials| && FirstSpecial(v, t, k) && StartsWith(v, t, k)
    ensures Encodes(v, t, ids) <==> ids == Encode(v, t)
    decreases |t|, 0
  {
    hide SpanTokens, SpanIds, NextSpecial, PlainUpTo, MatchSpecial;
    var rest := t[|v.specials[k].text|..];
    EncodedExactly(v, rest, Encode(v, rest));
    forall r ensures Encodes(v, rest, r) <==> r == Encode(v, rest) { EncodedExactly(v, rest, r); }
    forall j: nat | FirstSpecial(v, t, j) ensures j == k { FirstSpecialUnique(v, t, j, k); }
    hide StartsWith, Encode;
    EncodeFront(v, t, k);
  }

  lemma EncodeFront(v: Vocab, t: string, k: nat)
    requires AllBytes(t) && t != "" && forall i :: 0 <= i < |v.specials| ==> v.specials[i].text != ""
    requires k == MatchSpecial(v.specials, t) < |v.specials|
    ensures |v.specials[k].text| <= |t|
    ensures Encode(v, t) == [v.specials[k].id] + Encode(v, t[|v.specials[k].text|..])
  {}

  lemma {:induction false} PlainEncoded(v: Vocab, t: string, ids: seq<int>)
    requires AllBytes(t) && t != "" && forall i :: 0 <= i < |v.specials| ==> v.specials[i].text != ""
    requires MatchSpecial(v.specials, t) == |v.specials| && forall j: nat :: !StartsWith(v, t, j)
    ensures Encodes(v, t, ids) <==> ids == Encode(v, t)
    decreases |t|, 0
  {
    hide SpanTokens, SpanIds, NextSpecial, FirstSpecial, StartsWith, MatchSpecial;
    var e := NextSpecial(v.specials, t, 1);
    NextUpTo(v, t);
    var a, r := SpanIds(v, t[..e]), Encode(v, t[e..]);
    forall x ensures Encodes(v, t[e..], x) <==> x == r { EncodedExactly(v, t[e..], x); }
    forall x ensures SpanTokens(v, t[..e], x) <==> x == a { SpanExactly(v, t[..e], x); }
    forall d: nat | PlainUpTo(v, t, d) ensures d == e { PlainUnique(v, t, d, e); }
    EncodePlain(v, t);
    hide PlainUpTo, Encode;
    PlainOnly(v, t, ids, e, a, r);
  }

  lemma EncodePlain(v: Vocab, t: string)
    requires AllBytes(t) && t != "" && forall i :: 0 <= i < |v.specials| ==> v.specials[i].text != ""
    requires MatchSpecial(v.specials, t) == |v.specials|
    ensures var e := NextSpecial(v.specials, t, 1); Encode(v, t) == SpanIds(v, t[..e]) + Encode(v, t[e..])
  {}

  lemma PlainOnly(v: Vocab, t: string, ids: seq<int>, e: nat, a: seq<int>, r: seq<int>)
    requires AllBytes(t) && t != "" && forall j: nat :: !StartsWith(v, t, j)
    requires PlainUpTo(v, t, e) && forall d: nat :: PlainUpTo(v, t, d) ==> d == e
    requires forall x :: SpanTokens(v, t[..e], x) <==> x == a
    requires forall x :: Encodes(v, t[e..], x) <==> x == r
    ensures Encodes(v, t, ids) <==> ids == a + r
  {
    hide SpanTokens, StartsWith;
    if ids == a + r { assert SpanTokens(v, t[..e], a) && Encodes(v, t[e..], r); }
  }

  lemma NextUpTo(v: Vocab, t: string)
    requires t != "" && forall j: nat :: !StartsWith(v, t, j)
    ensures PlainUpTo(v, t, NextSpecial(v.specials, t, 1))
  {
    hide StartsWith;
    assert t[0..] == t;
    NextIsPlain(v, t, 1);
  }
}
