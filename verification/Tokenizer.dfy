/** Text to token ids and back: special tokens, pretokenisation, byte-pair merges.
    The loops that compute these functions are in `TokenizerLoops`. */
module Tokenizer {
  import opened ByteSymbols
  import opened Strings

  // The spans between special tokens decide where encodings split; the byte alphabet
  // decides what decoding gives back.

  const CONTROL := 3
  const WORD_CAP := 1024
  const INT32_MAX := 0x7FFF_FFFF

  datatype Special = Special(text: string, id: int)

  datatype Vocab = Vocab(
    tokens: seq<string>,
    types: seq<int>,
    ids: map<string, int>,
    merges: map<string, nat>,   // "left right" to rank
    specials: seq<Special>)     // longest first

  /** What the constructor checks or builds. */
  ghost predicate Loaded(v: Vocab) {
    && |v.types| == |v.tokens|
    && (forall s :: s in v.ids ==> 0 <= v.ids[s] < |v.tokens| && v.tokens[v.ids[s]] == s)
    && (forall i :: 0 <= i < |v.tokens| ==> v.tokens[i] in v.ids)
    && forall k :: 0 <= k < |v.specials| ==>
      var sp := v.specials[k];
      && sp.text != "" && 0 <= sp.id < |v.tokens| && v.tokens[sp.id] == sp.text
      && (v.types[sp.id] != CONTROL ==> sp.text == "<think>" || sp.text == "</think>")
  }

  // ------------------------------------------------------- pretokenisation

  predicate IsAlpha(c: char) { 'a' <= c <= 'z' || 'A' <= c <= 'Z' }
  predicate IsSpace(c: char) { c == ' ' || '\U{9}' <= c <= '\U{d}' }

  function ToLower(c: char): char {
    if 'A' <= c <= 'Z' then (c as int + 32) as char else c
  }

  predicate IsL(t: string, j: nat) { j < |t| && (IsAlpha(t[j]) || t[j] as int >= 0x80) }
  predicate IsD(t: string, j: nat) { j < |t| && '0' <= t[j] <= '9' }
  predicate IsSp(t: string, j: nat) { j < |t| && IsSpace(t[j]) }
  predicate IsNl(t: string, j: nat) { j < |t| && (t[j] == '\r' || t[j] == '\n') }
  predicate IsPunct(t: string, j: nat) { j < |t| && !IsSp(t, j) && !IsL(t, j) && !IsD(t, j) }
  predicate IsBlank(t: string, j: nat) { IsSp(t, j) && !IsNl(t, j) }

  /** End of the run of characters of one class that starts at `k`. */
  function LettersEnd(t: string, k: nat): (e: nat)
    requires k <= |t|
    ensures k <= e <= |t| && (IsL(t, k) ==> k < e)
    decreases |t| - k
  { if IsL(t, k) then LettersEnd(t, k + 1) else k }

  function PunctEnd(t: string, k: nat): (e: nat)
    requires k <= |t|
    ensures k <= e <= |t| && (IsPunct(t, k) ==> k < e)
    decreases |t| - k
  { if IsPunct(t, k) then PunctEnd(t, k + 1) else k }

  function NewlinesEnd(t: string, k: nat): (e: nat)
    requires k <= |t|
    ensures k <= e <= |t| && (IsNl(t, k) ==> k < e)
    decreases |t| - k
  { if IsNl(t, k) then NewlinesEnd(t, k + 1) else k }

  function BlanksEnd(t: string, k: nat): (e: nat)
    requires k <= |t|
    ensures k <= e <= |t|
    decreases |t| - k
  { if IsBlank(t, k) then BlanksEnd(t, k + 1) else k }

  function SpacesEnd(t: string, k: nat): (e: nat)
    requires k <= |t|
    ensures k <= e <= |t| && (IsSp(t, k) ==> k < e)
    decreases |t| - k
  { if IsSp(t, k) then SpacesEnd(t, k + 1) else k }

  /** Length of a contraction at `i`, or 0. */
  function Contraction(t: string, i: nat): (n: nat)
    requires i < |t|
    ensures i + n <= |t|
  {
    if t[i] != '\'' || i + 1 >= |t| then 0
    else
      var c1 := ToLower(t[i + 1]);
      if c1 == 's' || c1 == 't' || c1 == 'm' || c1 == 'd' then 2
      else if i + 2 < |t| && ((c1 == 'r' && ToLower(t[i + 2]) == 'e') || (c1 == 'v' && ToLower(t[i + 2]) == 'e')
                             || (c1 == 'l' && ToLower(t[i + 2]) == 'l')) then 3
      else 0
  }

  predicate LeadsLetters(t: string, i: nat) {
    i < |t| && !IsNl(t, i) && !IsL(t, i) && !IsD(t, i) && IsL(t, i + 1)
  }

  predicate LeadsPunct(t: string, i: nat) {
    i + 1 < |t| && t[i] == ' ' && !IsSp(t, i + 1) && !IsL(t, i + 1) && !IsD(t, i + 1)
  }

  /** Where the piece that starts at `i` ends. */
  function PieceEnd(t: string, i: nat): (e: nat)
    requires i < |t|
    ensures i < e <= |t|
  {
    var j := if LeadsLetters(t, i) then i + 1 else i;
    var p := if LeadsPunct(t, i) then i + 1 else i;
    var n := BlanksEnd(t, i);
    if Contraction(t, i) > 0 then i + Contraction(t, i)
    else if IsL(t, j) then LettersEnd(t, j)
    else if IsD(t, i) then i + 1
    else if IsPunct(t, p) then NewlinesEnd(t, PunctEnd(t, p))
    else if IsNl(t, n) then NewlinesEnd(t, n)
    else if IsSp(t, i) then
      var k := SpacesEnd(t, i);
      if k < |t| && k - i > 1 then k - 1 else k
    else i + 1
  }

  function Pieces(t: string, i: nat): seq<string>
    requires i <= |t|
    decreases |t| - i
  {
    if i == |t| then [] else [t[i..PieceEnd(t, i)]] + Pieces(t, PieceEnd(t, i))
  }

  /** Pretokenisation cuts the text up and loses nothing. */
  lemma {:induction false} PiecesPartition(t: string, i: nat)
    requires i <= |t|
    ensures Concat(Pieces(t, i)) == t[i..]
    ensures forall w :: w in Pieces(t, i) ==> w != ""
    decreases |t| - i
  {
    if i < |t| {
      hide PieceEnd;
      var e := PieceEnd(t, i);
      PiecesPartition(t, e);
      assert t[i..] == t[i..e] + t[e..];
    }
  }

  // ---------------------------------------------------------- byte-pair merges

  function PairKey(a: string, b: string): string {
    a + (" " + b)
  }

  /** The pair to merge: the lowest rank, the leftmost of equal ones; -1 if none. */
  function BestPair(v: Vocab, parts: seq<string>, i: nat, best: int, at: int): (r: int)
    requires i <= |parts| && -1 <= at < i && (at >= 0 ==> at + 1 < |parts| && PairKey(parts[at], parts[at + 1]) in v.merges)
    ensures -1 <= r && (r >= 0 ==> r + 1 < |parts| && PairKey(parts[r], parts[r + 1]) in v.merges)
    decreases |parts| - i
  {
    if i + 1 >= |parts| then at
    else
      var key := PairKey(parts[i], parts[i + 1]);
      if key in v.merges && v.merges[key] < best then BestPair(v, parts, i + 1, v.merges[key], i)
      else BestPair(v, parts, i + 1, best, at)
  }

  predicate Mergeable(v: Vocab, parts: seq<string>, j: nat) {
    j + 1 < |parts| && PairKey(parts[j], parts[j + 1]) in v.merges
  }

  function RankAt(v: Vocab, parts: seq<string>, j: nat): nat
    requires Mergeable(v, parts, j)
  {
    v.merges[PairKey(parts[j], parts[j + 1])]
  }

  /** The scan finds the lowest rank below `best`, and of equal ones the leftmost. */
  lemma {:induction false} BestPairLowest(v: Vocab, parts: seq<string>, i: nat, best: int, at: int)
    requires i <= |parts| && -1 <= at < i && (at >= 0 ==> Mergeable(v, parts, at) && RankAt(v, parts, at) == best)
    ensures var r := BestPair(v, parts, i, best, at);
      && (r == at || (r >= i && RankAt(v, parts, r) < best))
      && (forall j: nat :: i <= j && Mergeable(v, parts, j) ==> RankAt(v, parts, j) >= if r == at then best else RankAt(v, parts, r))
      && (forall j: nat :: i <= j < r && r != at && Mergeable(v, parts, j) ==> RankAt(v, parts, j) > RankAt(v, parts, r))
    decreases |parts| - i
  {
    if i + 1 < |parts| {
      if Mergeable(v, parts, i) && RankAt(v, parts, i) < best {
        BestPairLowest(v, parts, i + 1, RankAt(v, parts, i), i);
      } else {
        BestPairLowest(v, parts, i + 1, best, at);
      }
    }
  }

  /** Merging goes on until no two neighbours have a rank below the largest `int`. */
  lemma {:induction false} MergeFinishes(v: Vocab, parts: seq<string>)
    ensures forall j: nat :: Mergeable(v, Merge(v, parts), j) ==> RankAt(v, Merge(v, parts), j) >= INT32_MAX
    decreases |parts|
  {
    if |parts| > 1 {
      BestPairLowest(v, parts, 0, INT32_MAX, -1);
      var i := BestPair(v, parts, 0, INT32_MAX, -1);
      if i >= 0 { MergeFinishes(v, MergeAt(parts, i)); }
    }
  }

  function MergeAt(parts: seq<string>, i: nat): (r: seq<string>)
    requires i + 1 < |parts|
    ensures |r| == |parts| - 1
  {
    parts[..i] + ([parts[i] + parts[i + 1]] + parts[i + 2..])
  }

  /** Merge until no pair of neighbours has a rank. */
  function Merge(v: Vocab, parts: seq<string>): seq<string>
    decreases |parts|
  {
    if |parts| <= 1 then parts
    else
      var i := BestPair(v, parts, 0, INT32_MAX, -1);
      if i < 0 then parts else Merge(v, MergeAt(parts, i))
  }

  /** Ids of the characters that are in the vocabulary. */
  function CharIds(v: Vocab, chars: seq<string>): seq<int> {
    if chars == [] then []
    else (if chars[0] in v.ids then [v.ids[chars[0]]] else []) + CharIds(v, chars[1..])
  }

  function PartIds(v: Vocab, parts: seq<string>): seq<int> {
    if parts == [] then []
    else
      (if parts[0] in v.ids then [v.ids[parts[0]]] else CharIds(v, Utf8Chars(parts[0])))
      + PartIds(v, parts[1..])
  }

  function Bpe(v: Vocab, word: string): seq<int>
    requires AllBytes(word)
    decreases |word|
  {
    if |word| > WORD_CAP then Bpe(v, word[..WORD_CAP]) + Bpe(v, word[WORD_CAP..])
    else PartIds(v, Merge(v, Symbols(word)))
  }

  // ------------------------------------------------------------------ encode

  /** The first special token, in matching order, at the front of `t`; or the count. */
  function MatchSpecial(sps: seq<Special>, t: string): (k: nat)
    ensures k <= |sps| && (k < |sps| ==> sps[k].text <= t) && forall j :: 0 <= j < k ==> !(sps[j].text <= t)
  {
    if sps == [] || sps[0].text <= t then 0 else 1 + MatchSpecial(sps[1..], t)
  }

  predicate AnySpecial(sps: seq<Special>, t: string) {
    MatchSpecial(sps, t) < |sps|
  }

  /** The next position, from `p` on, where some special token starts; or the end. */
  function NextSpecial(sps: seq<Special>, t: string, p: nat): (e: nat)
    requires p <= |t|
    ensures p <= e <= |t|
    decreases |t| - p
  {
    if p == |t| || AnySpecial(sps, t[p..]) then p else NextSpecial(sps, t, p + 1)
  }

  function WordIds(v: Vocab, words: seq<string>): seq<int>
    requires forall w :: w in words ==> AllBytes(w)
  {
    if words == [] then [] else Bpe(v, words[0]) + WordIds(v, words[1..])
  }

  lemma PiecesBytes(t: string)
    requires AllBytes(t)
    ensures forall w :: w in Pieces(t, 0) ==> AllBytes(w)
  {
    PiecesPartition(t, 0);
    PartsBytes(Pieces(t, 0));
  }

  lemma {:induction false} PartsBytes(ss: seq<string>)
    requires AllBytes(Concat(ss))
    ensures forall w :: w in ss ==> AllBytes(w)
  {
    if ss != [] {
      var c := Concat(ss);
      forall i | 0 <= i < |ss[0]| ensures IsByte(ss[0][i]) { assert c[i] == ss[0][i]; }
      forall i | 0 <= i < |Concat(ss[1..])| ensures IsByte(Concat(ss[1..])[i]) { assert c[|ss[0]| + i] == Concat(ss[1..])[i]; }
      PartsBytes(ss[1..]);
    }
  }

  /** A span without special tokens. */
  function SpanIds(v: Vocab, span: string): seq<int>
    requires AllBytes(span)
  {
    PiecesBytes(span);
    WordIds(v, Pieces(span, 0))
  }

  function Encode(v: Vocab, t: string): seq<int>
    requires AllBytes(t) && forall k :: 0 <= k < |v.specials| ==> v.specials[k].text != ""
    decreases |t|
  {
    if t == "" then []
    else
      var k := MatchSpecial(v.specials, t);
      if k < |v.specials| then [v.specials[k].id] + Encode(v, t[|v.specials[k].text|..])
      else
        var e := NextSpecial(v.specials, t, 1);
        SpanIds(v, t[..e]) + Encode(v, t[e..])
  }

  // ------------------------------------------------------------------ decode

  function DecodeOne(v: Vocab, id: int): string
    requires |v.types| == |v.tokens|
  {
    if id < 0 || id >= |v.tokens| then ""
    else if v.types[id] == CONTROL then ""
    else Unwritten(Utf8Chars(v.tokens[id]))
  }

  function Decode(v: Vocab, ids: seq<int>): string
    requires |v.types| == |v.tokens|
  {
    if ids == [] then "" else DecodeOne(v, ids[0]) + Decode(v, ids[1..])
  }

  lemma {:induction false} DecodeConcat(v: Vocab, a: seq<int>, b: seq<int>)
    requires |v.types| == |v.tokens|
    ensures Decode(v, a + b) == Decode(v, a) + Decode(v, b)
  {
    if a == [] {
      assert a + b == b;
    } else {
      assert (a + b)[1..] == a[1..] + b;
      DecodeConcat(v, a[1..], b);
      assert DecodeOne(v, a[0]) + (Decode(v, a[1..]) + Decode(v, b)) == (DecodeOne(v, a[0]) + Decode(v, a[1..])) + Decode(v, b);
    }
  }
}
