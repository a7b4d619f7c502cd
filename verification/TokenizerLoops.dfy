/** The tokenizer's loops: pretokenisation, merging in place, the search for the next
    special token, decoding.  Each computes what `Tokenizer` says. */
module TokenizerLoops {
  import opened ByteSymbols
  import opened Strings
  import opened Tokenizer
  import opened TokenizerLaws
  import TokenPattern
  import Encoding

  /** The tables `BuildByteMaps` fills. */
  datatype Tables = Tables(b2u: seq<string>, u2b: map<string, char>)

  ghost predicate Filled(tb: Tables) {
    && |tb.b2u| == 256
    && (forall b :: 0 <= b < 256 ==> tb.b2u[b] == Symbol(ByteAt(b)))
    && (forall ch :: ch in tb.u2b <==> IsSymbol(ch))
    && forall ch :: ch in tb.u2b ==> tb.u2b[ch] == ByteOf(ch)
  }

  // ------------------------------------------------------------ pretokenise

  method LetterRun(t: string, j: nat) returns (k: nat)
    requires j <= |t|
    ensures k == LettersEnd(t, j)
  {
    k := j;
    while IsL(t, k)
      invariant k <= |t| && LettersEnd(t, k) == LettersEnd(t, j)
      decreases |t| - k
    { k := k + 1; }
  }

  method PunctRun(t: string, j: nat) returns (k: nat)
    requires j <= |t|
    ensures k == NewlinesEnd(t, PunctEnd(t, j))
  {
    k := j;
    while IsPunct(t, k)
      invariant k <= |t| && PunctEnd(t, k) == PunctEnd(t, j)
      decreases |t| - k
    { k := k + 1; }
    k := NewlineRun(t, k);
  }

  method NewlineRun(t: string, j: nat) returns (k: nat)
    requires j <= |t|
    ensures k == NewlinesEnd(t, j)
  {
    k := j;
    while IsNl(t, k)
      invariant k <= |t| && NewlinesEnd(t, k) == NewlinesEnd(t, j)
      decreases |t| - k
    { k := k + 1; }
  }

  method BlankRun(t: string, j: nat) returns (k: nat)
    requires j <= |t|
    ensures k == BlanksEnd(t, j)
  {
    k := j;
    while IsBlank(t, k)
      invariant k <= |t| && BlanksEnd(t, k) == BlanksEnd(t, j)
      decreases |t| - k
    { k := k + 1; }
  }

  method SpaceRun(t: string, j: nat) returns (k: nat)
    requires j <= |t|
    ensures k == SpacesEnd(t, j)
  {
    k := j;
    while IsSp(t, k)
      invariant k <= |t| && SpacesEnd(t, k) == SpacesEnd(t, j)
      decreases |t| - k
    { k := k + 1; }
  }

  /** One turn of the loop: the alternatives in the order they are tried. */
  method NextPiece(t: string, i: nat) returns (e: nat)
    requires i < |t|
    ensures e == PieceEnd(t, i) && TokenPattern.Matches(TokenPattern.CODED, t, i, e)
  {
    TokenPattern.PieceIsMatch(t, i);
    hide TokenPattern.Matches;
    if Contraction(t, i) > 0 { return i + Contraction(t, i); }
    var j := if LeadsLetters(t, i) then i + 1 else i;
    if IsL(t, j) {
      e := LetterRun(t, j);
      return;
    }
    if IsD(t, i) { return i + 1; }
    var p := if LeadsPunct(t, i) then i + 1 else i;
    if IsPunct(t, p) {
      e := PunctRun(t, p);
      return;
    }
    var n := BlankRun(t, i);
    if IsNl(t, n) {
      e := NewlineRun(t, n);
      return;
    }
    e := i + 1;
    if IsSp(t, i) {
      e := SpaceRun(t, i);
      if e < |t| && e - i > 1 { e := e - 1; }
    }
  }

  method Pretokenize(t: string) returns (out: seq<string>)
    ensures out == Pieces(t, 0)
    ensures Concat(out) == t && forall w :: w in out ==> w != ""
    ensures TokenPattern.CutBy(TokenPattern.CODED, t, 0, out)
    ensures TokenPattern.CutBy(TokenPattern.STATED, t, 0, out) <==> !TokenPattern.HasBlankLine(t, 0)
  {
    hide TokenPattern.CutBy, TokenPattern.HasBlankLine, TokenPattern.Matches;
    TokenPattern.PiecesCutExactly(t, 0, Pieces(t, 0));
    TokenPattern.PretokenisedAsStatedExactly(t);
    out := [];
    var i := 0;
    while i < |t|
      invariant i <= |t| && out + Pieces(t, i) == Pieces(t, 0)
    {
      var e := NextPiece(t, i);
      assert out + ([t[i..e]] + Pieces(t, e)) == (out + [t[i..e]]) + Pieces(t, e);
      out := out + [t[i..e]];
      i := e;
    }
    PiecesPartition(t, 0);
    assert t[0..] == t;
  }

  // -------------------------------------------------------- byte-pair merging

  method FindBest(v: Vocab, parts: seq<string>) returns (bi: int)
    ensures bi == BestPair(v, parts, 0, INT32_MAX, -1)
  {
    var best := INT32_MAX;
    bi := -1;
    var i := 0;
    while i + 1 < |parts|
      invariant i <= |parts| && -1 <= bi < i
      invariant bi >= 0 ==> bi + 1 < |parts| && PairKey(parts[bi], parts[bi + 1]) in v.merges
      invariant bi < 0 ==> bi == -1
      invariant i == 0 ==> bi == -1
      invariant BestPair(v, parts, i, best, bi) == BestPair(v, parts, 0, INT32_MAX, -1)
    {
      var key := PairKey(parts[i], parts[i + 1]);
      if key in v.merges && v.merges[key] < best {
        best, bi := v.merges[key], i;
      }
      i := i + 1;
    }
  }

  method MergeAll(v: Vocab, start: seq<string>) returns (parts: seq<string>)
    ensures parts == Merge(v, start) && Encoding.MergesTo(v, start, parts)
  {
    hide Encoding.MergesTo;
    Encoding.MergesExactly(v, start, Merge(v, start));
    parts := start;
    while |parts| > 1
      invariant Merge(v, parts) == Merge(v, start)
      decreases |parts|
    {
      var bi := FindBest(v, parts);
      if bi < 0 { break; }
      var joined := parts[bi := parts[bi] + parts[bi + 1]];
      assert joined[..bi + 1] + joined[bi + 2..] == MergeAt(parts, bi);
      parts := joined[..bi + 1] + joined[bi + 2..];
    }
  }

  lemma CharsStep(s: string, i: nat, n: nat)
    requires i < |s| && n == if CharLen(s[i]) <= |s| - i then CharLen(s[i]) else |s| - i
    ensures Utf8Chars(s[i..]) == [s[i..i + n]] + Utf8Chars(s[i + n..])
  {
    assert s[i..][..n] == s[i..i + n] && s[i..][n..] == s[i + n..];
  }

  method SplitChars(s: string) returns (out: seq<string>)
    ensures out == Utf8Chars(s)
  {
    hide Utf8Chars, CharLen;
    out := [];
    var i := 0;
    assert s[0..] == s;
    while i < |s|
      invariant i <= |s| && out + Utf8Chars(s[i..]) == Utf8Chars(s)
    {
      var n := if CharLen(s[i]) <= |s| - i then CharLen(s[i]) else |s| - i;
      CharsStep(s, i, n);
      assert out + ([s[i..i + n]] + Utf8Chars(s[i + n..])) == (out + [s[i..i + n]]) + Utf8Chars(s[i + n..]);
      out := out + [s[i..i + n]];
      i := i + n;
    }
    assert s[i..] == "";
    NoChars();
  }

  lemma NoChars()
    ensures Utf8Chars("") == []
  {}

  method EmitChars(v: Vocab, chars: seq<string>) returns (out: seq<int>)
    ensures out == CharIds(v, chars)
  {
    out := [];
    var i := 0;
    while i < |chars|
      invariant i <= |chars| && out + CharIds(v, chars[i..]) == CharIds(v, chars)
    {
      assert chars[i..][1..] == chars[i + 1..];
      if chars[i] in v.ids { out := out + [v.ids[chars[i]]]; }
      i := i + 1;
    }
  }

  /** The tokens of one part. */
  function OnePart(v: Vocab, part: string): seq<int> {
    if part in v.ids then [v.ids[part]] else CharIds(v, Utf8Chars(part))
  }

  method EmitPart(v: Vocab, part: string) returns (out: seq<int>)
    ensures out == OnePart(v, part)
  {
    hide CharIds, Utf8Chars;
    if part in v.ids { return [v.ids[part]]; }
    var chars := SplitChars(part);
    out := EmitChars(v, chars);
  }

  method EmitParts(v: Vocab, parts: seq<string>) returns (out: seq<int>)
    ensures out == PartIds(v, parts)
  {
    hide PartIds, OnePart;
    out := [];
    var i := 0;
    assert parts[0..] == parts;
    while i < |parts|
      invariant i <= |parts| && out + PartIds(v, parts[i..]) == PartIds(v, parts)
    {
      PartIdsNext(v, parts, i);
      var more := EmitPart(v, parts[i]);
      assert out + (more + PartIds(v, parts[i + 1..])) == (out + more) + PartIds(v, parts[i + 1..]);
      out := out + more;
      i := i + 1;
    }
    assert parts[i..] == [];
    NoParts(v);
  }

  lemma NoParts(v: Vocab)
    ensures PartIds(v, []) == []
  {}

  lemma PartIdsNext(v: Vocab, parts: seq<string>, i: nat)
    requires i < |parts|
    ensures PartIds(v, parts[i..]) == OnePart(v, parts[i]) + PartIds(v, parts[i + 1..])
  {
    hide CharIds, Utf8Chars;
    assert parts[i..][1..] == parts[i + 1..];
  }

  lemma {:induction false} SymbolsAppend(s: string, i: nat)
    requires AllBytes(s) && i < |s|
    ensures Symbols(s[..i + 1]) == Symbols(s[..i]) + [Symbol(s[i])]
  {
    if i == 0 {
      assert s[..1][1..] == "";
    } else {
      SymbolsAppend(s[1..], i - 1);
      assert s[..i + 1][1..] == s[1..][..i] && s[..i][1..] == s[1..][..i - 1];
    }
  }

  method SymbolParts(tb: Tables, word: string) returns (parts: seq<string>)
    requires Filled(tb) && AllBytes(word)
    ensures parts == Symbols(word)
  {
    parts := [];
    var i := 0;
    while i < |word|
      invariant i <= |word| && parts == Symbols(word[..i])
    {
      SymbolsAppend(word, i);
      parts := parts + [tb.b2u[word[i] as int]];
      i := i + 1;
    }
    assert word[..|word|] == word;
  }

  method BpeWord(v: Vocab, tb: Tables, word: string) returns (out: seq<int>)
    requires Filled(tb) && AllBytes(word)
    ensures out == Bpe(v, word) && Encoding.WordTokens(v, word, out)
    decreases |word|
  {
    hide Bpe, Filled, AllBytes, Encoding.WordTokens;
    Encoding.WordExactly(v, word, Bpe(v, word));
    if |word| > WORD_CAP {
      out := [];
      var off := 0;
      assert word[0..] == word;
      while off < |word|
        invariant off <= |word| && AllBytes(word[off..]) && out + Bpe(v, word[off..]) == Bpe(v, word)
      {
        var n := if off + WORD_CAP <= |word| then WORD_CAP else |word| - off;
        CutWord(v, word[off..], n);
        assert word[off..][..n] == word[off..off + n] && word[off..][n..] == word[off + n..];
        var chunk := BpeWord(v, tb, word[off..off + n]);
        assert out + (chunk + Bpe(v, word[off + n..])) == (out + chunk) + Bpe(v, word[off + n..]);
        out := out + chunk;
        off := off + n;
      }
      assert word[off..] == "";
      EmptyWord(v);
      return;
    }
    var parts := SymbolParts(tb, word);
    parts := MergeAll(v, parts);
    out := EmitParts(v, parts);
    SmallWord(v, word);
  }

  lemma SmallWord(v: Vocab, word: string)
    requires AllBytes(word) && |word| <= WORD_CAP
    ensures Bpe(v, word) == PartIds(v, Merge(v, Symbols(word)))
  {}

  lemma EmptyWord(v: Vocab)
    ensures Bpe(v, "") == []
  {}

  lemma CutWord(v: Vocab, word: string, n: nat)
    requires AllBytes(word) && word != "" && n == if WORD_CAP <= |word| then WORD_CAP else |word|
    ensures AllBytes(word[..n]) && AllBytes(word[n..])
    ensures Bpe(v, word) == Bpe(v, word[..n]) + Bpe(v, word[n..])
  {
    if |word| <= WORD_CAP {
      assert word[..n] == word && word[n..] == "";
      EmptyWord(v);
    }
  }

  // ------------------------------------------------------------------ encode

  method MatchHere(sps: seq<Special>, t: string) returns (k: nat)
    ensures k == MatchSpecial(sps, t)
  {
    k := 0;
    while k < |sps|
      invariant k <= |sps| && k + MatchSpecial(sps[k..], t) == MatchSpecial(sps, t)
    {
      if sps[k].text <= t { return; }
      assert sps[k..][1..] == sps[k + 1..];
      k := k + 1;
    }
  }

  /** First place at or after `i` where `s` stands, or the end. */
  method Find(t: string, s: string, i: nat) returns (p: nat)
    requires i <= |t|
    ensures i <= p <= |t| && (p < |t| ==> s <= t[p..]) && forall q :: i <= q < p ==> !(s <= t[q..])
  {
    p := i;
    while p < |t| && !(s <= t[p..])
      invariant i <= p <= |t| && forall q :: i <= q < p ==> !(s <= t[q..])
    { p := p + 1; }
  }

  lemma {:induction false} NextIs(sps: seq<Special>, t: string, p: nat, e: nat)
    requires p <= e <= |t| && (e < |t| ==> AnySpecial(sps, t[e..]))
    requires forall q :: p <= q < e ==> !AnySpecial(sps, t[q..])
    ensures NextSpecial(sps, t, p) == e
    decreases e - p
  {
    if p < e {
      assert !AnySpecial(sps, t[p..]);
      NextIs(sps, t, p + 1, e);
    }
  }

  lemma {:induction false} AnyIs(sps: seq<Special>, t: string)
    ensures AnySpecial(sps, t) <==> exists k :: 0 <= k < |sps| && sps[k].text <= t
  {
    var m := MatchSpecial(sps, t);
    assert m < |sps| ==> sps[m].text <= t;
  }

  /** The nearest occurrence of any special token. */
  method FindNext(sps: seq<Special>, t: string, i: nat) returns (next: nat)
    requires i <= |t|
    ensures next == NextSpecial(sps, t, i)
  {
    next := |t|;
    var k := 0;
    while k < |sps|
      invariant k <= |sps| && i <= next <= |t|
      invariant next < |t| ==> exists j :: 0 <= j < k && sps[j].text <= t[next..]
      invariant forall j, q :: 0 <= j < k && i <= q < next ==> !(sps[j].text <= t[q..])
    {
      var p := Find(t, sps[k].text, i);
      if p < next { next := p; }
      k := k + 1;
    }
    forall q | i <= q < next ensures !AnySpecial(sps, t[q..]) { AnyIs(sps, t[q..]); }
    if next < |t| { AnyIs(sps, t[next..]); }
    NextIs(sps, t, i, next);
  }

  method EncodeWords(v: Vocab, tb: Tables, words: seq<string>) returns (out: seq<int>)
    requires Filled(tb) && forall w :: w in words ==> AllBytes(w)
    ensures out == WordIds(v, words)
  {
    hide Bpe, AllBytes, Filled, Encoding.WordTokens;
    out := [];
    var i := 0;
    while i < |words|
      invariant i <= |words| && out + WordIds(v, words[i..]) == WordIds(v, words)
    {
      assert words[i] in words && words[i..][1..] == words[i + 1..];
      var ids := BpeWord(v, tb, words[i]);
      assert out + (ids + WordIds(v, words[i + 1..])) == (out + ids) + WordIds(v, words[i + 1..]);
      out := out + ids;
      i := i + 1;
    }
  }

  lemma EncodeStep(v: Vocab, text: string, i: nat)
    requires i < |text| && AllBytes(text) && forall k :: 0 <= k < |v.specials| ==> v.specials[k].text != ""
    ensures var t := text[i..]; var k := MatchSpecial(v.specials, t);
      if k < |v.specials| then
        Encode(v, t) == [v.specials[k].id] + Encode(v, text[i + |v.specials[k].text|..])
      else
        var e := NextSpecial(v.specials, t, 1);
        Encode(v, t) == SpanIds(v, t[..e]) + Encode(v, text[i + e..])
  {
    hide MatchSpecial, NextSpecial, SpanIds, Encode;
    var t := text[i..];
    var k := MatchSpecial(v.specials, t);
    if AnySpecial(v.specials, t) {
      EncodeSpecial(v, t);
      assert t[|v.specials[k].text|..] == text[i + |v.specials[k].text|..];
    } else {
      EncodePlain(v, t);
      var e := NextSpecial(v.specials, t, 1);
      assert t[e..] == text[i + e..];
    }
  }

  lemma EncodeNothing(v: Vocab)
    requires forall k :: 0 <= k < |v.specials| ==> v.specials[k].text != ""
    ensures Encode(v, "") == []
  {}

  method EncodeSpan(v: Vocab, tb: Tables, span: string) returns (out: seq<int>)
    requires Filled(tb) && AllBytes(span)
    ensures out == SpanIds(v, span)
  {
    hide Filled, SpanIds, WordIds, Pieces;
    PiecesBytes(span);
    var words := Pretokenize(span);
    out := EncodeWords(v, tb, words);
    SpanIs(v, span);
  }

  method EncodeText(v: Vocab, tb: Tables, text: string) returns (out: seq<int>)
    requires Filled(tb) && AllBytes(text) && forall k :: 0 <= k < |v.specials| ==> v.specials[k].text != ""
    ensures out == Encode(v, text) && Encoding.Encodes(v, text, out)
  {
    hide Filled, SpanIds, MatchSpecial, NextSpecial, Encode, Encoding.Encodes;
    Encoding.EncodedExactly(v, text, Encode(v, text));
    out := [];
    var i := 0;
    assert text[0..] == text;
    while i < |text|
      invariant i <= |text| && out + Encode(v, text[i..]) == Encode(v, text)
    {
      EncodeStep(v, text, i);
      var t := text[i..];
      var k := MatchHere(v.specials, t);
      var ids, n;
      if k < |v.specials| {
        ids, n := [v.specials[k].id], |v.specials[k].text|;
      } else {
        n := FindNext(v.specials, t, 0);
        NextFromOne(v.specials, t);
        ids := EncodeSpan(v, tb, t[..n]);
      }
      assert out + (ids + Encode(v, text[i + n..])) == (out + ids) + Encode(v, text[i + n..]);
      out, i := out + ids, i + n;
    }
    assert text[i..] == "";
    EncodeNothing(v);
  }

  lemma NextFromOne(sps: seq<Special>, t: string)
    requires t != "" && !AnySpecial(sps, t)
    ensures NextSpecial(sps, t, 0) == NextSpecial(sps, t, 1)
  {
    assert t[0..] == t;
  }

  lemma SpanIs(v: Vocab, span: string)
    requires AllBytes(span)
    ensures (forall w :: w in Pieces(span, 0) ==> AllBytes(w)) && SpanIds(v, span) == WordIds(v, Pieces(span, 0))
  {
    PiecesBytes(span);
  }

  // ------------------------------------------------------------------ decode

  method DecodeToken(v: Vocab, tb: Tables, id: int) returns (out: string)
    requires Filled(tb) && |v.types| == |v.tokens|
    ensures out == DecodeOne(v, id)
  {
    if id < 0 || id >= |v.tokens| { return ""; }
    if v.types[id] == CONTROL { return ""; }
    hide Filled, Unwritten;
    var chars := SplitChars(v.tokens[id]);
    out := Unwrite(tb, chars);
  }

  method Unwrite(tb: Tables, chars: seq<string>) returns (out: string)
    requires Filled(tb)
    ensures out == Unwritten(chars)
  {
    hide Filled, IsSymbol, ByteOf, Unwritten;
    out := "";
    var i := 0;
    assert chars[0..] == chars;
    while i < |chars|
      invariant i <= |chars| && out + Unwritten(chars[i..]) == Unwritten(chars)
    {
      UnwrittenNext(chars, i);
      Inverse(tb, chars[i]);
      ghost var rest := Unwritten(chars[i + 1..]);
      if chars[i] in tb.u2b {
        assert out + ([tb.u2b[chars[i]]] + rest) == (out + [tb.u2b[chars[i]]]) + rest;
        out := out + [tb.u2b[chars[i]]];
      } else {
        assert "" + rest == rest;
      }
      i := i + 1;
    }
    assert chars[i..] == [];
    NothingUnwritten();
  }

  lemma NothingUnwritten()
    ensures Unwritten([]) == ""
  {}

  lemma UnwrittenNext(chars: seq<string>, i: nat)
    requires i < |chars|
    ensures Unwritten(chars[i..]) == (if IsSymbol(chars[i]) then [ByteOf(chars[i])] else "") + Unwritten(chars[i + 1..])
  {
    assert chars[i..][1..] == chars[i + 1..];
  }

  lemma Inverse(tb: Tables, ch: string)
    requires Filled(tb)
    ensures ch in tb.u2b <==> IsSymbol(ch)
    ensures ch in tb.u2b ==> tb.u2b[ch] == ByteOf(ch)
  {}

  method DecodeAll(v: Vocab, tb: Tables, ids: seq<int>) returns (out: string)
    requires Filled(tb) && |v.types| == |v.tokens|
    ensures out == Decode(v, ids)
  {
    hide Decode, DecodeOne, Filled;
    out := "";
    var i := 0;
    assert ids[0..] == ids;
    while i < |ids|
      invariant i <= |ids| && out + Decode(v, ids[i..]) == Decode(v, ids)
    {
      assert ids[i..] == [ids[i]] + ids[i + 1..];
      DecodeIdThen(v, ids[i], ids[i + 1..]);
      var one := DecodeToken(v, tb, ids[i]);
      assert out + (one + Decode(v, ids[i + 1..])) == (out + one) + Decode(v, ids[i + 1..]);
      out := out + one;
      i := i + 1;
    }
    assert ids[i..] == [];
    NoIds(v);
  }

  lemma NoIds(v: Vocab)
    requires |v.types| == |v.tokens|
    ensures Decode(v, []) == ""
  {}
}
