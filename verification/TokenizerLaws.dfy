/** Two laws of the tokenizer: encoding splits at a special token, and decoding gives
    back the text without its control tokens. */
module TokenizerLaws {
  import opened ByteSymbols
  import opened Strings
  import opened Tokenizer

  ghost predicate NonEmpty(sps: seq<Special>) {
    forall k :: 0 <= k < |sps| ==> sps[k].text != ""
  }

  /** The opening angle of a special token stands at its front, nowhere else. */
  ghost predicate AngleAtFrontOnly(sps: seq<Special>) {
    forall k, i :: 0 <= k < |sps| && 0 < i < |sps[k].text| ==> sps[k].text[i] != '<'
  }

  // --------------------------------------------------- splitting at a special

  lemma PrefixStays(s: string, a: string, rest: string)
    requires a != "" && rest != "" && rest[0] == '<'
    requires forall i :: 0 < i < |s| ==> s[i] != '<'
    ensures s <= a + rest <==> s <= a
  {
    assert (a + rest)[|a|] == '<';
    assert s <= a + rest ==> forall i :: 0 <= i < |s| ==> s[i] == (a + rest)[i];
    assert |s| <= |a| ==> (a + rest)[..|s|] == a[..|s|];
  }

  lemma {:induction false} MatchStays(sps: seq<Special>, a: string, rest: string)
    requires AngleAtFrontOnly(sps) && a != "" && rest != "" && rest[0] == '<'
    ensures MatchSpecial(sps, a + rest) == MatchSpecial(sps, a)
  {
    if sps != [] {
      PrefixStays(sps[0].text, a, rest);
      TailAngle(sps);
      MatchStays(sps[1..], a, rest);
    }
  }

  lemma TailAngle(sps: seq<Special>)
    requires sps != [] && AngleAtFrontOnly(sps)
    ensures AngleAtFrontOnly(sps[1..])
  {
    forall k, i | 0 <= k < |sps[1..]| && 0 < i < |sps[1..][k].text| ensures sps[1..][k].text[i] != '<' {
      assert sps[1..][k] == sps[k + 1];
    }
  }

  lemma {:induction false} NextStays(sps: seq<Special>, a: string, rest: string, p: nat)
    requires AngleAtFrontOnly(sps) && p <= |a| && rest != "" && rest[0] == '<' && AnySpecial(sps, rest)
    ensures NextSpecial(sps, a + rest, p) == NextSpecial(sps, a, p)
    decreases |a| - p
  {
    if p < |a| {
      assert (a + rest)[p..] == a[p..] + rest;
      MatchStays(sps, a[p..], rest);
      NextStays(sps, a, rest, p + 1);
    } else {
      assert (a + rest)[p..] == rest;
    }
  }

  lemma {:induction false} SpecialMatches(sps: seq<Special>, s: string, b: string)
    requires exists k :: 0 <= k < |sps| && sps[k].text == s
    ensures AnySpecial(sps, s + b)
  {
    var k :| 0 <= k < |sps| && sps[k].text == s;
    assert s <= s + b;
    assert MatchSpecial(sps, s + b) <= k;
  }

  lemma EncodeSpecial(v: Vocab, t: string)
    requires NonEmpty(v.specials) && AllBytes(t) && t != "" && AnySpecial(v.specials, t)
    ensures var sp := v.specials[MatchSpecial(v.specials, t)];
      0 < |sp.text| <= |t| && Encode(v, t) == [sp.id] + Encode(v, t[|sp.text|..])
  {}

  lemma EncodePlain(v: Vocab, t: string)
    requires NonEmpty(v.specials) && AllBytes(t) && t != "" && !AnySpecial(v.specials, t)
    ensures var e := NextSpecial(v.specials, t, 1);
      Encode(v, t) == SpanIds(v, t[..e]) + Encode(v, t[e..])
  {}

  lemma Regroup(x: seq<int>, y: seq<int>, z: seq<int>)
    ensures x + (y + z) == (x + y) + z
  {}

  lemma SpecialFirst(v: Vocab, a: string, rest: string)
    requires NonEmpty(v.specials) && AngleAtFrontOnly(v.specials)
    requires AllBytes(a) && AllBytes(rest) && AllBytes(a + rest) && rest != "" && rest[0] == '<'
    requires a != "" && AnySpecial(v.specials, a)
    ensures var sp := v.specials[MatchSpecial(v.specials, a)];
      0 < |sp.text| <= |a| && Encode(v, a) == [sp.id] + Encode(v, a[|sp.text|..])
      && AllBytes(a[|sp.text|..] + rest) && Encode(v, a + rest) == [sp.id] + Encode(v, a[|sp.text|..] + rest)
  {
    hide Encode, MatchSpecial, NextSpecial;
    EncodeSpecial(v, a);
    MatchStays(v.specials, a, rest);
    EncodeSpecial(v, a + rest);
    var sp := v.specials[MatchSpecial(v.specials, a)];
    assert (a + rest)[|sp.text|..] == a[|sp.text|..] + rest;
  }

  lemma PlainFirst(v: Vocab, a: string, rest: string)
    requires NonEmpty(v.specials) && AngleAtFrontOnly(v.specials)
    requires AllBytes(a) && AllBytes(rest) && AllBytes(a + rest) && rest != "" && rest[0] == '<' && AnySpecial(v.specials, rest)
    requires a != "" && !AnySpecial(v.specials, a)
    ensures var e := NextSpecial(v.specials, a, 1);
      && Encode(v, a) == SpanIds(v, a[..e]) + Encode(v, a[e..])
      && AllBytes(a[e..] + rest) && Encode(v, a + rest) == SpanIds(v, a[..e]) + Encode(v, a[e..] + rest)
  {
    hide Encode, MatchSpecial, NextSpecial, SpanIds;
    EncodePlain(v, a);
    MatchStays(v.specials, a, rest);
    EncodePlain(v, a + rest);
    NextStays(v.specials, a, rest, 1);
    var e := NextSpecial(v.specials, a, 1);
    assert (a + rest)[..e] == a[..e] && (a + rest)[e..] == a[e..] + rest;
  }

  /** Whatever stands in front of a special token is encoded on its own. */
  lemma {:induction false} EncodeSplits(v: Vocab, a: string, rest: string)
    requires NonEmpty(v.specials) && AngleAtFrontOnly(v.specials)
    requires AllBytes(a) && AllBytes(rest) && rest != "" && rest[0] == '<' && AnySpecial(v.specials, rest)
    ensures AllBytes(a + rest)
    ensures Encode(v, a + rest) == Encode(v, a) + Encode(v, rest)
    decreases |a|
  {
    BytesConcat(a, rest);
    if a == "" {
      assert a + rest == rest;
    } else {
      hide Encode, SpanIds, MatchSpecial, NextSpecial, AngleAtFrontOnly;
      if AnySpecial(v.specials, a) {
        SpecialFirst(v, a, rest);
        var sp := v.specials[MatchSpecial(v.specials, a)];
        EncodeSplits(v, a[|sp.text|..], rest);
        Regroup([sp.id], Encode(v, a[|sp.text|..]), Encode(v, rest));
      } else {
        PlainFirst(v, a, rest);
        var e := NextSpecial(v.specials, a, 1);
        EncodeSplits(v, a[e..], rest);
        Regroup(SpanIds(v, a[..e]), Encode(v, a[e..]), Encode(v, rest));
      }
    }
  }

  lemma BytesConcat(a: string, b: string)
    ensures AllBytes(a) && AllBytes(b) <==> AllBytes(a + b)
  {
    if AllBytes(a + b) {
      forall i | 0 <= i < |a| ensures IsByte(a[i]) { assert (a + b)[i] == a[i]; }
      forall i | 0 <= i < |b| ensures IsByte(b[i]) { assert (a + b)[|a| + i] == b[i]; }
    }
  }

  // -------------------------------------------------------------- round trip

  /** Every byte can be emitted by itself. */
  ghost predicate SymbolsCovered(v: Vocab)
    requires Loaded(v)
  {
    forall c: char {:trigger IsByte(c)} :: IsByte(c) ==> Symbol(c) in v.ids && v.types[v.ids[Symbol(c)]] != CONTROL
  }

  /** No merge produces a control token. */
  ghost predicate MergesPlain(v: Vocab)
    requires Loaded(v)
  {
    forall a, b {:trigger PairKey(a, b)} :: PairKey(a, b) in v.merges && a + b in v.ids ==> v.types[v.ids[a + b]] != CONTROL
  }

  /** The parts are written pieces of `s`, none of them a control token. */
  ghost predicate PartsOf(v: Vocab, parts: seq<string>, chunks: seq<string>)
    requires Loaded(v)
  {
    && |parts| == |chunks|
    && forall i :: 0 <= i < |parts| ==>
      && AllBytes(chunks[i]) && parts[i] == Written(chunks[i])
      && (parts[i] in v.ids ==> v.types[v.ids[parts[i]]] != CONTROL)
  }

  lemma {:induction false} SingleParts(v: Vocab, s: string) returns (chunks: seq<string>)
    requires Loaded(v) && SymbolsCovered(v) && AllBytes(s)
    ensures PartsOf(v, Symbols(s), chunks) && Concat(chunks) == s
  {
    if s == "" {
      chunks := [];
    } else {
      var rest := SingleParts(v, s[1..]);
      chunks := [[s[0]]] + rest;
      assert chunks[1..] == rest;
      assert Written([s[0]]) == Symbol(s[0]) + Written([s[0]][1..]) == Symbol(s[0]) + "";
      assert IsByte(s[0]);
      forall i | 0 <= i < |chunks|
        ensures AllBytes(chunks[i]) && Symbols(s)[i] == Written(chunks[i])
        ensures Symbols(s)[i] in v.ids ==> v.types[v.ids[Symbols(s)[i]]] != CONTROL
      {
        if i > 0 { assert Symbols(s)[i] == Symbols(s[1..])[i - 1] && chunks[i] == rest[i - 1]; }
      }
    }
  }

  lemma {:induction false} MergedConcat(chunks: seq<string>, i: nat)
    requires i + 1 < |chunks|
    ensures Concat(MergeAt(chunks, i)) == Concat(chunks)
  {
    if i == 0 {
      assert MergeAt(chunks, 0) == [chunks[0] + chunks[1]] + chunks[2..];
      assert Concat(chunks) == chunks[0] + (chunks[1] + Concat(chunks[2..])) by { assert chunks[1..][1..] == chunks[2..]; }
      assert MergeAt(chunks, 0)[1..] == chunks[2..];
      assert (chunks[0] + chunks[1]) + Concat(chunks[2..]) == chunks[0] + (chunks[1] + Concat(chunks[2..]));
    } else {
      MergedConcat(chunks[1..], i - 1);
      assert MergeAt(chunks, i)[0] == chunks[0];
      assert MergeAt(chunks, i)[1..] == MergeAt(chunks[1..], i - 1);
    }
  }

  lemma {:induction false} MergeKeepsParts(v: Vocab, parts: seq<string>, chunks: seq<string>) returns (merged: seq<string>)
    requires Loaded(v) && MergesPlain(v) && PartsOf(v, parts, chunks)
    ensures PartsOf(v, Merge(v, parts), merged) && Concat(merged) == Concat(chunks)
    decreases |parts|
  {
    merged := chunks;
    if |parts| > 1 {
      var i := BestPair(v, parts, 0, INT32_MAX, -1);
      if i >= 0 {
        MergedParts(v, parts, chunks, i);
        MergedConcat(chunks, i);
        merged := MergeKeepsParts(v, MergeAt(parts, i), MergeAt(chunks, i));
      }
    }
  }

  lemma MergedParts(v: Vocab, parts: seq<string>, chunks: seq<string>, i: nat)
    requires Loaded(v) && MergesPlain(v) && PartsOf(v, parts, chunks)
    requires i + 1 < |parts| && PairKey(parts[i], parts[i + 1]) in v.merges
    ensures PartsOf(v, MergeAt(parts, i), MergeAt(chunks, i))
  {
    WrittenConcat(chunks[i], chunks[i + 1]);
    var p, c := MergeAt(parts, i), MergeAt(chunks, i);
    forall k | 0 <= k < |p|
      ensures AllBytes(c[k]) && p[k] == Written(c[k]) && (p[k] in v.ids ==> v.types[v.ids[p[k]]] != CONTROL)
    {
      if k < i {
        assert p[k] == parts[k] && c[k] == chunks[k];
      } else if k > i {
        assert p[k] == parts[k + 1] && c[k] == chunks[k + 1];
      }
    }
  }

  lemma {:induction false} CharIdsDecode(v: Vocab, s: string)
    requires Loaded(v) && SymbolsCovered(v) && AllBytes(s)
    ensures Decode(v, CharIds(v, Symbols(s))) == s
  {
    if s != "" {
      var c := s[0];
      assert IsByte(c);
      CharIdsDecode(v, s[1..]);
      DecodeConcat(v, [v.ids[Symbol(c)]], CharIds(v, Symbols(s[1..])));
      OneDecodes(v, v.ids[Symbol(c)], [c]);
      assert Written([c]) == Symbol(c) + Written([c][1..]) == Symbol(c) + "";
    }
  }

  /** A token that is a written byte string decodes to it. */
  lemma OneDecodes(v: Vocab, id: int, s: string)
    requires Loaded(v) && 0 <= id < |v.tokens| && v.types[id] != CONTROL && AllBytes(s) && v.tokens[id] == Written(s)
    ensures DecodeOne(v, id) == s && Decode(v, [id]) == s
  {
    WrittenSplits(s);
    ReadBack(s);
    assert [id][1..] == [];
  }

  lemma {:induction false} PartIdsDecode(v: Vocab, parts: seq<string>, chunks: seq<string>)
    requires Loaded(v) && SymbolsCovered(v) && PartsOf(v, parts, chunks)
    ensures Decode(v, PartIds(v, parts)) == Concat(chunks)
  {
    if parts != [] {
      PartIdsDecode(v, parts[1..], chunks[1..]);
      var p, c := parts[0], chunks[0];
      if p in v.ids {
        OneDecodes(v, v.ids[p], c);
        DecodeConcat(v, [v.ids[p]], PartIds(v, parts[1..]));
      } else {
        WrittenSplits(c);
        CharIdsDecode(v, c);
        DecodeConcat(v, CharIds(v, Utf8Chars(p)), PartIds(v, parts[1..]));
      }
    }
  }

  ghost predicate Usable(v: Vocab) {
    Loaded(v) && SymbolsCovered(v) && MergesPlain(v)
  }

  lemma {:induction false} BpeDecodes(v: Vocab, word: string)
    requires Usable(v) && AllBytes(word)
    ensures Decode(v, Bpe(v, word)) == word
    decreases |word|
  {
    if |word| > WORD_CAP {
      BpeDecodes(v, word[..WORD_CAP]);
      BpeDecodes(v, word[WORD_CAP..]);
      DecodeConcat(v, Bpe(v, word[..WORD_CAP]), Bpe(v, word[WORD_CAP..]));
      assert word == word[..WORD_CAP] + word[WORD_CAP..];
    } else {
      var chunks := SingleParts(v, word);
      var merged := MergeKeepsParts(v, Symbols(word), chunks);
      PartIdsDecode(v, Merge(v, Symbols(word)), merged);
    }
  }

  lemma {:induction false} WordIdsDecode(v: Vocab, words: seq<string>)
    requires Usable(v) && forall w :: w in words ==> AllBytes(w)
    ensures Decode(v, WordIds(v, words)) == Concat(words)
  {
    if words != [] {
      hide Bpe, Usable, Decode;
      BpeDecodes(v, words[0]);
      WordIdsDecode(v, words[1..]);
      LoadedTypes(v);
      DecodeConcat(v, Bpe(v, words[0]), WordIds(v, words[1..]));
    } else {
      assert Decode(v, []) == "";
    }
  }

  lemma LoadedTypes(v: Vocab)
    requires Usable(v)
    ensures |v.types| == |v.tokens| && NonEmpty(v.specials)
  {}

  lemma SpanDecodes(v: Vocab, span: string)
    requires Usable(v) && AllBytes(span)
    ensures Decode(v, SpanIds(v, span)) == span
  {
    PiecesBytes(span);
    WordIdsDecode(v, Pieces(span, 0));
    PiecesPartition(span, 0);
    assert span[0..] == span;
  }

  /** The text without the control tokens that encoding matched. */
  function Visible(v: Vocab, t: string): string
    requires |v.types| == |v.tokens|
    requires forall k :: 0 <= k < |v.specials| ==> v.specials[k].text != "" && 0 <= v.specials[k].id < |v.types|
    decreases |t|
  {
    if t == "" then ""
    else
      var k := MatchSpecial(v.specials, t);
      if k < |v.specials| then
        var sp := v.specials[k];
        (if v.types[sp.id] == CONTROL then "" else sp.text) + Visible(v, t[|sp.text|..])
      else
        var e := NextSpecial(v.specials, t, 1);
        t[..e] + Visible(v, t[e..])
  }

  /** Printable ASCII is written as itself. */
  lemma {:induction false} PrintableWritten(s: string)
    requires forall i :: 0 <= i < |s| ==> 0x21 <= s[i] as int <= 0x7E
    ensures AllBytes(s) && Written(s) == s
  {
    if s != "" {
      SymbolShape(s[0]);
      PrintableWritten(s[1..]);
      assert s == [s[0]] + s[1..];
    }
  }

  lemma SpecialDecodes(v: Vocab, k: nat)
    requires Loaded(v) && k < |v.specials|
    ensures DecodeOne(v, v.specials[k].id) == if v.types[v.specials[k].id] == CONTROL then "" else v.specials[k].text
  {
    var sp := v.specials[k];
    if v.types[sp.id] != CONTROL {
      assert "<think>" == ['<', 't', 'h', 'i', 'n', 'k', '>'];
      assert "</think>" == ['<', '/', 't', 'h', 'i', 'n', 'k', '>'];
      PrintableWritten(sp.text);
      OneDecodes(v, sp.id, sp.text);
    }
  }

  lemma DecodeIdThen(v: Vocab, id: int, rest: seq<int>)
    requires |v.types| == |v.tokens|
    ensures Decode(v, [id] + rest) == DecodeOne(v, id) + Decode(v, rest)
  {
    assert ([id] + rest)[1..] == rest;
  }

  /** Decoding an encoding gives the visible text, for every byte string. */
  lemma {:induction false} DecodeEncode(v: Vocab, t: string)
    requires Usable(v) && AllBytes(t)
    ensures Decode(v, Encode(v, t)) == Visible(v, t)
    decreases |t|
  {
    LoadedTypes(v);
    if t == "" {
    } else {
      hide SpanIds, NextSpecial, MatchSpecial, Decode, DecodeOne, Encode;
      var k := MatchSpecial(v.specials, t);
      if AnySpecial(v.specials, t) {
        var sp := v.specials[k];
        SpecialDecodes(v, k);
        EncodeSpecial(v, t);
        DecodeEncode(v, t[|sp.text|..]);
        DecodeIdThen(v, sp.id, Encode(v, t[|sp.text|..]));
      } else {
        var e := NextSpecial(v.specials, t, 1);
        EncodePlain(v, t);
        SpanDecodes(v, t[..e]);
        DecodeEncode(v, t[e..]);
        DecodeConcat(v, SpanIds(v, t[..e]), Encode(v, t[e..]));
      }
    }
  }

  /** Does encoding `t` match a control token? */
  predicate MatchesControl(v: Vocab, t: string)
    requires |v.types| == |v.tokens|
    requires forall k :: 0 <= k < |v.specials| ==> v.specials[k].text != "" && 0 <= v.specials[k].id < |v.types|
    decreases |t|
  {
    if t == "" then false
    else
      var k := MatchSpecial(v.specials, t);
      if k < |v.specials| then
        v.types[v.specials[k].id] == CONTROL || MatchesControl(v, t[|v.specials[k].text|..])
      else MatchesControl(v, t[NextSpecial(v.specials, t, 1)..])
  }

  lemma {:induction false} VisibleIsAll(v: Vocab, t: string)
    requires Loaded(v)
    ensures |Visible(v, t)| <= |t|
    ensures if MatchesControl(v, t) then |Visible(v, t)| < |t| else Visible(v, t) == t
    decreases |t|
  {
    if t == "" {
    } else {
      hide NextSpecial, MatchSpecial;
      var k := MatchSpecial(v.specials, t);
      if k < |v.specials| {
        var n := |v.specials[k].text|;
        VisibleIsAll(v, t[n..]);
        assert t == v.specials[k].text + t[n..];
      } else {
        var e := NextSpecial(v.specials, t, 1);
        VisibleIsAll(v, t[e..]);
        assert t == t[..e] + t[e..];
      }
    }
  }

  /** The round trip: for every byte string, decoding the encoding gives it back exactly
      when no control token is matched in it. */
  lemma RoundTripExactly(v: Vocab, t: string)
    requires Usable(v) && AllBytes(t)
    ensures Decode(v, Encode(v, t)) == t <==> !MatchesControl(v, t)
  {
    DecodeEncode(v, t);
    VisibleIsAll(v, t);
  }

  predicate OccursAt(t: string, s: string, i: nat) {
    i <= |t| && s <= t[i..]
  }

  /** A control token is only matched where its text occurs. */
  lemma {:induction false} MatchedOccurs(v: Vocab, t: string) returns (k: nat, i: nat)
    requires Loaded(v) && MatchesControl(v, t)
    ensures k < |v.specials| && v.types[v.specials[k].id] == CONTROL && OccursAt(t, v.specials[k].text, i)
    decreases |t|
  {
    k := MatchSpecial(v.specials, t);
    if k < |v.specials| && v.types[v.specials[k].id] == CONTROL {
      i := 0;
      assert t[0..] == t;
    } else {
      var n := if k < |v.specials| then |v.specials[k].text| else NextSpecial(v.specials, t, 1);
      var j;
      k, j := MatchedOccurs(v, t[n..]);
      i := n + j;
      assert t[n..][j..] == t[i..];
    }
  }
}
