/** The byte alphabet of the vocabulary: every byte is written as one UTF-8 encoded
    character, and any concatenation of them can be taken apart again. */
module ByteSymbols {

  /** Bytes are `char` values below 256. */
  predicate IsByte(c: char) { c as int < 256 }
  function ByteAt(b: int): (c: char)
    requires 0 <= b < 256
    ensures IsByte(c) && c as int == b
  {
    b as char
  }

  predicate AllBytes(s: string) { forall i :: 0 <= i < |s| ==> IsByte(s[i]) }

  /** Bytes that stand for themselves. */
  predicate Direct(b: int) {
    0x21 <= b <= 0x7E || 0xA1 <= b <= 0xAC || 0xAE <= b
  }

  /** How many bytes below `b` do not stand for themselves. */
  function IndirectBelow(b: nat): nat {
    if b == 0 then 0 else IndirectBelow(b - 1) + if Direct(b - 1) then 0 else 1
  }

  function Codepoint(b: nat): nat {
    if Direct(b) then b else 256 + IndirectBelow(b)
  }

  function Utf8(cp: nat): string
    requires cp < 0x1_0000
  {
    if cp < 0x80 then [cp as char]
    else if cp < 0x800 then [(0xC0 + cp / 64) as char, (0x80 + cp % 64) as char]
    else [(0xE0 + cp / 4096) as char, (0x80 + cp / 64 % 64) as char, (0x80 + cp % 64) as char]
  }

  lemma {:induction false} IndirectBelowIs(b: nat)
    requires b <= 256
    ensures IndirectBelow(b) ==
      if b <= 0x21 then b else if b <= 0x7F then 33 else if b <= 0xA1 then b - 94 else if b <= 0xAD then 67 else 68
  {
    if b > 0 { IndirectBelowIs(b - 1); }
  }

  /** The character string a byte is written as. */
  function Symbol(c: char): (s: string)
    requires IsByte(c)
  {
    IndirectBelowIs(c as int);
    Utf8(Codepoint(c as int))
  }

  lemma SymbolShape(c: char)
    requires IsByte(c)
    ensures var s := Symbol(c);
      || (|s| == 1 && 0x21 <= s[0] as int < 0x7F)
      || (|s| == 2 && 0xC2 <= s[0] as int <= 0xC5 && 0x80 <= s[1] as int < 0xC0)
    ensures 0x21 <= c as int <= 0x7E ==> Symbol(c) == [c]
  {
    IndirectBelowIs(c as int);
  }

  lemma SymbolInjective(a: char, b: char)
    requires IsByte(a) && IsByte(b) && Symbol(a) == Symbol(b)
    ensures a == b
  {
    CodepointBelow(a as int);
    CodepointBelow(b as int);
    Utf8Injective(Codepoint(a as int), Codepoint(b as int));
    CodepointInjective(a as int, b as int);
  }

  lemma CodepointBelow(b: nat)
    requires b < 256
    ensures Codepoint(b) < 0x800
  {
    IndirectBelowIs(b);
  }

  lemma Utf8Injective(a: nat, b: nat)
    requires a < 0x800 && b < 0x800 && Utf8(a) == Utf8(b)
    ensures a == b
  {
    assert Utf8(a)[0] == Utf8(b)[0];
    if a >= 0x80 && b >= 0x80 {
      assert Utf8(a)[1] == Utf8(b)[1];
    }
  }

  lemma CodepointInjective(a: nat, b: nat)
    requires a < 256 && b < 256 && Codepoint(a) == Codepoint(b)
    ensures a == b
  {
    IndirectBelowIs(a);
    IndirectBelowIs(b);
  }

  /** Printable bytes stand for themselves; the other 68 take the code points from 256 on,
      in their own order and without a gap. */
  lemma AlphabetIs()
    ensures forall b: nat :: 0x21 <= b <= 0x7E || 0xA1 <= b <= 0xAC || 0xAE <= b <= 0xFF ==> Codepoint(b) == b
    ensures forall b: nat {:trigger Codepoint(b)} :: b <= 0x20 ==> Codepoint(b) == 256 + b
    ensures forall b: nat {:trigger Codepoint(b)} :: 0x7F <= b <= 0xA0 ==> Codepoint(b) == 256 + 33 + (b - 0x7F)
    ensures Codepoint(0xAD) == 256 + 67
  {
    forall b: nat | b <= 256
      ensures IndirectBelow(b) ==
        if b <= 0x21 then b else if b <= 0x7F then 33 else if b <= 0xA1 then b - 94 else if b <= 0xAD then 67 else 68
    {
      IndirectBelowIs(b);
    }
  }

  /** A symbol is the UTF-8 encoding (RFC 3629) of its byte's code point. */
  lemma SymbolEncodes(c: char)
    requires IsByte(c)
    ensures var s, cp := Symbol(c), Codepoint(c as int);
      if cp < 0x80 then s == [cp as char]
      else
        && |s| == 2 && 0xC0 <= s[0] as int < 0xE0 && 0x80 <= s[1] as int < 0xC0
        && (s[0] as int - 0xC0) * 64 + (s[1] as int - 0x80) == cp
  {
    CodepointBelow(c as int);
  }

  /** The symbols of a byte string, side by side. */
  function Written(s: string): string
    requires AllBytes(s)
  {
    if s == "" then "" else Symbol(s[0]) + Written(s[1..])
  }

  lemma {:induction false} WrittenConcat(a: string, b: string)
    requires AllBytes(a) && AllBytes(b)
    ensures AllBytes(a + b) && Written(a + b) == Written(a) + Written(b)
  {
    if a == "" {
      assert a + b == b;
    } else {
      assert (a + b)[1..] == a[1..] + b;
      WrittenConcat(a[1..], b);
    }
  }

  // ---------------------------------------------------------- taking it apart

  /** Length of the character that starts with this byte. */
  function CharLen(c: char): (n: nat)
    ensures 1 <= n <= 4
  {
    var b := c as int;
    if 0xC0 <= b < 0xE0 then 2 else if 0xE0 <= b < 0xF0 then 3 else if 0xF0 <= b < 0xF8 then 4 else 1
  }

  /** The characters of a UTF-8 string; the last one may be cut short. */
  function Utf8Chars(s: string): seq<string>
    decreases |s|
  {
    if s == "" then []
    else
      var n := if CharLen(s[0]) <= |s| then CharLen(s[0]) else |s|;
      [s[..n]] + Utf8Chars(s[n..])
  }

  /** Is `ch` the symbol of a byte? */
  predicate IsSymbol(ch: string) {
    exists c: char {:trigger IsByte(c)} :: IsByte(c) && Symbol(c) == ch
  }

  /** The byte a symbol stands for. */
  function ByteOf(ch: string): (c: char)
    requires IsSymbol(ch)
    ensures IsByte(c) && Symbol(c) == ch
  {
    ByteOfUnique(ch);
    var c: char :| IsByte(c) && Symbol(c) == ch;
    c
  }

  lemma ByteOfUnique(ch: string)
    ensures forall a: char, b: char {:trigger IsByte(a), IsByte(b)} ::
      IsByte(a) && Symbol(a) == ch && IsByte(b) && Symbol(b) == ch ==> a == b
  {
    forall a: char, b: char | IsByte(a) && Symbol(a) == ch && IsByte(b) && Symbol(b) == ch ensures a == b {
      SymbolInjective(a, b);
    }
  }

  /** Characters that are symbols give their byte, others nothing. */
  function Unwritten(chars: seq<string>): string {
    if chars == [] then ""
    else (if IsSymbol(chars[0]) then [ByteOf(chars[0])] else "") + Unwritten(chars[1..])
  }

  function Symbols(s: string): (r: seq<string>)
    requires AllBytes(s)
    ensures |r| == |s|
  {
    if s == "" then [] else [Symbol(s[0])] + Symbols(s[1..])
  }

  /** Written bytes split into exactly their symbols. */
  lemma {:induction false} WrittenSplits(s: string)
    requires AllBytes(s)
    ensures Utf8Chars(Written(s)) == Symbols(s)
  {
    if s != "" {
      var y, rest := Symbol(s[0]), Written(s[1..]);
      SymbolShape(s[0]);
      var w := y + rest;
      assert w[0] == y[0] && w[..|y|] == y && w[|y|..] == rest;
      WrittenSplits(s[1..]);
    }
  }

  lemma SymbolDecodes(c: char)
    requires IsByte(c)
    ensures IsSymbol(Symbol(c)) && ByteOf(Symbol(c)) == c
  {
    assert IsByte(c);
    ByteOfUnique(Symbol(c));
  }

  /** Reading written bytes back gives the bytes. */
  lemma {:induction false} ReadBack(s: string)
    requires AllBytes(s)
    ensures Unwritten(Symbols(s)) == s
  {
    if s != "" {
      SymbolDecodes(s[0]);
      ReadBack(s[1..]);
    }
  }

  /** The table as the program fills it: counting up the bytes without a place of
      their own. */
  method BuildByteMaps() returns (b2u: seq<string>, u2b: map<string, char>)
    ensures |b2u| == 256 && forall b :: 0 <= b < 256 ==> b2u[b] == Symbol(ByteAt(b))
    ensures forall ch :: ch in u2b <==> IsSymbol(ch)
    ensures forall ch :: ch in u2b ==> u2b[ch] == ByteOf(ch)
  {
    b2u, u2b := [], map[];
    var k := 0;
    var b := 0;
    while b < 256
      invariant 0 <= b <= 256 && k == IndirectBelow(b) && |b2u| == b
      invariant forall i :: 0 <= i < b ==> b2u[i] == Symbol(ByteAt(i))
      invariant Backwards(b2u, u2b)
    {
      hide Backwards;
      IndirectBelowIs(b);
      var cp := if Direct(b) then b else 256 + k;
      if !Direct(b) { k := k + 1; }
      var s := Utf8(cp);
      assert s == Symbol(ByteAt(b));
      BackwardsOneMore(b2u, u2b, s);
      b2u := b2u + [s];
      u2b := u2b[s := ByteAt(b)];
      b := b + 1;
    }
    BackwardsWhole(b2u, u2b);
  }

  /** The second table undoes the part of the first that has been filled. */
  ghost predicate Backwards(b2u: seq<string>, u2b: map<string, char>) {
    && |b2u| <= 256
    && (forall ch :: ch in u2b ==> exists i :: 0 <= i < |b2u| && b2u[i] == ch && u2b[ch] == ByteAt(i))
    && forall i :: 0 <= i < |b2u| ==> b2u[i] in u2b
  }

  lemma BackwardsOneMore(b2u: seq<string>, u2b: map<string, char>, s: string)
    requires Backwards(b2u, u2b) && |b2u| < 256
    ensures Backwards(b2u + [s], u2b[s := ByteAt(|b2u|)])
  {
    hide ByteAt;
    var longer, more := b2u + [s], u2b[s := ByteAt(|b2u|)];
    assert longer[|b2u|] == s;
    forall ch | ch in more && ch != s ensures exists i :: 0 <= i < |longer| && longer[i] == ch && more[ch] == ByteAt(i) {
      var i :| 0 <= i < |b2u| && b2u[i] == ch && u2b[ch] == ByteAt(i);
      assert longer[i] == ch;
    }
  }

  lemma BackwardsWhole(b2u: seq<string>, u2b: map<string, char>)
    requires Backwards(b2u, u2b) && |b2u| == 256 && forall b :: 0 <= b < 256 ==> b2u[b] == Symbol(ByteAt(b))
    ensures forall ch :: ch in u2b <==> IsSymbol(ch)
    ensures forall ch :: ch in u2b ==> u2b[ch] == ByteOf(ch)
  {
    forall ch | ch in u2b ensures IsSymbol(ch) && u2b[ch] == ByteOf(ch) {
      var i :| 0 <= i < 256 && b2u[i] == ch && u2b[ch] == ByteAt(i);
      SymbolDecodes(ByteAt(i));
    }
    forall ch | IsSymbol(ch) ensures ch in u2b {
      var c: char :| IsByte(c) && Symbol(c) == ch;
      assert b2u[c as int] in u2b;
    }
  }
}
