/** The string under which a grammar state's mask is cached, and exactly when two
    states with the same string are interchangeable. */
module Signature {
  import opened Json
  import opened ToolGrammar
  import opened GrammarState
  import opened GrammarLiveness

  const UNIT_SEP: char := '\U{1f}'

  // ----------------------------------------------------- the allowlist key

  /** Lexicographic order on byte strings. */
  predicate LessEq(a: string, b: string) {
    if a == "" then true
    else if b == "" then false
    else a[0] < b[0] || (a[0] == b[0] && LessEq(a[1..], b[1..]))
  }

  function Insert(s: string, sorted: seq<string>): seq<string> {
    if sorted == [] || LessEq(s, sorted[0]) then [s] + sorted
    else [sorted[0]] + Insert(s, sorted[1..])
  }

  function Sort(names: seq<string>): seq<string> {
    if names == [] then [] else Insert(names[0], Sort(names[1..]))
  }

  /** Every name followed by the unit separator. */
  function Join(names: seq<string>): string {
    if names == [] then "" else names[0] + ([UNIT_SEP] + Join(names[1..]))
  }

  function NamesKey(names: seq<string>): string {
    Join(Sort(names))
  }

  // -------------------------------------------------------- the signature

  function StIndex(s: St): (k: nat)
    ensures k < 41
  {
    match s
    case WsObjOpen => 0 case KeyOpenQ => 1 case KeyName => 2 case KeyColon => 3 case NameOpenQ => 4
    case NameVal => 5 case ArgComma => 6 case ArgKeyOpenQ => 7 case ArgKey => 8 case ArgsColon => 9
    case JValue => 10 case JValueReq => 11 case JStr => 12 case JStrEsc => 13
    case JStrU1 => 14 case JStrU2 => 15 case JStrU3 => 16 case JStrU4 => 17
    case JNumMinus => 18 case JNumZero => 19 case JNumInt => 20 case JNumDot => 21
    case JNumFrac => 22 case JNumE => 23 case JNumESign => 24 case JNumExp => 25
    case JLit => 26 case JKey => 27 case JKeyReq => 28 case JKeyStr => 29 case JKeyEsc => 30
    case JKeyU1 => 31 case JKeyU2 => 32 case JKeyU3 => 33 case JKeyU4 => 34
    case JKeyColon => 35 case JAfterVal => 36
    case ObjClose => 37 case Done => 38 case Closer => 39 case Closed => 40
  }

  function Decimal(n: nat): string {
    if n < 10 then [('0' as int + n) as char] else Decimal(n / 10) + [('0' as int + n % 10) as char]
  }

  function NamePart(g: Config): string {
    if Early(g.st) then "|" + (g.namePref + ("|" + NamesKey(g.names))) else ""
  }

  function SignatureOf(g: Config): string {
    [('A' as int + StIndex(g.st)) as char, if g.dead then '!' else '.']
    + (g.stack + ("|" + (Decimal(g.lit) + ("|" + (g.litWord + NamePart(g))))))
  }

  // ------------------------------------------- what the parts of it decode to

  lemma StIndexInjective(a: St, b: St)
    requires StIndex(a) == StIndex(b)
    ensures a == b
  {
    StFromIndex(a);
    StFromIndex(b);
  }

  function FromIndex(k: nat): St {
    match k
    case 0 => WsObjOpen case 1 => KeyOpenQ case 2 => KeyName case 3 => KeyColon
    case 4 => NameOpenQ case 5 => NameVal case 6 => ArgComma case 7 => ArgKeyOpenQ
    case 8 => ArgKey case 9 => ArgsColon case 10 => JValue case 11 => JValueReq
    case 12 => JStr case 13 => JStrEsc case 14 => JStrU1 case 15 => JStrU2
    case 16 => JStrU3 case 17 => JStrU4 case 18 => JNumMinus case 19 => JNumZero
    case 20 => JNumInt case 21 => JNumDot case 22 => JNumFrac case 23 => JNumE
    case 24 => JNumESign case 25 => JNumExp case 26 => JLit case 27 => JKey
    case 28 => JKeyReq case 29 => JKeyStr case 30 => JKeyEsc case 31 => JKeyU1
    case 32 => JKeyU2 case 33 => JKeyU3 case 34 => JKeyU4 case 35 => JKeyColon
    case 36 => JAfterVal case 37 => ObjClose case 38 => Done case 39 => Closer
    case _ => Closed
  }

  lemma StFromIndex(s: St)
    ensures FromIndex(StIndex(s)) == s
  {
    hide FromIndex, StIndex;
    match StIndex(s) / 14
    case 0 => FromLowIndex(s);
    case 1 => FromMiddleIndex(s);
    case _ => FromHighIndex(s);
  }

  lemma FromLowIndex(s: St)
    requires StIndex(s) < 14
    ensures FromIndex(StIndex(s)) == s
  {}

  lemma FromMiddleIndex(s: St)
    requires 14 <= StIndex(s) < 28
    ensures FromIndex(StIndex(s)) == s
  {}

  lemma FromHighIndex(s: St)
    requires 28 <= StIndex(s)
    ensures FromIndex(StIndex(s)) == s
  {}

  function Value(d: string): int {
    if d == "" then 0 else Value(d[..|d| - 1]) * 10 + (d[|d| - 1] as int - '0' as int)
  }

  lemma {:induction false} DecimalValue(n: nat)
    ensures Value(Decimal(n)) == n && '|' !in Decimal(n)
  {
    if n >= 10 {
      DecimalValue(n / 10);
      var d := Decimal(n);
      assert d[..|d| - 1] == Decimal(n / 10);
    } else {
      assert Decimal(n)[..0] == "";
    }
  }

  /** A separator that occurs in neither head splits both sides at the same place. */
  lemma SplitAt(sep: char, a: string, b: string, a': string, b': string)
    requires a + ([sep] + b) == a' + ([sep] + b') && sep !in a && sep !in a'
    ensures a == a' && b == b'
  {
    var s := a + ([sep] + b);
    assert s[|a|] == sep && s[|a'|] == sep;
    assert forall k :: 0 <= k < |a| ==> s[k] == a[k];
    assert forall k :: 0 <= k < |a'| ==> s[k] == a'[k];
    assert a == s[..|a|] && b == s[|a| + 1..];
    assert a' == s[..|a'|] && b' == s[|a'| + 1..];
  }

  predicate SepFree(names: seq<string>) {
    forall i :: 0 <= i < |names| ==> UNIT_SEP !in names[i]
  }

  lemma {:induction false} JoinInjective(a: seq<string>, b: seq<string>)
    requires SepFree(a) && SepFree(b) && Join(a) == Join(b)
    ensures a == b
  {
    if a == [] || b == [] {
    } else {
      SplitAt(UNIT_SEP, a[0], Join(a[1..]), b[0], Join(b[1..]));
      JoinInjective(a[1..], b[1..]);
    }
  }

  lemma {:induction false} InsertMembers(s: string, sorted: seq<string>)
    ensures multiset(Insert(s, sorted)) == multiset(sorted) + multiset{s}
  {
    if sorted == [] || LessEq(s, sorted[0]) {
    } else {
      InsertMembers(s, sorted[1..]);
      assert sorted == [sorted[0]] + sorted[1..];
    }
  }

  lemma {:induction false} SortMembers(names: seq<string>)
    ensures multiset(Sort(names)) == multiset(names)
  {
    if names != [] {
      SortMembers(names[1..]);
      InsertMembers(names[0], Sort(names[1..]));
      assert names == [names[0]] + names[1..];
    }
  }

  lemma SortKeepsSepFree(names: seq<string>)
    requires SepFree(names)
    ensures SepFree(Sort(names))
  {
    SortMembers(names);
    forall i | 0 <= i < |Sort(names)| ensures UNIT_SEP !in Sort(names)[i] {
      assert Sort(names)[i] in multiset(Sort(names));
      assert Sort(names)[i] in names;
    }
  }

  /** Two allowlists with one key register the same names, as often each. */
  lemma NamesKeyDecides(a: seq<string>, b: seq<string>)
    requires SepFree(a) && SepFree(b) && NamesKey(a) == NamesKey(b)
    ensures multiset(a) == multiset(b) && SameMembers(a, b)
  {
    SortKeepsSepFree(a);
    SortKeepsSepFree(b);
    JoinInjective(Sort(a), Sort(b));
    SortMembers(a);
    SortMembers(b);
    forall n ensures n in a <==> n in b {
      assert n in a <==> n in multiset(a);
      assert n in b <==> n in multiset(b);
    }
  }

  // -------------------------------------------- configurations a run reaches

  /** Kept by every run, dead or alive. */
  ghost predicate SigInv(g: Config) {
    && Brackets(g.stack)
    && '|' !in g.litWord
    && (g.namePref == "" || PrefixOfSome(g.namePref, g.names))
  }

  lemma SigInvApply(g: Config, a: Act)
    requires SigInv(g)
    requires a.Open? ==> a.bracket == '{' || a.bracket == '['
    requires a.Begin? ==> '|' !in a.word
    requires a.Grow? ==> PrefixOfSome(g.namePref + [a.c], g.names)
    ensures SigInv(Apply(g, a)) && Apply(g, a).names == g.names
  {}

  lemma FrameActWords(g: Config, c: char)
    requires FrameState(g.st)
    ensures FrameAct(g, c).Begin? ==> FrameAct(g, c).word == CLOSER
    ensures FrameAct(g, c).Grow? ==> PrefixOfSome(g.namePref + [FrameAct(g, c).c], g.names)
    ensures !FrameAct(g, c).Open?
  {}

  lemma SigInvAdvance(g: Config, c: char)
    requires SigInv(g)
    ensures SigInv(Advance(g, c)) && Advance(g, c).names == g.names
  {
    hide FrameAct, JsonAct, Apply;
    if !g.dead {
      if FrameState(g.st) { FrameActWords(g, c); } else { JsonActShape(g.st, g.Top(), c); }
      SigInvApply(g, Decide(g, c));
    }
  }

  lemma {:induction false} SigInvRun(g: Config, w: string)
    requires SigInv(g)
    ensures SigInv(Run(g, w)) && Run(g, w).names == g.names
    decreases |w|
  {
    hide Advance;
    if w != "" {
      SigInvAdvance(g, w[0]);
      SigInvRun(Advance(g, w[0]), w[1..]);
    }
  }

  /** Reached from a reset; the literal word of an earlier call may still be there. */
  ghost predicate Reachable(g: Config) {
    exists litWord, w :: '|' !in litWord && g == Run(Init(g.names, litWord), w)
  }

  lemma ReachableSigInv(g: Config)
    requires Reachable(g)
    ensures SigInv(g)
  {
    var litWord, w :| '|' !in litWord && g == Run(Init(g.names, litWord), w);
    SigInvRun(Init(g.names, litWord), w);
  }

  // --------------------------------------------------------- main theorems

  /** Same future: every byte string is legal from both or from neither. */
  ghost predicate SameLanguage(a: Config, b: Config) {
    a.IsDone() == b.IsDone() && forall w :: TokenOk(a, w) == TokenOk(b, w)
  }

  predicate BarFree(names: seq<string>) {
    forall i :: 0 <= i < |names| ==> '|' !in names[i]
  }

  lemma NamePartDecides(a: Config, b: Config)
    requires SigInv(a) && SigInv(b) && Early(a.st) && Early(b.st)
    requires BarFree(a.names) && BarFree(b.names) && SepFree(a.names) && SepFree(b.names)
    requires NamePart(a) == NamePart(b)
    ensures a.namePref == b.namePref && SameMembers(a.names, b.names)
  {
    PrefixBarFree(a.namePref, a.names);
    PrefixBarFree(b.namePref, b.names);
    assert a.namePref + ("|" + NamesKey(a.names)) == NamePart(a)[1..];
    assert b.namePref + ("|" + NamesKey(b.names)) == NamePart(b)[1..];
    SplitAt('|', a.namePref, NamesKey(a.names), b.namePref, NamesKey(b.names));
    NamesKeyDecides(a.names, b.names);
  }

  lemma PrefixBarFree(p: string, names: seq<string>)
    requires BarFree(names) && (p == "" || PrefixOfSome(p, names))
    ensures '|' !in p
  {
    if p != "" {
      var i :| 0 <= i < |names| && p <= names[i];
      forall k | 0 <= k < |p| ensures p[k] != '|' { assert p[k] == names[i][k]; }
    }
  }

  lemma BracketsBarFree(s: string)
    requires Brackets(s)
    ensures '|' !in s
  {}

  lemma StateAndStackDecide(a: Config, b: Config)
    requires SigInv(a) && SigInv(b) && SignatureOf(a) == SignatureOf(b)
    ensures a.st == b.st && a.dead == b.dead && a.stack == b.stack && a.lit == b.lit
    ensures a.litWord + NamePart(a) == b.litWord + NamePart(b)
  {
    hide StIndex, NamePart;
    var la, lb := a.litWord + NamePart(a), b.litWord + NamePart(b);
    var ra, rb := Decimal(a.lit) + ("|" + la), Decimal(b.lit) + ("|" + lb);
    var sa, sb := a.stack + ("|" + ra), b.stack + ("|" + rb);
    assert SignatureOf(a)[0] == ('A' as int + StIndex(a.st)) as char && SignatureOf(a)[2..] == sa;
    assert SignatureOf(b)[0] == ('A' as int + StIndex(b.st)) as char && SignatureOf(b)[2..] == sb;
    assert SignatureOf(a)[1] == (if a.dead then '!' else '.') && SignatureOf(b)[1] == (if b.dead then '!' else '.');
    StIndexInjective(a.st, b.st);
    BracketsBarFree(a.stack);
    BracketsBarFree(b.stack);
    SplitAt('|', a.stack, ra, b.stack, rb);
    DecimalValue(a.lit);
    DecimalValue(b.lit);
    SplitAt('|', Decimal(a.lit), la, Decimal(b.lit), lb);
  }

  /** With names free of both separators the signature decides everything that the
      machine still depends on. */
  lemma SignatureDecides(a: Config, b: Config)
    requires SigInv(a) && SigInv(b) && SignatureOf(a) == SignatureOf(b)
    requires BarFree(a.names) && BarFree(b.names) && SepFree(a.names) && SepFree(b.names)
    ensures SameLive(a, b)
  {
    hide SignatureOf;
    StateAndStackDecide(a, b);
    if Early(a.st) {
      var pa, pb := NamePart(a)[1..], NamePart(b)[1..];
      assert NamePart(a) == "|" + pa && NamePart(b) == "|" + pb;
      SplitAt('|', a.litWord, pa, b.litWord, pb);
      NamePartDecides(a, b);
    } else {
      assert a.litWord + "" == a.litWord && b.litWord + "" == b.litWord;
    }
  }

  lemma SameLiveLanguage(a: Config, b: Config)
    requires SameLive(a, b)
    ensures SameLanguage(a, b)
  {
    forall w ensures TokenOk(a, w) == TokenOk(b, w) {
      SameLiveRun(a, b, w);
    }
  }
}
