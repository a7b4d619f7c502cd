/** The pattern pretokenisation is stated by, read as a backtracking matcher, and where
    the code follows it. */
module TokenPattern {
  import opened Tokenizer

  // ------------------------------------------------------------ the matcher

  /** The sets of bytes the pattern speaks of. */
  datatype ByteSet = Letter | Number | White | Break | Blank | Solid | Lead | Other | Like(lower: char)

  predicate IsWhite(c: char) {
    c == ' ' || c == '\t' || c == '\n' || c == '\U{b}' || c == '\U{c}' || c == '\r'
  }

  /** A letter, where every byte beyond ASCII counts as one, or a digit. */
  predicate IsWordByte(c: char) {
    'a' <= c <= 'z' || 'A' <= c <= 'Z' || c as int >= 0x80 || '0' <= c <= '9'
  }

  predicate In(s: ByteSet, c: char) {
    match s
    case Letter => IsWordByte(c) && !('0' <= c <= '9')
    case Number => '0' <= c <= '9'
    case White => IsWhite(c)
    case Break => c == '\r' || c == '\n'
    case Blank => IsWhite(c) && c != '\r' && c != '\n'
    case Solid => !IsWhite(c)
    case Lead => !IsWordByte(c) && c != '\r' && c != '\n'
    case Other => !IsWordByte(c) && !IsWhite(c)
    case Like(lower) => c == lower || ('A' <= c <= 'Z' && c as int + 32 == lower as int)
  }

  datatype Pattern =
    | Empty
    | One(s: ByteSet)
    | Many(s: ByteSet)          // greedy, possibly none
    | Maybe(p: Pattern)         // greedy
    | Then(p: Pattern, q: Pattern)
    | Or(p: Pattern, q: Pattern)
    | NotBefore(s: ByteSet)     // looks ahead: the end of the text or a byte outside `s`

  predicate Sees(s: ByteSet, t: string, i: nat) {
    i < |t| && In(s, t[i])
  }

  predicate Within(es: seq<nat>, i: nat, t: string) {
    forall k :: 0 <= k < |es| ==> i <= es[k] <= |t|
  }

  /** Where the pattern can end when it starts at `i`, in the order a backtracking matcher
      finds the ends: the first alternative and the longest repetition come first. */
  function Ends(p: Pattern, t: string, i: nat): (es: seq<nat>)
    requires i <= |t|
    ensures Within(es, i, t)
    decreases p, 0, |t| - i
  {
    match p
    case Empty => [i]
    case One(s) => if Sees(s, t, i) then [i + 1] else []
    case Many(s) => if Sees(s, t, i) then Ends(p, t, i + 1) + [i] else [i]
    case Maybe(q) => Ends(q, t, i) + [i]
    case Then(q, r) => EndsBehind(r, t, Ends(q, t, i), i)
    case Or(q, r) => Ends(q, t, i) + Ends(r, t, i)
    case NotBefore(s) => if Sees(s, t, i) then [] else [i]
  }

  /** Going on with `p` behind each of the ends `es`. */
  function EndsBehind(p: Pattern, t: string, es: seq<nat>, i: nat): (r: seq<nat>)
    requires Within(es, i, t)
    ensures Within(r, i, t)
    decreases p, 1, |es|
  {
    if es == [] then [] else Ends(p, t, es[0]) + EndsBehind(p, t, es[1..], i)
  }

  /** The match at `i` ends at `e`. */
  predicate Matches(p: Pattern, t: string, i: nat, e: nat) {
    i <= |t| && var es := Ends(p, t, i); es != [] && es[0] == e
  }

  // -------------------------------------------------------- the stated pattern

  /** A word whatever the case of its letters. */
  function AnyCase(w: string): Pattern
    decreases |w|
  {
    if w == "" then Empty else Then(One(Like(w[0])), AnyCase(w[1..]))
  }

  /** One or more of a set. */
  function Some(s: ByteSet): Pattern {
    Then(One(s), Many(s))
  }

  const CONTRACTIONS := Or(AnyCase("'s"), Or(AnyCase("'t"), Or(AnyCase("'re"), Or(AnyCase("'ve"),
    Or(AnyCase("'m"), Or(AnyCase("'ll"), AnyCase("'d")))))))
  const WORD := Then(Maybe(One(Lead)), Some(Letter))
  const SIGNS := Then(Maybe(One(Like(' '))), Then(Some(Other), Many(Break)))
  const TRAILING := Then(Some(White), NotBefore(Solid))

  /** The seven alternatives; `before` is what may stand before the line breaks of the
      fifth. */
  function SevenWith(before: ByteSet): Pattern {
    Or(CONTRACTIONS, Or(WORD, Or(One(Number), Or(SIGNS,
      Or(Then(Many(before), Some(Break)), Or(TRAILING, Some(White)))))))
  }

  /** As stated: any white space before the line breaks. */
  const STATED := SevenWith(White)

  /** As coded: white space on one line. */
  const CODED := SevenWith(Blank)

  // ------------------------------------------------------------ first matches

  /** The first end, or -1. */
  function First(es: seq<nat>): int {
    if es == [] then -1 else es[0]
  }

  /** End of the longest run of a set. */
  function RunEnd(s: ByteSet, t: string, i: nat): (e: nat)
    requires i <= |t|
    ensures i <= e <= |t| && !Sees(s, t, e) && (e > i <==> Sees(s, t, i))
    ensures forall k :: i <= k < e ==> In(s, t[k])
    decreases |t| - i
  {
    if Sees(s, t, i) then RunEnd(s, t, i + 1) else i
  }

  /** A greedy repetition can end anywhere in the run, the far end first. */
  lemma {:induction false} ManyEnds(s: ByteSet, t: string, i: nat)
    requires i <= |t|
    ensures var es, e := Ends(Many(s), t, i), RunEnd(s, t, i);
      |es| == e - i + 1 && forall k :: 0 <= k < |es| ==> es[k] == e - k
    decreases |t| - i
  {
    hide In;
    ManyUnfolds(s, t, i);
    hide Ends;
    if Sees(s, t, i) {
      ManyEnds(s, t, i + 1);
      assert RunEnd(s, t, i) == RunEnd(s, t, i + 1);
    }
  }

  lemma ManyUnfolds(s: ByteSet, t: string, i: nat)
    requires i <= |t|
    ensures Ends(Many(s), t, i) == if Sees(s, t, i) then Ends(Many(s), t, i + 1) + [i] else [i]
  {}

  lemma OrFirst(p: Pattern, q: Pattern, t: string, i: nat)
    requires i <= |t|
    ensures First(Ends(Or(p, q), t, i)) == if First(Ends(p, t, i)) >= 0 then First(Ends(p, t, i)) else First(Ends(q, t, i))
  {
    hide Sees;
    assert Ends(Or(p, q), t, i) == Ends(p, t, i) + Ends(q, t, i);
  }

  lemma BehindOne(p: Pattern, t: string, e: nat, i: nat)
    requires i <= e <= |t|
    ensures EndsBehind(p, t, [e], i) == Ends(p, t, e)
  {
    hide Ends;
    assert [e][1..] == [];
    assert EndsBehind(p, t, [], i) == [];
  }

  /** Behind several ends the first that goes on decides. */
  lemma {:induction false} BehindFirst(p: Pattern, t: string, es: seq<nat>, i: nat, k: nat)
    requires Within(es, i, t) && k < |es|
    requires forall j :: 0 <= j < k ==> Ends(p, t, es[j]) == []
    requires Ends(p, t, es[k]) != []
    ensures First(EndsBehind(p, t, es, i)) == Ends(p, t, es[k])[0]
    decreases k
  {
    hide Ends;
    if k > 0 {
      assert Ends(p, t, es[0]) == [];
      BehindFirst(p, t, es[1..], i, k - 1);
    }
  }

  lemma {:induction false} BehindNone(p: Pattern, t: string, es: seq<nat>, i: nat)
    requires Within(es, i, t) && forall j :: 0 <= j < |es| ==> Ends(p, t, es[j]) == []
    ensures EndsBehind(p, t, es, i) == []
    decreases |es|
  {
    hide Ends;
    if es != [] { BehindNone(p, t, es[1..], i); }
  }

  lemma ThenEnds(p: Pattern, q: Pattern, t: string, i: nat)
    requires i <= |t|
    ensures Ends(Then(p, q), t, i) == EndsBehind(q, t, Ends(p, t, i), i)
  {}

  lemma OneEnds(s: ByteSet, t: string, i: nat)
    requires i <= |t|
    ensures Ends(One(s), t, i) == if Sees(s, t, i) then [i + 1] else []
  {}

  /** One or more: from the far end of the run down to its first byte. */
  lemma SomeEnds(s: ByteSet, t: string, i: nat)
    requires i <= |t|
    ensures var es, e := Ends(Some(s), t, i), RunEnd(s, t, i);
      |es| == e - i && forall k :: 0 <= k < |es| ==> es[k] == e - k
  {
    hide Ends, EndsBehind;
    ThenEnds(One(s), Many(s), t, i);
    OneEnds(s, t, i);
    if Sees(s, t, i) {
      BehindOne(Many(s), t, i + 1, i);
      ManyEnds(s, t, i + 1);
    } else {
      BehindNone(Many(s), t, [], i);
    }
  }

  // ------------------------------------------------------- the alternatives

  predicate Spells(w: string, t: string, i: nat)
    decreases |w|
  {
    w == "" || (Sees(Like(w[0]), t, i) && Spells(w[1..], t, i + 1))
  }

  lemma {:induction false} AnyCaseEnds(w: string, t: string, i: nat)
    requires i <= |t|
    ensures Ends(AnyCase(w), t, i) == if Spells(w, t, i) then [i + |w|] else []
    decreases |w|
  {
    hide Ends, EndsBehind, Sees;
    if w == "" {
      EmptyEnds(t, i);
    } else {
      ThenEnds(One(Like(w[0])), AnyCase(w[1..]), t, i);
      OneEnds(Like(w[0]), t, i);
      if Sees(Like(w[0]), t, i) {
        SeesWithin(Like(w[0]), t, i);
        BehindOne(AnyCase(w[1..]), t, i + 1, i);
        AnyCaseEnds(w[1..], t, i + 1);
      } else {
        BehindNone(AnyCase(w[1..]), t, [], i);
      }
    }
  }

  lemma EmptyEnds(t: string, i: nat)
    requires i <= |t|
    ensures Ends(Empty, t, i) == [i]
  {}

  lemma SeesWithin(s: ByteSet, t: string, i: nat)
    requires Sees(s, t, i)
    ensures i < |t|
  {}

  lemma WordFirst(t: string, i: nat)
    requires i <= |t|
    ensures First(Ends(WORD, t, i)) ==
            if Sees(Lead, t, i) && Sees(Letter, t, i + 1) then RunEnd(Letter, t, i + 1)
            else if Sees(Letter, t, i) then RunEnd(Letter, t, i) else -1
  {
    hide Ends, EndsBehind, In;
    var es := Ends(Maybe(One(Lead)), t, i);
    ThenEnds(Maybe(One(Lead)), Some(Letter), t, i);
    MaybeEnds(Lead, t, i);
    SomeEnds(Letter, t, i);
    if Sees(Lead, t, i) {
      SomeEnds(Letter, t, i + 1);
      if Sees(Letter, t, i + 1) { BehindFirst(Some(Letter), t, es, i, 0); }
      else if Sees(Letter, t, i) { BehindFirst(Some(Letter), t, es, i, 1); }
      else { BehindNone(Some(Letter), t, es, i); }
    } else {
      BehindOne(Some(Letter), t, i, i);
    }
  }

  lemma MaybeEnds(s: ByteSet, t: string, i: nat)
    requires i <= |t|
    ensures Ends(Maybe(One(s)), t, i) == if Sees(s, t, i) then [i + 1, i] else [i]
  {
    assert Ends(Maybe(One(s)), t, i) == Ends(One(s), t, i) + [i];
  }

  const SIGNS_TAIL := Then(Some(Other), Many(Break))

  lemma TailFirst(t: string, i: nat)
    requires i <= |t|
    ensures Ends(SIGNS_TAIL, t, i) == [] <==> !Sees(Other, t, i)
    ensures First(Ends(SIGNS_TAIL, t, i)) ==
            if Sees(Other, t, i) then RunEnd(Break, t, RunEnd(Other, t, i)) else -1
  {
    hide Ends, EndsBehind, In;
    ThenEnds(Some(Other), Many(Break), t, i);
    SomeEnds(Other, t, i);
    var es := Ends(Some(Other), t, i);
    if Sees(Other, t, i) {
      ManyEnds(Break, t, es[0]);
      BehindFirst(Many(Break), t, es, i, 0);
    } else {
      BehindNone(Many(Break), t, es, i);
    }
  }

  lemma SignsFirst(t: string, i: nat)
    requires i <= |t|
    ensures var j := if Sees(Like(' '), t, i) && Sees(Other, t, i + 1) then i + 1 else i;
      First(Ends(SIGNS, t, i)) == if Sees(Other, t, j) then RunEnd(Break, t, RunEnd(Other, t, j)) else -1
  {
    hide Ends, EndsBehind, In;
    var es := Ends(Maybe(One(Like(' '))), t, i);
    ThenEnds(Maybe(One(Like(' '))), SIGNS_TAIL, t, i);
    MaybeEnds(Like(' '), t, i);
    TailFirst(t, i);
    if Sees(Like(' '), t, i) {
      TailFirst(t, i + 1);
      if Sees(Other, t, i + 1) { BehindFirst(SIGNS_TAIL, t, es, i, 0); }
      else if Sees(Other, t, i) { BehindFirst(SIGNS_TAIL, t, es, i, 1); }
      else { BehindNone(SIGNS_TAIL, t, es, i); }
    } else {
      BehindOne(SIGNS_TAIL, t, i, i);
    }
  }

  /** Line breaks behind what may stand before them: the last break of the run counts. */
  lemma LinesFirst(before: ByteSet, t: string, i: nat, k: nat)
    requires i <= |t| && i <= k <= RunEnd(before, t, i) && Sees(Break, t, k)
    requires forall j :: k < j <= RunEnd(before, t, i) ==> !Sees(Break, t, j)
    ensures First(Ends(Then(Many(before), Some(Break)), t, i)) == RunEnd(Break, t, k)
  {
    hide Ends, EndsBehind, In;
    var es, e := Ends(Many(before), t, i), RunEnd(before, t, i);
    ThenEnds(Many(before), Some(Break), t, i);
    ManyEnds(before, t, i);
    forall j | 0 <= j < e - k ensures Ends(Some(Break), t, es[j]) == [] {
      SomeEnds(Break, t, es[j]);
    }
    SomeEnds(Break, t, k);
    assert es[e - k] == k;
    BehindFirst(Some(Break), t, es, i, e - k);
  }

  lemma LinesNone(before: ByteSet, t: string, i: nat)
    requires i <= |t| && forall j :: i <= j <= RunEnd(before, t, i) ==> !Sees(Break, t, j)
    ensures Ends(Then(Many(before), Some(Break)), t, i) == []
  {
    hide Ends, EndsBehind, In;
    var es := Ends(Many(before), t, i);
    ThenEnds(Many(before), Some(Break), t, i);
    ManyEnds(before, t, i);
    forall j | 0 <= j < |es| ensures Ends(Some(Break), t, es[j]) == [] {
      SomeEnds(Break, t, es[j]);
    }
    BehindNone(Some(Break), t, es, i);
  }

  /** White space that stops one byte before what follows it. */
  lemma TrailingFirst(t: string, i: nat)
    requires i <= |t|
    ensures var e := RunEnd(White, t, i);
      First(Ends(TRAILING, t, i)) ==
      if e == i then -1 else if e == |t| then e else if e - i > 1 then e - 1 else -1
  {
    hide Ends, EndsBehind;
    var es, e := Ends(Some(White), t, i), RunEnd(White, t, i);
    ThenEnds(Some(White), NotBefore(Solid), t, i);
    SomeEnds(White, t, i);
    NotBeforeEnds(Solid, t, e);
    if e == i {
      BehindNone(NotBefore(Solid), t, es, i);
    } else if e == |t| {
      BehindFirst(NotBefore(Solid), t, es, i, 0);
    } else if e - i > 1 {
      NotBeforeEnds(Solid, t, e - 1);
      BehindFirst(NotBefore(Solid), t, es, i, 1);
    } else {
      BehindNone(NotBefore(Solid), t, es, i);
    }
  }

  lemma NotBeforeEnds(s: ByteSet, t: string, i: nat)
    requires i <= |t|
    ensures Ends(NotBefore(s), t, i) == if Sees(s, t, i) then [] else [i]
  {}

  // ------------------------------------------------------- what the code does

  lemma SameSets(t: string, j: nat)
    ensures Sees(Letter, t, j) == IsL(t, j) && Sees(Number, t, j) == IsD(t, j)
    ensures Sees(White, t, j) == IsSp(t, j) && Sees(Break, t, j) == IsNl(t, j)
    ensures Sees(Blank, t, j) == IsBlank(t, j) && Sees(Other, t, j) == IsPunct(t, j)
    ensures Sees(Lead, t, j) == (j < |t| && !IsNl(t, j) && !IsL(t, j) && !IsD(t, j))
    ensures Sees(Solid, t, j) == (j < |t| && !IsSp(t, j))
  {}

  lemma {:induction false} LettersRun(t: string, k: nat)
    requires k <= |t|
    ensures RunEnd(Letter, t, k) == LettersEnd(t, k)
    decreases |t| - k
  {
    SameSets(t, k);
    if IsL(t, k) { LettersRun(t, k + 1); }
  }

  lemma {:induction false} SignsRun(t: string, k: nat)
    requires k <= |t|
    ensures RunEnd(Other, t, k) == PunctEnd(t, k)
    decreases |t| - k
  {
    SameSets(t, k);
    if IsPunct(t, k) { SignsRun(t, k + 1); }
  }

  lemma {:induction false} BreaksRun(t: string, k: nat)
    requires k <= |t|
    ensures RunEnd(Break, t, k) == NewlinesEnd(t, k)
    decreases |t| - k
  {
    SameSets(t, k);
    if IsNl(t, k) { BreaksRun(t, k + 1); }
  }

  lemma {:induction false} BlanksRun(t: string, k: nat)
    requires k <= |t|
    ensures RunEnd(Blank, t, k) == BlanksEnd(t, k)
    decreases |t| - k
  {
    SameSets(t, k);
    if IsBlank(t, k) { BlanksRun(t, k + 1); }
  }

  lemma {:induction false} WhiteRun(t: string, k: nat)
    requires k <= |t|
    ensures RunEnd(White, t, k) == SpacesEnd(t, k)
    decreases |t| - k
  {
    SameSets(t, k);
    if IsSp(t, k) { WhiteRun(t, k + 1); }
  }

  lemma TwoBytes(a: char, b: char, t: string, i: nat)
    ensures Spells([a, b], t, i) <==> Sees(Like(a), t, i) && Sees(Like(b), t, i + 1)
  {
    hide In;
    assert [a, b][1..] == [b] && [b][1..] == [];
    assert Spells([b], t, i + 1) <==> Sees(Like(b), t, i + 1) && Spells([], t, i + 2);
  }

  lemma ThreeBytes(a: char, b: char, c: char, t: string, i: nat)
    ensures Spells([a, b, c], t, i) <==> Sees(Like(a), t, i) && Sees(Like(b), t, i + 1) && Sees(Like(c), t, i + 2)
  {
    hide In;
    assert [a, b, c][1..] == [b, c];
    TwoBytes(b, c, t, i + 1);
  }

  /** Length of the first contraction spelled at `i`, or 0. */
  function Spelled(t: string, i: nat): nat {
    if Spells("'s", t, i) || Spells("'t", t, i) then 2
    else if Spells("'re", t, i) || Spells("'ve", t, i) then 3
    else if Spells("'m", t, i) then 2
    else if Spells("'ll", t, i) then 3
    else if Spells("'d", t, i) then 2 else 0
  }

  lemma SpelledIs(t: string, i: nat)
    requires i < |t|
    ensures Spelled(t, i) == Contraction(t, i)
  {
    hide Spells;
    TwoBytes('\'', 's', t, i);
    TwoBytes('\'', 't', t, i);
    ThreeBytes('\'', 'r', 'e', t, i);
    ThreeBytes('\'', 'v', 'e', t, i);
    TwoBytes('\'', 'm', t, i);
    ThreeBytes('\'', 'l', 'l', t, i);
    TwoBytes('\'', 'd', t, i);
  }

  lemma ContractionsFirst(t: string, i: nat)
    requires i < |t|
    ensures First(Ends(CONTRACTIONS, t, i)) == if Contraction(t, i) > 0 then i + Contraction(t, i) else -1
  {
    hide Ends, EndsBehind, AnyCase, Spells, Contraction;
    OrFirst(AnyCase("'s"), FROM_T, t, i);
    OrFirst(AnyCase("'t"), FROM_RE, t, i);
    OrFirst(AnyCase("'re"), FROM_VE, t, i);
    OrFirst(AnyCase("'ve"), FROM_M, t, i);
    OrFirst(AnyCase("'m"), FROM_LL, t, i);
    OrFirst(AnyCase("'ll"), AnyCase("'d"), t, i);
    AnyCaseEnds("'s", t, i);
    AnyCaseEnds("'t", t, i);
    AnyCaseEnds("'re", t, i);
    AnyCaseEnds("'ve", t, i);
    AnyCaseEnds("'m", t, i);
    AnyCaseEnds("'ll", t, i);
    AnyCaseEnds("'d", t, i);
    SpelledIs(t, i);
  }

  const FROM_LL := Or(AnyCase("'ll"), AnyCase("'d"))
  const FROM_M := Or(AnyCase("'m"), FROM_LL)
  const FROM_VE := Or(AnyCase("'ve"), FROM_M)
  const FROM_RE := Or(AnyCase("'re"), FROM_VE)
  const FROM_T := Or(AnyCase("'t"), FROM_RE)

  /** The first alternative that matches decides. */
  lemma SevenFirst(before: ByteSet, t: string, i: nat)
    requires i <= |t|
    ensures First(Ends(SevenWith(before), t, i)) ==
      var a := First(Ends(CONTRACTIONS, t, i));
      var b := First(Ends(WORD, t, i));
      var c := First(Ends(One(Number), t, i));
      var d := First(Ends(SIGNS, t, i));
      var e := First(Ends(Then(Many(before), Some(Break)), t, i));
      var f := First(Ends(TRAILING, t, i));
      if a >= 0 then a else if b >= 0 then b else if c >= 0 then c else if d >= 0 then d
      else if e >= 0 then e else if f >= 0 then f else First(Ends(Some(White), t, i))
  {
    hide Ends, EndsBehind, First, AnyCase;
    var lines := Then(Many(before), Some(Break));
    var from6 := Or(TRAILING, Some(White));
    var from5 := Or(lines, from6);
    var from4 := Or(SIGNS, from5);
    var from3 := Or(One(Number), from4);
    var from2 := Or(WORD, from3);
    OrFirst(CONTRACTIONS, from2, t, i);
    OrFirst(WORD, from3, t, i);
    OrFirst(One(Number), from4, t, i);
    OrFirst(SIGNS, from5, t, i);
    OrFirst(lines, from6, t, i);
    OrFirst(TRAILING, Some(White), t, i);
  }

  /** The end of a piece, told by runs. */
  ghost predicate EndsByRuns(t: string, i: nat, e: nat)
    requires i < |t|
  {
    var c := Contraction(t, i);
    var n := RunEnd(Blank, t, i);
    if c > 0 then e == i + c
    else if Sees(Lead, t, i) && Sees(Letter, t, i + 1) then e == RunEnd(Letter, t, i + 1)
    else if Sees(Letter, t, i) then e == RunEnd(Letter, t, i)
    else if Sees(Number, t, i) then e == i + 1
    else if Sees(Like(' '), t, i) && Sees(Other, t, i + 1) then e == RunEnd(Break, t, RunEnd(Other, t, i + 1))
    else if Sees(Other, t, i) then e == RunEnd(Break, t, RunEnd(Other, t, i))
    else if Sees(Break, t, n) then e == RunEnd(Break, t, n)
    else n == RunEnd(White, t, i) && e == (if n < |t| && n - i > 1 then n - 1 else n)
  }

  lemma PieceEndsByRuns(t: string, i: nat)
    requires i < |t|
    ensures EndsByRuns(t, i, PieceEnd(t, i))
  {
    hide In, RunEnd, LettersEnd, PunctEnd, NewlinesEnd, BlanksEnd, SpacesEnd, Contraction, IsL, IsD, IsNl;
    SameSets(t, i);
    SameSets(t, i + 1);
    LikeSpace(t, i);
    LettersRun(t, i);
    if i + 1 <= |t| { LettersRun(t, i + 1); SignsRun(t, i + 1); BreaksRun(t, PunctEnd(t, i + 1)); }
    SignsRun(t, i);
    BreaksRun(t, PunctEnd(t, i));
    WhiteRun(t, i);
    BlanksRun(t, i);
    BreaksRun(t, BlanksEnd(t, i));
    SameSets(t, BlanksEnd(t, i));
    OneLineRun(t, i);
    IsSome(t, i);
  }

  lemma IsSome(t: string, i: nat)
    requires i < |t|
    ensures IsL(t, i) || IsD(t, i) || IsSp(t, i) || IsPunct(t, i)
  {}

  /** White space without a line break is blanks. */
  lemma OneLineRun(t: string, i: nat)
    requires i <= |t|
    ensures !Sees(Break, t, RunEnd(Blank, t, i)) ==> RunEnd(White, t, i) == RunEnd(Blank, t, i)
  {
    hide In;
    var n := RunEnd(Blank, t, i);
    forall m { WhiteIs(t, m); }
    assert forall m :: i <= m < n ==> Sees(Blank, t, m);
    if i < n { RunCovers(White, t, i, n - 1); }
  }

  lemma LinesByRuns(t: string, i: nat)
    requires i < |t|
    ensures var n := RunEnd(Blank, t, i);
      First(Ends(Then(Many(Blank), Some(Break)), t, i)) == if Sees(Break, t, n) then RunEnd(Break, t, n) else -1
  {
    hide Ends, EndsBehind;
    var n := RunEnd(Blank, t, i);
    forall j | i <= j < n ensures !Sees(Break, t, j) { assert In(Blank, t[j]); }
    if Sees(Break, t, n) { LinesFirst(Blank, t, i, n); } else { LinesNone(Blank, t, i); }
  }

  /** The first match of the pattern as coded, told by runs. */
  lemma FirstByRuns(t: string, i: nat)
    requires i < |t|
    ensures var e := First(Ends(CODED, t, i)); e >= 0 && EndsByRuns(t, i, e)
  {
    hide Ends, EndsBehind, RunEnd, In, Contraction, AnyCase;
    SevenFirst(Blank, t, i);
    ContractionsFirst(t, i);
    WordFirst(t, i);
    OneEnds(Number, t, i);
    SignsFirst(t, i);
    LinesByRuns(t, i);
    TrailingFirst(t, i);
    SomeEnds(White, t, i);
    OneLineRun(t, i);
    WhiteElse(t, i);
  }

  lemma WhiteElse(t: string, i: nat)
    requires i < |t|
    ensures Sees(Letter, t, i) || Sees(Number, t, i) || Sees(Other, t, i) || RunEnd(White, t, i) > i
  {}

  /** Every piece is exactly the first match of the pattern as coded. */
  lemma PieceIsMatch(t: string, i: nat)
    requires i < |t|
    ensures forall e: nat :: Matches(CODED, t, i, e) <==> e == PieceEnd(t, i)
  {
    hide Ends, RunEnd, PieceEnd, Contraction, In;
    FirstByRuns(t, i);
    PieceEndsByRuns(t, i);
  }

  lemma LikeSpace(t: string, i: nat)
    ensures Sees(Like(' '), t, i) <==> i < |t| && t[i] == ' '
  {}

  // ------------------------------------- where code and stated pattern differ

  /** White space from `i` on in which a line break, a blank and a line break follow. */
  ghost predicate BlankLineAhead(t: string, i: nat) {
    exists j, k, l :: BlankLineAt(t, i, j, k, l)
  }

  ghost predicate BlankLineAt(t: string, i: nat, j: nat, k: nat, l: nat) {
    && i <= j < k < l
    && Sees(Break, t, j) && Sees(Blank, t, k) && Sees(Break, t, l)
    && forall m :: i <= m <= l ==> Sees(White, t, m)
  }

  lemma WhiteIs(t: string, m: nat)
    ensures Sees(White, t, m) <==> Sees(Blank, t, m) || Sees(Break, t, m)
    ensures !(Sees(Blank, t, m) && Sees(Break, t, m))
    ensures Sees(White, t, m) ==> !Sees(Letter, t, m) && !Sees(Number, t, m) && !Sees(Other, t, m)
  {}

  /** The last line break in a run of white space. */
  lemma {:induction false} LastBreak(t: string, i: nat, e: nat) returns (k: nat)
    requires i < e <= |t| && exists m :: i <= m < e && Sees(Break, t, m)
    ensures i <= k < e && Sees(Break, t, k) && forall m :: k < m < e ==> !Sees(Break, t, m)
    decreases e
  {
    hide In;
    if Sees(Break, t, e - 1) { k := e - 1; } else { k := LastBreak(t, i, e - 1); }
  }

  /** The fifth alternative as stated takes all line breaks of a run of white space, as
      coded those on its first line: the same exactly if there is no blank line. */
  lemma LinesDiffer(t: string, i: nat)
    requires i < |t|
    ensures var g := First(Ends(Then(Many(White), Some(Break)), t, i));
      var h := First(Ends(Then(Many(Blank), Some(Break)), t, i));
      (g >= 0 <==> h >= 0) && (g == h <==> !BlankLineAhead(t, i))
  {
    hide Ends, EndsBehind, In, First, BlankLineAt;
    var e, n := RunEnd(White, t, i), RunEnd(Blank, t, i);
    forall m { WhiteIs(t, m); }
    assert forall m :: i <= m < n ==> Sees(Blank, t, m);
    assert forall m :: i <= m < e ==> Sees(White, t, m);
    if Sees(Break, t, n) {
      RunCovers(White, t, i, n);
      var k := LastBreak(t, i, e);
      LinesFirst(White, t, i, k);
      LinesFirst(Blank, t, i, n);
      BreaksOnce(t, k);
      LastLine(t, i, n, e, k);
    } else {
      if i < n { RunCovers(White, t, i, n - 1); }
      assert !Sees(White, t, n);
      LinesNone(White, t, i);
      LinesNone(Blank, t, i);
      NoBreakNoLine(t, i, e);
    }
  }

  /** A run covers what is unbroken from its start. */
  lemma RunCovers(s: ByteSet, t: string, i: nat, k: nat)
    requires i <= k < |t| && forall m :: i <= m <= k ==> Sees(s, t, m)
    ensures k < RunEnd(s, t, i)
  {}

  lemma BreaksOnce(t: string, k: nat)
    requires Sees(Break, t, k) && !Sees(Break, t, k + 1)
    ensures RunEnd(Break, t, k) == k + 1
  {}

  lemma NoBreakNoLine(t: string, i: nat, e: nat)
    requires i <= e <= |t| && !Sees(White, t, e) && forall m :: i <= m < e ==> !Sees(Break, t, m)
    ensures !BlankLineAhead(t, i)
  {
    hide In;
    forall j: nat, k: nat, l: nat ensures !BlankLineAt(t, i, j, k, l) {
      assert BlankLineAt(t, i, j, k, l) && e <= j ==> Sees(White, t, e);
    }
  }

  /** The first line break run of the white space is its last exactly without a blank line. */
  lemma LastLine(t: string, i: nat, n: nat, e: nat, k: nat)
    requires i <= n <= k < e <= |t| && !Sees(White, t, e)
    requires forall m :: i <= m < n ==> Sees(Blank, t, m)
    requires forall m :: i <= m < e ==> Sees(White, t, m)
    requires Sees(Break, t, n) && Sees(Break, t, k) && forall m :: k < m < e ==> !Sees(Break, t, m)
    ensures RunEnd(Break, t, n) == k + 1 <==> !BlankLineAhead(t, i)
  {
    hide In;
    forall m { WhiteIs(t, m); }
    var r := RunEnd(Break, t, n);
    assert forall m :: n <= m < r ==> Sees(Break, t, m);
    if r <= k {
      assert BlankLineAt(t, i, r - 1, r, k);
    } else {
      assert !Sees(Break, t, k + 1);
      forall j: nat, a: nat, l: nat ensures !BlankLineAt(t, i, j, a, l) {
        assert BlankLineAt(t, i, j, a, l) && e <= l ==> Sees(White, t, e);
      }
    }
  }

  /** Ahead of a blank line the first four alternatives do not match. */
  lemma BlankLineIsWhite(t: string, i: nat)
    requires BlankLineAhead(t, i)
    ensures Sees(White, t, i) && Sees(White, t, i + 1)
  {}

  /** A piece is the first match of the stated pattern as well, exactly if no blank line
      holding blanks lies ahead of it. */
  lemma PieceIsStatedExactly(t: string, i: nat)
    requires i < |t|
    ensures Matches(STATED, t, i, PieceEnd(t, i)) <==> !BlankLineAhead(t, i)
  {
    hide Ends, EndsBehind, RunEnd, In, PieceEnd, AnyCase, BlankLineAhead, Contraction;
    SevenFirst(White, t, i);
    SevenFirst(Blank, t, i);
    PieceIsMatch(t, i);
    assert Matches(CODED, t, i, PieceEnd(t, i));
    LinesDiffer(t, i);
    if BlankLineAhead(t, i) {
      BlankLineIsWhite(t, i);
      WhiteIs(t, i);
      WhiteIs(t, i + 1);
      NoContraction(t, i);
      ContractionsFirst(t, i);
      WordFirst(t, i);
      OneEnds(Number, t, i);
      SignsFirst(t, i);
      FifthMatches(t, i);
    }
  }

  lemma NoContraction(t: string, i: nat)
    requires Sees(White, t, i)
    ensures Contraction(t, i) == 0
  {}

  lemma FifthMatches(t: string, i: nat)
    requires i < |t| && BlankLineAhead(t, i)
    ensures First(Ends(Then(Many(Blank), Some(Break)), t, i)) >= 0
  {
    hide Ends, EndsBehind, In, RunEnd;
    LinesDiffer(t, i);
  }

  // ---------------------------------------------------------- whole texts

  /** `ps` cuts the text from `i` on, each piece the first match of `p` at its start. */
  ghost predicate CutBy(p: Pattern, t: string, i: nat, ps: seq<string>)
    decreases |ps|
  {
    if ps == [] then i == |t|
    else
      var e := i + |ps[0]|;
      i < e <= |t| && ps[0] == t[i..e] && Matches(p, t, i, e) && CutBy(p, t, e, ps[1..])
  }

  /** Pretokenisation is cutting by the pattern as coded, and nothing else is. */
  lemma {:induction false} PiecesCutExactly(t: string, i: nat, ps: seq<string>)
    requires i <= |t|
    ensures CutBy(CODED, t, i, ps) <==> ps == Pieces(t, i)
    decreases |t| - i
  {
    hide Ends, PieceEnd, Matches;
    if i < |t| {
      var e := PieceEnd(t, i);
      PieceIsMatch(t, i);
      assert Matches(CODED, t, i, e);
      assert Pieces(t, i) == [t[i..e]] + Pieces(t, e);
      if ps != [] { PiecesCutExactly(t, e, ps[1..]); }
    }
  }

  /** Where the run of line breaks that ends at `j` begins. */
  function BreaksFrom(t: string, j: nat): (b: nat)
    requires Sees(Break, t, j)
    ensures b <= j && (b > 0 ==> !Sees(Break, t, b - 1)) && forall m :: b <= m <= j ==> Sees(Break, t, m)
    decreases j
  {
    if j > 0 && Sees(Break, t, j - 1) then BreaksFrom(t, j - 1) else j
  }

  /** A line of blanks only: line breaks that do not directly follow a sign, at least one
      blank, and a line break again. */
  ghost predicate BlankLine(t: string, j: nat, l: nat) {
    && j + 1 < l
    && Sees(Break, t, j) && Sees(Break, t, l)
    && (forall m :: j < m < l ==> Sees(Blank, t, m))
    && (var b := BreaksFrom(t, j); b > 0 ==> !Sees(Other, t, b - 1))
  }

  ghost predicate HasBlankLine(t: string, i: nat) {
    exists j, l :: BlankLine(t, j, l) && i <= BreaksFrom(t, j)
  }

  /** Pieces never start between the line breaks behind a sign. */
  ghost predicate FreshStart(t: string, i: nat) {
    i > 0 && Sees(Break, t, i) ==> !Sees(Break, t, i - 1) && !Sees(Other, t, i - 1)
  }

  lemma ContractionBytes(t: string, i: nat, m: nat)
    requires i < |t| && i <= m < i + Contraction(t, i)
    ensures !Sees(Break, t, m) && (m > i ==> Sees(Letter, t, m))
  {}

  lemma ClassesApart(t: string, m: nat)
    ensures Sees(Letter, t, m) ==> !Sees(Break, t, m) && !Sees(Other, t, m)
    ensures Sees(Number, t, m) ==> !Sees(Break, t, m) && !Sees(Other, t, m)
    ensures Sees(Other, t, m) || Sees(Lead, t, m) || Sees(Blank, t, m) || Sees(Like(' '), t, m) ==> !Sees(Break, t, m)
  {}

  lemma PieceEndFresh(t: string, i: nat)
    requires i < |t|
    ensures FreshStart(t, PieceEnd(t, i))
  {
    hide In, Contraction, PieceEnd;
    var e := PieceEnd(t, i);
    PieceEndsByRuns(t, i);
    ClassesApart(t, e);
    ClassesApart(t, e - 1);
    forall m { WhiteIs(t, m); }
    var c := Contraction(t, i);
    if c > 0 { ContractionLong(t, i); ContractionBytes(t, i, i + c - 1); }
  }

  lemma ContractionLong(t: string, i: nat)
    requires i < |t| && Contraction(t, i) > 0
    ensures Contraction(t, i) > 1
  {}

  /** Only blanks stand in a piece before a line break that no line break and no sign
      precedes. */
  lemma BreakInPiece(t: string, i: nat, b: nat)
    requires i < |t| && i <= b < PieceEnd(t, i) && Sees(Break, t, b)
    requires b > i ==> !Sees(Break, t, b - 1) && !Sees(Other, t, b - 1)
    ensures forall m :: i <= m < b ==> Sees(Blank, t, m)
  {
    hide In, Contraction, PieceEnd;
    PieceEndsByRuns(t, i);
    ClassesApart(t, b);
    ClassesApart(t, i);
    forall m { WhiteIs(t, m); }
    if b < i + Contraction(t, i) { ContractionBytes(t, i, b); }
  }

  /** A line of blanks that begins in a piece lies ahead of the start of that piece. */
  lemma BlankLineInPiece(t: string, i: nat, j: nat, l: nat)
    requires i < |t| && BlankLine(t, j, l) && i <= BreaksFrom(t, j) < PieceEnd(t, i)
    ensures BlankLineAhead(t, i)
  {
    hide In, PieceEnd;
    var b := BreaksFrom(t, j);
    BreakInPiece(t, i, b);
    forall m { WhiteIs(t, m); }
    assert BlankLineAt(t, i, j, j + 1, l);
  }

  /** What lies ahead of a fresh start is a line of blanks. */
  lemma BlankLineFrom(t: string, i: nat)
    requires i < |t| && FreshStart(t, i) && BlankLineAhead(t, i)
    ensures HasBlankLine(t, i)
  {
    hide In;
    var j0: nat, k: nat, l0: nat :| BlankLineAt(t, i, j0, k, l0);
    forall m { WhiteIs(t, m); }
    var n := RunEnd(Blank, t, i);
    assert n <= j0 by { assert !Sees(Blank, t, j0); }
    assert Sees(Break, t, n);
    var r := RunEnd(Break, t, n);
    assert r <= k by { assert !Sees(Break, t, k); }
    assert Sees(Blank, t, r);
    var l := RunEnd(Blank, t, r);
    assert l <= l0 by { assert !Sees(Blank, t, l0); }
    assert Sees(Break, t, l);
    BreaksFromIs(t, n, r - 1);
    assert BlankLine(t, r - 1, l);
  }

  lemma {:induction false} BreaksFromIs(t: string, n: nat, j: nat)
    requires n <= j && Sees(Break, t, j) && (n > 0 ==> !Sees(Break, t, n - 1)) && forall m :: n <= m <= j ==> Sees(Break, t, m)
    ensures BreaksFrom(t, j) == n
  {
    assert forall m :: BreaksFrom(t, j) <= m <= j ==> Sees(Break, t, m);
  }

  /** From a fresh start on the pieces are those of the stated pattern, exactly if no line
      of blanks is left in the text. */
  lemma {:induction false} StatedFrom(t: string, i: nat)
    requires i <= |t| && FreshStart(t, i)
    ensures CutBy(STATED, t, i, Pieces(t, i)) <==> !HasBlankLine(t, i)
    decreases |t| - i
  {
    hide Ends, PieceEnd, Matches, BlankLineAhead, FreshStart, In, BreaksFrom;
    if i < |t| {
      var e := PieceEnd(t, i);
      PieceIsStatedExactly(t, i);
      PieceEndFresh(t, i);
      StatedFrom(t, e);
      assert Pieces(t, i) == [t[i..e]] + Pieces(t, e);
      if BlankLineAhead(t, i) { BlankLineFrom(t, i); }
      if !HasBlankLine(t, e) && HasBlankLine(t, i) {
        var j, l :| BlankLine(t, j, l) && i <= BreaksFrom(t, j);
        BlankLineInPiece(t, i, j, l);
      }
    }
  }

  /** The code cuts a text as the stated pattern does, exactly if no line of blanks only
      stands in it behind line breaks that do not directly follow a sign. */
  lemma PretokenisedAsStatedExactly(t: string)
    ensures CutBy(STATED, t, 0, Pieces(t, 0)) <==> !HasBlankLine(t, 0)
  {
    StatedFrom(t, 0);
  }

  /** For one, the stated pattern takes the white space of this text in one piece and the
      code takes its first byte. */
  lemma BlankLineIsCut()
    ensures var t := "\n \n"; PieceEnd(t, 0) == 1 && Matches(STATED, t, 0, 3)
  {
    hide Ends, EndsBehind, AnyCase, LettersEnd, PunctEnd, SpacesEnd;
    var t := "\n \n";
    SevenFirst(White, t, 0);
    ContractionsFirst(t, 0);
    WordFirst(t, 0);
    OneEnds(Number, t, 0);
    SignsFirst(t, 0);
    RunCovers(White, t, 0, 2);
    LinesFirst(White, t, 0, 2);
  }
}
