/** The JSON texts of RFC 8259, sections 2 to 7, as concrete syntax trees.

    A tree keeps every byte of the text it stands for, white space included, so
    a text is JSON exactly when some well-formed tree spells it.  Bytes are
    `char` values; section 8.1 (UTF-8) is not part of the definition. */
module Json {

  predicate IsWs(c: char) {
    c == ' ' || c == '\n' || c == '\r' || c == '\t'
  }

  predicate AllWs(s: string) {
    forall i :: 0 <= i < |s| ==> IsWs(s[i])
  }

  predicate IsDigit(c: char) {
    '0' <= c <= '9'
  }

  predicate IsHex(c: char) {
    IsDigit(c) || 'a' <= c <= 'f' || 'A' <= c <= 'F'
  }

  predicate AllDigits(s: string) {
    forall i :: 0 <= i < |s| ==> IsDigit(s[i])
  }

  /** The single bytes that may follow a backslash (section 7), `u` aside. */
  predicate IsEscape(c: char) {
    c == '"' || c == '\\' || c == '/' || c == 'b' || c == 'f' || c == 'n' || c == 'r' || c == 't'
  }

  /** Section 7: what may stand between the two quotes of a string. */
  predicate IsStringBody(s: string) {
    if s == "" then true
    else if s[0] == '\\' then
      |s| >= 2 &&
      if s[1] == 'u' then
        |s| >= 6 && IsHex(s[2]) && IsHex(s[3]) && IsHex(s[4]) && IsHex(s[5]) && IsStringBody(s[6..])
      else IsEscape(s[1]) && IsStringBody(s[2..])
    else s[0] != '"' && s[0] >= ' ' && IsStringBody(s[1..])
  }

  /** Section 6: `[ minus ] int [ frac ] [ exp ]`. */
  datatype Number = Number(minus: string, whole: string, frac: string, exp: string)

  predicate WellFormedNumber(n: Number) {
    && (n.minus == "" || n.minus == "-")
    && (n.whole == "0" || (n.whole != "" && AllDigits(n.whole) && n.whole[0] != '0'))
    && (n.frac == "" || (|n.frac| >= 2 && n.frac[0] == '.' && AllDigits(n.frac[1..])))
    && (n.exp == "" || WellFormedExponent(n.exp))
  }

  predicate WellFormedExponent(e: string) {
    && |e| >= 2
    && (e[0] == 'e' || e[0] == 'E')
    && ((|e| >= 3 && (e[1] == '+' || e[1] == '-') && AllDigits(e[2..])) || AllDigits(e[1..]))
  }

  function NumberText(n: Number): string {
    n.minus + (n.whole + (n.frac + n.exp))
  }

  datatype Value =
    | Word(word: string)
    | String(body: string)
    | Num(number: Number)
    | EmptyArray(gap: string)
    | Array(items: Items)
    | Object(members: Members)

  /** One or more array elements; every element carries the white space around it. */
  datatype Items =
    | LastItem(before: string, value: Value, after: string)
    | MoreItems(before: string, value: Value, after: string, rest: Items)

  datatype Pair = Pair(before: string, key: string, beforeColon: string, afterColon: string,
                       value: Value, after: string)

  /** The inside of an object: nothing but white space, or one or more members. */
  datatype Members =
    | NoMembers(gap: string)
    | Members(list: PairList)

  datatype PairList =
    | LastPair(pair: Pair)
    | MorePairs(pair: Pair, rest: PairList)

  predicate WellFormed(v: Value) {
    match v
    case Word(w) => w == "true" || w == "false" || w == "null"
    case String(b) => IsStringBody(b)
    case Num(n) => WellFormedNumber(n)
    case EmptyArray(gap) => AllWs(gap)
    case Array(items) => WellFormedItems(items)
    case Object(m) => WellFormedMembers(m)
  }

  predicate WellFormedItems(e: Items) {
    && AllWs(e.before)
    && WellFormed(e.value)
    && AllWs(e.after)
    && (e.MoreItems? ==> WellFormedItems(e.rest))
  }

  predicate WellFormedMembers(m: Members) {
    match m
    case NoMembers(gap) => AllWs(gap)
    case Members(list) => WellFormedPairs(list)
  }

  predicate WellFormedPair(p: Pair) {
    && AllWs(p.before)
    && IsStringBody(p.key)
    && AllWs(p.beforeColon)
    && AllWs(p.afterColon)
    && WellFormed(p.value)
    && AllWs(p.after)
  }

  predicate WellFormedPairs(ps: PairList) {
    WellFormedPair(ps.pair) && (ps.MorePairs? ==> WellFormedPairs(ps.rest))
  }

  function Text(v: Value): string {
    match v
    case Word(w) => w
    case String(b) => "\"" + (b + "\"")
    case Num(n) => NumberText(n)
    case EmptyArray(gap) => "[" + (gap + "]")
    case Array(items) => "[" + (ItemsText(items) + "]")
    case Object(m) => "{" + (MembersText(m) + "}")
  }

  function ItemsText(e: Items): string {
    e.before + (Text(e.value) + (e.after + if e.MoreItems? then "," + ItemsText(e.rest) else ""))
  }

  function MembersText(m: Members): string {
    match m
    case NoMembers(gap) => gap
    case Members(list) => PairsText(list)
  }

  function PairText(p: Pair): string {
    p.before + ("\"" + (p.key + ("\"" + (p.beforeColon + (":" + (p.afterColon + (Text(p.value) + p.after)))))))
  }

  function PairsText(ps: PairList): string {
    PairText(ps.pair) + if ps.MorePairs? then "," + PairsText(ps.rest) else ""
  }
}
