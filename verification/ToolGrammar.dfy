/** The byte-level pushdown machine for the body of a <tool_call>, as a function
    from configurations to configurations. */
module ToolGrammar {
  import opened Json

  datatype St =
    | WsObjOpen | KeyOpenQ | KeyName | KeyColon | NameOpenQ | NameVal
    | ArgComma | ArgKeyOpenQ | ArgKey | ArgsColon
    | JValue | JValueReq
    | JStr | JStrEsc | JStrU1 | JStrU2 | JStrU3 | JStrU4
    | JNumMinus | JNumZero | JNumInt | JNumDot | JNumFrac | JNumE | JNumESign | JNumExp
    | JLit
    | JKey | JKeyReq | JKeyStr | JKeyEsc | JKeyU1 | JKeyU2 | JKeyU3 | JKeyU4
    | JKeyColon | JAfterVal
    | ObjClose | Done | Closer | Closed

  const CLOSER := "</tool_call>"
  const NONE: char := ' '

  datatype Config = Config(
    names: seq<string>,
    st: St,
    lit: nat,
    litWord: string,
    namePref: string,
    stack: string,
    dead: bool)
  {
    predicate IsDone() { !dead && (st == Done || st == Closer || st == Closed) }
    predicate IsClosed() { !dead && st == Closed }
    function Top(): char { if stack == "" then NONE else stack[|stack| - 1] }
  }

  function Init(names: seq<string>, litWord: string): Config {
    Config(names, WsObjOpen, 0, litWord, "", "", false)
  }

  /** What one byte does to a configuration; every act names the state it leads to. */
  datatype Act =
    | Goto(s: St)
    | Refuse(s: St)
    | Open(bracket: char, s: St)  // push
    | Shut                        // pop, leaving the object or array
    | Begin(word: string, s: St)   // first byte of a literal word matched
    | Tick(s: St)                 // one more byte of a literal word or key matched
    | Restart(s: St)              // literal progress back to zero
    | NewName(s: St)
    | Grow(c: char)               // one more byte of the tool name

  /** White space stays put; `want` acts; anything else is refused. */
  function Expect(st: St, c: char, want: char, a: Act): Act {
    if IsWs(c) then Goto(st) else if c == want then a else Refuse(st)
  }

  function ValueStart(st: St, top: char, c: char, allowClose: bool): Act {
    if c == '{' then Open('{', JKey)
    else if c == '[' then Open('[', JValue)
    else if c == '"' then Goto(JStr)
    else if c == '-' then Goto(JNumMinus)
    else if c == '0' then Goto(JNumZero)
    else if '1' <= c <= '9' then Goto(JNumInt)
    else if c == 't' then Begin("true", JLit)
    else if c == 'f' then Begin("false", JLit)
    else if c == 'n' then Begin("null", JLit)
    else if allowClose && c == ']' && top == '[' then Shut
    else Refuse(st)
  }

  function AfterVal(top: char, c: char): Act {
    if IsWs(c) then Goto(JAfterVal)
    else if c == ',' then Goto(if top == '{' then JKeyReq else JValueReq)
    else if c == '}' && top == '{' then Shut
    else if c == ']' && top == '[' then Shut
    else Refuse(JAfterVal)
  }

  predicate NumberEnds(c: char) {
    IsWs(c) || c == ',' || c == '}' || c == ']'
  }

  /** A number has no closing byte of its own: a byte that ends it is dispatched
      again as if the value were already over. */
  function NumEnd(st: St, top: char, c: char): Act {
    if NumberEnds(c) then AfterVal(top, c) else Refuse(st)
  }

  function StrBody(st: St, c: char, after: St, esc: St): Act {
    if c == '"' then Goto(after)
    else if c == '\\' then Goto(esc)
    else if c >= ' ' then Goto(st)
    else Refuse(st)
  }

  function EscBody(st: St, c: char, u1: St, str: St): Act {
    if c == 'u' then Goto(u1)
    else if IsEscape(c) then Goto(str)
    else Refuse(st)
  }

  function Hex(st: St, c: char, s: St): Act {
    if IsHex(c) then Goto(s) else Refuse(st)
  }

  function Digit(st: St, c: char, s: St): Act {
    if IsDigit(c) then Goto(s) else Refuse(st)
  }

  /** The part of the table that reads JSON: it looks at the state, the innermost
      open bracket and the byte, and at nothing else. */
  function JsonAct(st: St, top: char, c: char): Act {
    match st
    case JValue =>
      if IsWs(c) then Goto(JValue)
      else if top == NONE then (if c == '{' then Open('{', JKey) else Refuse(JValue))
      else ValueStart(JValue, top, c, true)
    case JValueReq => if IsWs(c) then Goto(JValueReq) else ValueStart(JValueReq, top, c, false)
    case JStr => StrBody(st, c, JAfterVal, JStrEsc)
    case JStrEsc => EscBody(st, c, JStrU1, JStr)
    case JStrU1 => Hex(st, c, JStrU2)
    case JStrU2 => Hex(st, c, JStrU3)
    case JStrU3 => Hex(st, c, JStrU4)
    case JStrU4 => Hex(st, c, JStr)
    case JNumMinus =>
      if c == '0' then Goto(JNumZero) else if '1' <= c <= '9' then Goto(JNumInt) else Refuse(st)
    case JNumZero =>
      if c == '.' then Goto(JNumDot)
      else if c == 'e' || c == 'E' then Goto(JNumE)
      else NumEnd(st, top, c)
    case JNumInt =>
      if IsDigit(c) then Goto(st)
      else if c == '.' then Goto(JNumDot)
      else if c == 'e' || c == 'E' then Goto(JNumE)
      else NumEnd(st, top, c)
    case JNumDot => Digit(st, c, JNumFrac)
    case JNumFrac =>
      if IsDigit(c) then Goto(st)
      else if c == 'e' || c == 'E' then Goto(JNumE)
      else NumEnd(st, top, c)
    case JNumE => if c == '+' || c == '-' then Goto(JNumESign) else Digit(st, c, JNumExp)
    case JNumESign => Digit(st, c, JNumExp)
    case JNumExp => if IsDigit(c) then Goto(st) else NumEnd(st, top, c)
    case JKey => if c == '}' && top == '{' then Shut else Expect(st, c, '"', Goto(JKeyStr))
    case JKeyReq => Expect(st, c, '"', Goto(JKeyStr))
    case JKeyStr => StrBody(st, c, JKeyColon, JKeyEsc)
    case JKeyEsc => EscBody(st, c, JKeyU1, JKeyStr)
    case JKeyU1 => Hex(st, c, JKeyU2)
    case JKeyU2 => Hex(st, c, JKeyU3)
    case JKeyU3 => Hex(st, c, JKeyU4)
    case JKeyU4 => Hex(st, c, JKeyStr)
    case JKeyColon => Expect(st, c, ':', Goto(JValue))
    case JAfterVal => AfterVal(top, c)
    case _ => Refuse(st)
  }

  /** Inside a fixed key: its remaining letters, then the closing quote. */
  function Keyword(st: St, lit: nat, c: char, word: string, s: St): Act {
    if lit < |word| then (if c == word[lit] then Tick(st) else Refuse(st))
    else if c == '"' then Goto(s)
    else Refuse(st)
  }

  /** Inside a literal word that ends by itself. */
  function WordAct(st: St, lit: nat, word: string, c: char, s: St): Act {
    if lit < |word| && c == word[lit] then Tick(if lit + 1 == |word| then s else st) else Refuse(st)
  }

  predicate PrefixOfSome(p: string, names: seq<string>) {
    exists i :: 0 <= i < |names| && p <= names[i]
  }

  function NameAct(names: seq<string>, pref: string, c: char): Act {
    if c == '"' then
      if pref in names then Goto(ArgComma) else Refuse(NameVal)
    else if PrefixOfSome(pref + [c], names) then Grow(c)
    else Refuse(NameVal)
  }

  /** The fixed frame of the call around the arguments, and the literal words. */
  function FrameAct(g: Config, c: char): Act {
    match g.st
    case WsObjOpen => Expect(g.st, c, '{', Goto(KeyOpenQ))
    case KeyOpenQ => Expect(g.st, c, '"', Restart(KeyName))
    case KeyName => Keyword(g.st, g.lit, c, "name", KeyColon)
    case KeyColon => Expect(g.st, c, ':', Goto(NameOpenQ))
    case NameOpenQ => Expect(g.st, c, '"', NewName(NameVal))
    case NameVal => NameAct(g.names, g.namePref, c)
    case ArgComma => Expect(g.st, c, ',', Goto(ArgKeyOpenQ))
    case ArgKeyOpenQ => Expect(g.st, c, '"', Restart(ArgKey))
    case ArgKey => Keyword(g.st, g.lit, c, "arguments", ArgsColon)
    case ArgsColon => Expect(g.st, c, ':', Goto(JValue))
    case JLit => WordAct(g.st, g.lit, g.litWord, c, JAfterVal)
    case ObjClose => Expect(g.st, c, '}', Goto(Done))
    case Done => Expect(g.st, c, '<', Begin(CLOSER, Closer))
    case Closer => WordAct(g.st, g.lit, g.litWord, c, Closed)
    case _ => Goto(g.st)
  }

  predicate FrameState(s: St) {
    match s
    case WsObjOpen | KeyOpenQ | KeyName | KeyColon | NameOpenQ | NameVal => true
    case ArgComma | ArgKeyOpenQ | ArgKey | ArgsColon | JLit => true
    case ObjClose | Done | Closer | Closed => true
    case _ => false
  }

  /** The whole transition table. */
  function Decide(g: Config, c: char): Act {
    if FrameState(g.st) then FrameAct(g, c) else JsonAct(g.st, g.Top(), c)
  }

  function Apply(g: Config, a: Act): Config {
    match a
    case Goto(s) => g.(st := s)
    case Refuse(s) => g.(st := s, dead := true)
    case Open(b, s) => g.(stack := g.stack + [b], st := s)
    case Shut =>
      if g.stack == "" then g
      else
        var rest := g.stack[..|g.stack| - 1];
        g.(stack := rest, st := if rest == "" then ObjClose else JAfterVal)
    case Begin(w, s) => g.(litWord := w, lit := 1, st := s)
    case Tick(s) => g.(lit := g.lit + 1, st := s)
    case Restart(s) => g.(lit := 0, st := s)
    case NewName(s) => g.(namePref := "", st := s)
    case Grow(c) => g.(namePref := g.namePref + [c])
  }

  /** One byte fed to the machine: a refused byte kills it for good. */
  function Advance(g: Config, c: char): Config {
    if g.dead then g else Apply(g, Decide(g, c))
  }

  function Run(g: Config, w: string): Config
    decreases |w|
  {
    if w == "" then g else Run(Advance(g, w[0]), w[1..])
  }

  /** Would every byte of `w` be legal from `g`? */
  predicate TokenOk(g: Config, w: string) {
    w == "" || !Run(g, w).dead
  }

  /** `w` drives `g` into the closed state, and no shorter prefix does. */
  predicate Closes(g: Config, w: string)
    decreases |w|
  {
    if g.IsClosed() then w == "" else w != "" && Closes(Advance(g, w[0]), w[1..])
  }
}
