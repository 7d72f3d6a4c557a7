/** The SQL tokenizer of SQLite as an automaton that reads one character at a time. A token is
    emitted when the character after it is seen, or when a closing delimiter completes it.
    White space and comments produce no tokens; NUL ends the input. */
module SqlLexer {
  import opened Basics

  datatype Token =
    | Word(text: string)         // keyword or identifier
    | QuotedName(text: string)   // ".." or `..` or [..]
    | Number(text: string)
    | Str(text: string)          // '..' with doubled quotes
    | Blob(text: string)         // X'..'
    | Placeholder(text: string)  // ? and ?N
    | Variable(text: string)     // :name, @name, #name, $name
    | Op(text: string)
    | Illegal(text: string)

  datatype Kind =
    | Start | Name | LoneX
    | Zero | Int | HexMark | HexInt | Dot | Frac | ExpMark | ExpSign | Exp | BadNumber
    | InQuote | QuoteEnd | Bracket | BlobBody | BadBlob
    | Question | Mark | NamedVar
    | Minus | Arrow | Less | Greater | Equal | Bang | Bar | Slash
    | LineComment | BlockStart | Block | BlockStar
    | Halt

  /** The text read so far belongs to the pending token; comments do not keep theirs. */
  datatype State = State(kind: Kind, text: string)

  const INITIAL := State(Start, "")

  predicate IsSpace(c: char) { c == ' ' || c == '\t' || c == '\n' || c == '\r' || c as int == 12 }

  predicate IsIdStart(c: char) { IsLetter(c) || c == '_' || c as int >= 0x80 }

  predicate IsIdChar(c: char) { IsIdStart(c) || IsDigit(c) || c == '$' }

  predicate IsNul(c: char) { c as int == 0 }

  /** The tokens pending when the input ends, or when the next character belongs elsewhere. */
  function Flush(st: State): seq<Token> {
    match st.kind
    case Start => []
    case Name => [Word(st.text)]
    case LoneX => [Word(st.text)]
    case Zero => [Number(st.text)]
    case Int => [Number(st.text)]
    case HexMark => [Illegal(st.text)]
    case HexInt => [Number(st.text)]
    case Dot => [Op(st.text)]
    case Frac => [Number(st.text)]
    case ExpMark => [Illegal(st.text)]
    case ExpSign =>
      if st.text == "" then [] else [Illegal(st.text[..|st.text| - 1]), Op([st.text[|st.text| - 1]])]
    case Exp => [Number(st.text)]
    case BadNumber => [Illegal(st.text)]
    case InQuote => [Illegal(st.text)]
    case QuoteEnd => [if st.text != "" && st.text[0] == '\'' then Str(st.text) else QuotedName(st.text)]
    case Bracket => [Illegal(st.text)]
    case BlobBody => [Illegal(st.text)]
    case BadBlob => [Illegal(st.text)]
    case Question => [Placeholder(st.text)]
    case Mark => [Illegal(st.text)]
    case NamedVar => [Variable(st.text)]
    case Minus => [Op(st.text)]
    case Arrow => [Op(st.text)]
    case Less => [Op(st.text)]
    case Greater => [Op(st.text)]
    case Equal => [Op(st.text)]
    case Bang => [Illegal(st.text)]
    case Bar => [Op(st.text)]
    case Slash => [Op(st.text)]
    case LineComment => []
    case BlockStart => [Op("/"), Op("*")]
    case Block => []
    case BlockStar => []
    case Halt => []
  }

  /** A fresh token that starts with `c`. */
  function Begin(c: char): (State, seq<Token>) {
    if IsSpace(c) then (INITIAL, [])
    else if c == 'x' || c == 'X' then (State(LoneX, [c]), [])
    else if IsIdStart(c) then (State(Name, [c]), [])
    else if c == '0' then (State(Zero, [c]), [])
    else if IsDigit(c) then (State(Int, [c]), [])
    else if c == '\'' || c == '"' || c == '`' then (State(InQuote, [c]), [])
    else if c == '[' then (State(Bracket, [c]), [])
    else if c == '?' then (State(Question, [c]), [])
    else if c == ':' || c == '@' || c == '#' || c == '$' then (State(Mark, [c]), [])
    else if c == '.' then (State(Dot, [c]), [])
    else if c == '-' then (State(Minus, [c]), [])
    else if c == '<' then (State(Less, [c]), [])
    else if c == '>' then (State(Greater, [c]), [])
    else if c == '=' then (State(Equal, [c]), [])
    else if c == '!' then (State(Bang, [c]), [])
    else if c == '|' then (State(Bar, [c]), [])
    else if c == '/' then (State(Slash, [c]), [])
    else if c in "+*%,();&~" then (INITIAL, [Op([c])])
    else (INITIAL, [Illegal([c])])
  }

  /** How `c` extends the pending token, if it does. */
  function Extend(st: State, c: char): Option<(State, seq<Token>)> {
    var t := st.text + [c];
    match st.kind
    case Start => None
    case Name => if IsIdChar(c) then Some((State(Name, t), [])) else None
    case LoneX =>
      if c == '\'' then Some((State(BlobBody, t), []))
      else if IsIdChar(c) then Some((State(Name, t), [])) else None
    case Zero =>
      if c == 'x' || c == 'X' then Some((State(HexMark, t), [])) else ExtendInt(st, c)
    case Int => ExtendInt(st, c)
    case HexMark =>
      if IsHexDigit(c) then Some((State(HexInt, t), []))
      else if IsIdChar(c) then Some((State(BadNumber, t), [])) else None
    case HexInt => if IsHexDigit(c) then Some((State(HexInt, t), [])) else None
    case Dot => if IsDigit(c) then Some((State(Frac, t), [])) else None
    case Frac =>
      if IsDigit(c) then Some((State(Frac, t), []))
      else if c == 'e' || c == 'E' then Some((State(ExpMark, t), []))
      else if IsIdChar(c) then Some((State(BadNumber, t), [])) else None
    case ExpMark =>
      if IsDigit(c) then Some((State(Exp, t), []))
      else if c == '+' || c == '-' then Some((State(ExpSign, t), []))
      else if IsIdChar(c) then Some((State(BadNumber, t), [])) else None
    case ExpSign =>
      if IsDigit(c) then Some((State(Exp, t), []))
      else if st.text != "" && st.text[|st.text| - 1] == '-' && (c == '-' || c == '>') then
        Some((if c == '-' then State(LineComment, "") else State(Arrow, "->"), [Illegal(st.text[..|st.text| - 1])]))
      else None
    case Exp =>
      if IsDigit(c) then Some((State(Exp, t), []))
      else if IsIdChar(c) then Some((State(BadNumber, t), [])) else None
    case BadNumber => if IsIdChar(c) then Some((State(BadNumber, t), [])) else None
    case InQuote =>
      Some((State(if st.text != "" && c == st.text[0] then QuoteEnd else InQuote, t), []))
    case QuoteEnd => if st.text != "" && c == st.text[0] then Some((State(InQuote, t), [])) else None
    case Bracket => if c == ']' then Some((INITIAL, [QuotedName(t)])) else Some((State(Bracket, t), []))
    case BlobBody =>
      if IsHexDigit(c) then Some((State(BlobBody, t), []))
      else if c == '\'' then Some((INITIAL, [if |t| % 2 == 1 then Blob(t) else Illegal(t)]))
      else Some((State(BadBlob, t), []))
    case BadBlob => if c == '\'' then Some((INITIAL, [Illegal(t)])) else Some((State(BadBlob, t), []))
    case Question => if IsDigit(c) then Some((State(Question, t), [])) else None
    case Mark => if IsIdChar(c) then Some((State(NamedVar, t), [])) else None
    case NamedVar => if IsIdChar(c) then Some((State(NamedVar, t), [])) else None
    case Minus =>
      if c == '-' then Some((State(LineComment, ""), []))
      else if c == '>' then Some((State(Arrow, t), [])) else None
    case Arrow => if c == '>' then Some((INITIAL, [Op(t)])) else None
    case Less => if c == '=' || c == '>' || c == '<' then Some((INITIAL, [Op(t)])) else None
    case Greater => if c == '=' || c == '>' then Some((INITIAL, [Op(t)])) else None
    case Equal => if c == '=' then Some((INITIAL, [Op(t)])) else None
    case Bang => if c == '=' then Some((INITIAL, [Op(t)])) else None
    case Bar => if c == '|' then Some((INITIAL, [Op(t)])) else None
    case Slash => if c == '*' then Some((State(BlockStart, ""), [])) else None
    case LineComment => Some((if c == '\n' then INITIAL else st, []))
    case BlockStart => Some((State(if c == '*' then BlockStar else Block, ""), []))
    case Block => Some((State(if c == '*' then BlockStar else Block, ""), []))
    case BlockStar =>
      Some((if c == '/' then INITIAL else State(if c == '*' then BlockStar else Block, ""), []))
    case Halt => Some((st, []))
  }

  function ExtendInt(st: State, c: char): Option<(State, seq<Token>)> {
    var t := st.text + [c];
    if IsDigit(c) then Some((State(Int, t), []))
    else if c == '.' then Some((State(Frac, t), []))
    else if c == 'e' || c == 'E' then Some((State(ExpMark, t), []))
    else if IsIdChar(c) then Some((State(BadNumber, t), []))
    else None
  }

  function Step(st: State, c: char): (State, seq<Token>) {
    if IsNul(c) then (State(Halt, ""), Flush(st))
    else match Extend(st, c)
      case Some(next) => next
      case None => (Begin(c).0, Flush(st) + Begin(c).1)
  }

  /** The tokens emitted from state `st` to the end of `s`. */
  function Emit(st: State, s: string): seq<Token>
    decreases |s|
  {
    if s == "" then Flush(st)
    else Step(st, s[0]).1 + Emit(Step(st, s[0]).0, s[1..])
  }

  function Tokenize(s: string): seq<Token> { Emit(INITIAL, s) }

  // -------------------------------------------------------------------------
  // Reading in parts
  // -------------------------------------------------------------------------

  lemma EmitCons(st: State, c: char, s: string)
    ensures Emit(st, [c] + s) == Step(st, c).1 + Emit(Step(st, c).0, s)
  {
    assert ([c] + s)[1..] == s;
  }

  lemma StepFresh(st: State, c: char)
    requires !IsNul(c) && Extend(st, c).None?
    ensures Step(st, c) == (Begin(c).0, Flush(st) + Begin(c).1)
    ensures Step(INITIAL, c) == Begin(c)
  {
    assert Flush(INITIAL) + Begin(c).1 == Begin(c).1;
  }

  /** The pending token ends where `s` starts. */
  predicate EndsBefore(st: State, s: string) {
    s != "" ==> IsNul(s[0]) || Extend(st, s[0]).None?
  }

  /** Then `s` is read from a clean start. */
  lemma EmitFresh(st: State, s: string)
    requires EndsBefore(st, s)
    ensures Emit(st, s) == Flush(st) + Emit(INITIAL, s)
  {
    if s != "" && !IsNul(s[0]) {
      StepFresh(st, s[0]);
      Regroup(Flush(st), Begin(s[0]).1, Emit(Begin(s[0]).0, s[1..]));
    }
  }

  /** The state after `s`, and the tokens emitted on the way. */
  function Final(st: State, s: string): State
    decreases |s|
  {
    if s == "" then st else Final(Step(st, s[0]).0, s[1..])
  }

  function Emitted(st: State, s: string): seq<Token>
    decreases |s|
  {
    if s == "" then [] else Step(st, s[0]).1 + Emitted(Step(st, s[0]).0, s[1..])
  }

  lemma {:induction false} EmitAppend(st: State, a: string, b: string)
    ensures Emit(st, a + b) == Emitted(st, a) + Emit(Final(st, a), b)
    decreases |a|
  {
    if a == "" {
      assert "" + b == b;
      assert [] + Emit(st, b) == Emit(st, b);
    } else {
      var (st', tokens) := Step(st, a[0]);
      EmitAppend(st', a[1..], b);
      FirstThen(a, b);
      EmitCons(st, a[0], a[1..] + b);
      Regroup(tokens, Emitted(st', a[1..]), Emit(Final(st', a[1..]), b));
    }
  }
}
