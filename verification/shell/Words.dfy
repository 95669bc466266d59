/**
 * How a POSIX shell reads a command line: token recognition and quote removal (IEEE Std
 * 1003.1, Shell Command Language, sections 2.2 and 2.3).
 */
module Words {
  import opened Sequences

  /** A character that stands for itself, or one the shell acts on. */
  datatype Piece = Lit(c: char) | Active(c: char)

  datatype Token = Word(pieces: seq<Piece>) | Operator(c: char)

  datatype Mode = Plain | Escaped | Single | Double | DoubleEscaped | Comment

  /** A reader between characters: the word it is in, if any, and the tokens before it. */
  datatype Reader = Reader(mode: Mode, word: Option<seq<Piece>>, tokens: seq<Token>)

  predicate IsBlank(c: char) {
    c == ' ' || c == '\t'
  }

  predicate IsOperator(c: char) {
    c == '|' || c == '&' || c == ';' || c == '<' || c == '>' || c == '(' || c == ')' || c == '\n'
  }

  /** Characters that expand or match when nothing quotes them. */
  predicate IsActive(c: char) {
    c == '$' || c == '`' || c == '*' || c == '?' || c == '[' || c == ']' || c == '~'
  }

  /** What a backslash still escapes inside double quotes. */
  predicate EscapableInDouble(c: char) {
    c == '$' || c == '`' || c == '"' || c == '\\'
  }

  function Started(word: Option<seq<Piece>>): seq<Piece> {
    if word.Some? then word.value else []
  }

  function Take(r: Reader, mode: Mode, pieces: seq<Piece>): Reader {
    Reader(mode, Some(Started(r.word) + pieces), r.tokens)
  }

  function Flush(r: Reader): Reader {
    if r.word.None? then Reader(Plain, None, r.tokens) else Reader(Plain, None, r.tokens + [Word(r.word.value)])
  }

  function ReadPlain(r: Reader, c: char): Reader {
    if IsBlank(c) then Flush(r)
    else if IsOperator(c) then Flush(r).(tokens := Flush(r).tokens + [Operator(c)])
    else if c == '\'' then Take(r, Single, [])
    else if c == '"' then Take(r, Double, [])
    else if c == '\\' then r.(mode := Escaped)
    else if c == '#' && r.word.None? then r.(mode := Comment)
    else Take(r, Plain, [if IsActive(c) then Active(c) else Lit(c)])
  }

  function Read(r: Reader, c: char): Reader {
    match r.mode
    case Plain => ReadPlain(r, c)
    case Escaped => if c == '\n' then r.(mode := Plain) else Take(r, Plain, [Lit(c)])
    case Single => if c == '\'' then r.(mode := Plain) else Take(r, Single, [Lit(c)])
    case Double =>
      if c == '"' then r.(mode := Plain)
      else if c == '\\' then r.(mode := DoubleEscaped)
      else Take(r, Double, [if c == '$' || c == '`' then Active(c) else Lit(c)])
    case DoubleEscaped =>
      if c == '\n' then r.(mode := Double)
      else Take(r, Double, if EscapableInDouble(c) then [Lit(c)] else [Lit('\\'), Lit(c)])
    case Comment => if c == '\n' then ReadPlain(r.(mode := Plain), c) else r
  }

  function ReadAll(r: Reader, text: string): Reader
    decreases |text|
  {
    if text == "" then r else ReadAll(Read(r, text[0]), text[1..])
  }

  /** The tokens of a whole line; `None` while a quote or an escape is open. */
  function Tokens(line: string): Option<seq<Token>> {
    var r := ReadAll(Reader(Plain, None, []), line);
    if r.mode.Plain? || r.mode.Comment? then Some(Flush(r).tokens) else None
  }

  /** A text with nothing in it for the shell to act on. */
  function Literal(text: string): (r: seq<Piece>)
    ensures |r| == |text|
    ensures forall k :: 0 <= k < |text| ==> r[k] == Lit(text[k])
  {
    if text == "" then [] else [Lit(text[0])] + Literal(text[1..])
  }

  lemma {:induction false} ReadConcat(r: Reader, a: string, b: string)
    ensures ReadAll(r, a + b) == ReadAll(ReadAll(r, a), b)
    decreases |a|
  {
    if a == "" {
      assert a + b == b;
    } else {
      assert (a + b)[1..] == a[1..] + b;
      ReadConcat(Read(r, a[0]), a[1..], b);
    }
  }

  /** One character at a time. */
  lemma ReadOne(r: Reader, c: char, rest: string)
    ensures ReadAll(r, [c] + rest) == ReadAll(Read(r, c), rest)
  {
    assert ([c] + rest)[1..] == rest;
  }
}
