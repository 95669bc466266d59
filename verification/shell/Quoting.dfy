/** Printing words for a POSIX shell, and reading them back. */
module Quoting {
  import opened Sequences
  import opened Words

  /** Characters printed bare. */
  predicate IsBareChar(c: char) {
    'a' <= c <= 'z' || 'A' <= c <= 'Z' || '0' <= c <= '9' || c == '-' || c == '_' || c == '.' || c == ':'
    || c == '=' || c == '@' || c == '%' || c == '+' || c == ',' || c == '/'
  }

  predicate IsBare(arg: string) {
    arg != "" && forall k :: 0 <= k < |arg| ==> IsBareChar(arg[k])
  }

  /** Every quote closes the string, adds an escaped quote, and opens it again. */
  function QuotesEscaped(arg: string): string {
    if arg == "" then ""
    else (if arg[0] == '\'' then ['\'', '\\', '\'', '\''] else [arg[0]]) + QuotesEscaped(arg[1..])
  }

  function ShellQuote(arg: string): string {
    if IsBare(arg) then arg else ['\''] + (QuotesEscaped(arg) + ['\''])
  }

  /** The arguments, quoted, between single spaces. */
  function QuotedArgs(args: seq<string>): string {
    if args == [] then ""
    else if |args| == 1 then ShellQuote(args[0])
    else ShellQuote(args[0]) + ([' '] + QuotedArgs(args[1..]))
  }

  function DisplayCommand(cli: string, args: seq<string>): string {
    cli + ([' '] + QuotedArgs(args))
  }

  // ----- reading a printed command back

  predicate BetweenWords(r: Reader) {
    r.mode.Plain? && r.word.None?
  }

  lemma LiteralSplit(text: string)
    requires text != ""
    ensures Literal(text) == [Lit(text[0])] + Literal(text[1..])
  {
  }

  lemma {:induction false} ReadsBare(r: Reader, text: string)
    requires r.mode.Plain? && r.word.Some?
    requires forall k :: 0 <= k < |text| ==> IsBareChar(text[k])
    ensures ReadAll(r, text) == r.(word := Some(r.word.value + Literal(text)))
    decreases |text|
  {
    if text == "" {
      assert r.word.value + [] == r.word.value;
    } else {
      var next := Read(r, text[0]);
      assert next == r.(word := Some(r.word.value + [Lit(text[0])]));
      ReadsBare(next, text[1..]);
      ConcatAssociative(r.word.value, [Lit(text[0])], Literal(text[1..]));
    }
  }

  lemma ReadsBareWord(r: Reader, text: string)
    requires BetweenWords(r) && IsBare(text)
    ensures ReadAll(r, text) == r.(word := Some(Literal(text)))
  {
    var next := Read(r, text[0]);
    assert IsBareChar(text[0]) && [] + [Lit(text[0])] == [Lit(text[0])];
    assert next == r.(word := Some([Lit(text[0])]));
    ReadsBare(next, text[1..]);
    LiteralSplit(text);
  }

  /** Inside quotes, a closing quote and an escape leave the word as it was, waiting for a character. */
  lemma ReadsClosingAndEscape(r: Reader, rest: string)
    requires r.mode.Single?
    ensures ReadAll(r, ['\''] + (['\\'] + rest)) == ReadAll(r.(mode := Escaped), rest)
  {
    ReadOne(r, '\'', ['\\'] + rest);
    ReadOne(r.(mode := Plain), '\\', rest);
  }

  /** The escaped quote and an opening one add a quote to the word. */
  lemma ReadsQuoteAndOpening(r: Reader, rest: string)
    requires r.mode.Escaped? && r.word.Some?
    ensures ReadAll(r, ['\''] + (['\''] + rest))
         == ReadAll(Reader(Single, Some(r.word.value + [Lit('\'')]), r.tokens), rest)
  {
    var quoted := r.word.value + [Lit('\'')];
    ReadOne(r, '\'', ['\''] + rest);
    ReadOne(Reader(Plain, Some(quoted), r.tokens), '\'', rest);
    assert quoted + [] == quoted;
  }

  /** Closing, an escaped quote and opening again add one quote to the word. */
  lemma ReadsEscapedQuote(r: Reader, rest: string)
    requires r.mode.Single? && r.word.Some?
    ensures ReadAll(r, ['\'', '\\', '\'', '\''] + rest)
         == ReadAll(r.(word := Some(r.word.value + [Lit('\'')])), rest)
  {
    var opening := ['\''] + (['\''] + rest);
    assert ['\'', '\\', '\'', '\''] + rest == ['\''] + (['\\'] + opening);
    ReadsClosingAndEscape(r, opening);
    ReadsQuoteAndOpening(r.(mode := Escaped), rest);
  }

  lemma {:induction false} ReadsEscaped(r: Reader, arg: string)
    requires r.mode.Single? && r.word.Some?
    ensures ReadAll(r, QuotesEscaped(arg)) == r.(word := Some(r.word.value + Literal(arg)))
    decreases |arg|
  {
    if arg == "" {
      assert r.word.value + [] == r.word.value;
    } else {
      var next := r.(word := Some(r.word.value + [Lit(arg[0])]));
      if arg[0] == '\'' {
        ReadsEscapedQuote(r, QuotesEscaped(arg[1..]));
      } else {
        ReadOne(r, arg[0], QuotesEscaped(arg[1..]));
      }
      ReadsEscaped(next, arg[1..]);
      ConcatAssociative(r.word.value, [Lit(arg[0])], Literal(arg[1..]));
    }
  }

  /** A quoted argument reads back as one word of exactly its characters, the empty one included. */
  lemma ReadsQuoted(r: Reader, arg: string)
    requires BetweenWords(r)
    ensures ReadAll(r, ShellQuote(arg)) == r.(word := Some(Literal(arg)))
  {
    if IsBare(arg) {
      ReadsBareWord(r, arg);
    } else {
      ReadOne(r, '\'', QuotesEscaped(arg) + ['\'']);
      var inside := Read(r, '\'');
      assert inside == Reader(Single, Some([]), r.tokens);
      ReadConcat(inside, QuotesEscaped(arg), ['\'']);
      ReadsEscaped(inside, arg);
      var after := inside.(word := Some([] + Literal(arg)));
      ReadOne(after, '\'', []);
      assert [] + Literal(arg) == Literal(arg);
    }
  }

  function WordsOf(args: seq<string>): seq<Token> {
    if args == [] then [] else [Word(Literal(args[0]))] + WordsOf(args[1..])
  }

  /** A space after a word ends it. */
  lemma SpaceEndsWord(r: Reader, rest: string)
    requires r.mode.Plain? && r.word.Some?
    ensures ReadAll(r, [' '] + rest) == ReadAll(Reader(Plain, None, r.tokens + [Word(r.word.value)]), rest)
  {
    ReadOne(r, ' ', rest);
  }

  lemma {:induction false} ReadsArgs(r: Reader, args: seq<string>)
    requires BetweenWords(r)
    ensures var end := ReadAll(r, QuotedArgs(args));
            end.mode.Plain? && Flush(end).tokens == r.tokens + WordsOf(args)
    decreases |args|
  {
    if args == [] {
      assert r.tokens + [] == r.tokens;
    } else if |args| == 1 {
      ReadsQuoted(r, args[0]);
      assert WordsOf(args) == [Word(Literal(args[0]))] + WordsOf([]);
      assert args[1..] == [];
      assert WordsOf(args) == [Word(Literal(args[0]))];
    } else {
      var word := r.(word := Some(Literal(args[0])));
      ReadConcat(r, ShellQuote(args[0]), [' '] + QuotedArgs(args[1..]));
      ReadsQuoted(r, args[0]);
      SpaceEndsWord(word, QuotedArgs(args[1..]));
      var next := Reader(Plain, None, r.tokens + [Word(Literal(args[0]))]);
      ReadsArgs(next, args[1..]);
      ConcatAssociative(r.tokens, [Word(Literal(args[0]))], WordsOf(args[1..]));
    }
  }

  /**
   * A shell that reads the displayed command gets the client's name and then exactly the
   * arguments, whatever characters they hold.
   */
  lemma DisplayReadsBack(cli: string, args: seq<string>)
    requires IsBare(cli)
    ensures Tokens(DisplayCommand(cli, args)) == Some(WordsOf([cli] + args))
  {
    var start := Reader(Plain, None, []);
    ReadConcat(start, cli, [' '] + QuotedArgs(args));
    ReadsBareWord(start, cli);
    var word := start.(word := Some(Literal(cli)));
    SpaceEndsWord(word, QuotedArgs(args));
    var next := Reader(Plain, None, [] + [Word(Literal(cli))]);
    ReadsArgs(next, args);
    assert ([cli] + args)[1..] == args;
    assert next.tokens == [Word(Literal(cli))];
  }

  // ----- the PATH line

  /** One character as it is written between double quotes. */
  function InDouble(c: char): string {
    if EscapableInDouble(c) then ['\\', c] else [c]
  }

  function DoubleQuoted(value: string): string {
    if value == "" then "" else InDouble(value[0]) + DoubleQuoted(value[1..])
  }

  lemma OneMoreQuoted(before: string, value: string)
    requires value != ""
    ensures before + DoubleQuoted(value) == (before + InDouble(value[0])) + DoubleQuoted(value[1..])
  {
    ConcatAssociative(before, InDouble(value[0]), DoubleQuoted(value[1..]));
  }

  /** Builds the same text one character at a time. */
  method EscapeForDouble(value: string) returns (escaped: string)
    ensures escaped == DoubleQuoted(value)
  {
    escaped := "";
    for i := 0 to |value|
      invariant escaped + DoubleQuoted(value[i..]) == DoubleQuoted(value)
    {
      OneMoreQuoted(escaped, value[i..]);
      assert value[i..][1..] == value[i + 1..];
      escaped := PushEscaped(escaped, value[i]);
    }
    assert value[|value|..] == "";
  }

  method PushEscaped(before: string, c: char) returns (escaped: string)
    ensures escaped == before + InDouble(c)
  {
    escaped := before;
    if EscapableInDouble(c) {
      escaped := escaped + ['\\'];
    }
    escaped := escaped + [c];
  }

  const EXPORT: string := "export"
  const ASSIGN: string := "PATH="
  const NAME: string := "PATH"

  /** `export PATH="<dir>:$PATH"` */
  function ExportLine(dir: string): string {
    EXPORT + ([' '] + (ASSIGN + (['"'] + (DoubleQuoted(dir) + ([':', '$'] + (NAME + ['"']))))))
  }

  lemma {:induction false} ReadsInDouble(r: Reader, value: string)
    requires r.mode.Double? && r.word.Some?
    ensures ReadAll(r, DoubleQuoted(value)) == r.(word := Some(r.word.value + Literal(value)))
    decreases |value|
  {
    if value == "" {
      assert r.word.value + [] == r.word.value;
    } else {
      var rest := DoubleQuoted(value[1..]);
      var next := r.(word := Some(r.word.value + [Lit(value[0])]));
      if EscapableInDouble(value[0]) {
        assert ['\\', value[0]] + rest == ['\\'] + ([value[0]] + rest);
        ReadOne(r, '\\', [value[0]] + rest);
        ReadOne(r.(mode := DoubleEscaped), value[0], rest);
      } else {
        ReadOne(r, value[0], rest);
      }
      ReadsInDouble(next, value[1..]);
      ConcatAssociative(r.word.value, [Lit(value[0])], Literal(value[1..]));
    }
  }

  lemma {:induction false} ReadsLettersInDouble(r: Reader, text: string)
    requires r.mode.Double? && r.word.Some?
    requires forall k :: 0 <= k < |text| ==> IsBareChar(text[k])
    ensures ReadAll(r, text) == r.(word := Some(r.word.value + Literal(text)))
    decreases |text|
  {
    if text == "" {
      assert r.word.value + [] == r.word.value;
    } else {
      ReadsLettersInDouble(r.(word := Some(r.word.value + [Lit(text[0])])), text[1..]);
      ConcatAssociative(r.word.value, [Lit(text[0])], Literal(text[1..]));
    }
  }

  /** The value assigned: the directory itself, a colon, and the expansion of `PATH`. */
  function AssignedPieces(dir: string): seq<Piece> {
    Literal(ASSIGN) + Literal(dir) + [Lit(':'), Active('$')] + Literal(NAME)
  }

  lemma ReadsTail(r: Reader)
    requires r.mode.Double? && r.word.Some?
    ensures ReadAll(r, [':', '$'] + (NAME + ['"']))
         == r.(mode := Plain, word := Some(r.word.value + [Lit(':'), Active('$')] + Literal(NAME)))
  {
    var tail := NAME + ['"'];
    assert [':', '$'] + tail == [':'] + (['$'] + tail);
    ReadOne(r, ':', ['$'] + tail);
    var a := r.(word := Some(r.word.value + [Lit(':')]));
    ReadOne(a, '$', tail);
    var b := r.(word := Some(r.word.value + [Lit(':'), Active('$')]));
    assert r.word.value + [Lit(':')] + [Active('$')] == r.word.value + [Lit(':'), Active('$')];
    ReadConcat(b, NAME, ['"']);
    ReadsLettersInDouble(b, NAME);
    ReadOne(b.(word := Some(b.word.value + Literal(NAME))), '"', []);
  }

  lemma ReadsAssignment(r: Reader, dir: string)
    requires BetweenWords(r)
    ensures ReadAll(r, ASSIGN + (['"'] + (DoubleQuoted(dir) + ([':', '$'] + (NAME + ['"'])))))
         == r.(word := Some(AssignedPieces(dir)))
  {
    var tail := [':', '$'] + (NAME + ['"']);
    ReadConcat(r, ASSIGN, ['"'] + (DoubleQuoted(dir) + tail));
    ReadsBareWord(r, ASSIGN);
    var a := r.(word := Some(Literal(ASSIGN)));
    ReadOne(a, '"', DoubleQuoted(dir) + tail);
    var b := a.(mode := Double);
    assert Read(a, '"') == b by {
      assert Literal(ASSIGN) + [] == Literal(ASSIGN);
    }
    ReadConcat(b, DoubleQuoted(dir), tail);
    ReadsInDouble(b, dir);
    ReadsTail(b.(word := Some(Literal(ASSIGN) + Literal(dir))));
  }

  /** bash and zsh read the line as an export of exactly that directory before the old `PATH`. */
  lemma ExportReadsBack(dir: string)
    ensures Tokens(ExportLine(dir)) == Some([Word(Literal(EXPORT)), Word(AssignedPieces(dir))])
  {
    var start := Reader(Plain, None, []);
    var assignment := ASSIGN + (['"'] + (DoubleQuoted(dir) + ([':', '$'] + (NAME + ['"']))));
    ReadConcat(start, EXPORT, [' '] + assignment);
    ReadsBareWord(start, EXPORT);
    SpaceEndsWord(start.(word := Some(Literal(EXPORT))), assignment);
    var next := Reader(Plain, None, [] + [Word(Literal(EXPORT))]);
    ReadsAssignment(next, dir);
    var end := next.(word := Some(AssignedPieces(dir)));
    assert ReadAll(start, ExportLine(dir)) == end;
    assert Flush(end).tokens == [Word(Literal(EXPORT)), Word(AssignedPieces(dir))];
  }
}
