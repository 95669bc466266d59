/** A line that a shell's configuration file gets once, however often it is added. */
module ShellPath {
  import opened Sequences
  import opened Texts
  import opened Quoting

  function TrimmedLines(text: string): seq<string> {
    Mapped(Lines(text), line => Trim(line))
  }

  /** What is appended to `existing` for `line`: its own line, on a line of its own. */
  function Addition(existing: string, line: string): string {
    (if existing != "" && existing[|existing| - 1] != '\n' then ['\n'] else []) + (line + ['\n'])
  }

  function Added(existing: string, line: string): string {
    if line in TrimmedLines(existing) then existing else existing + Addition(existing, line)
  }

  /** How an append goes: all of it, or part of it and an error. */
  datatype Append = Appended | Torn(kept: nat)

  method AdditionFor(existing: string, line: string) returns (addition: string)
    ensures addition == Addition(existing, line)
  {
    addition := "";
    if existing != "" && existing[|existing| - 1] != '\n' {
      addition := addition + ['\n'];
    }
    addition := addition + line;
    addition := addition + ['\n'];
  }

  class RcFile {
    /** `None` while the file does not exist. */
    var text: Option<string>

    constructor (text: Option<string>)
      ensures this.text == text
    {
      this.text := text;
    }

    function Text(): string
      reads this
    {
      if text.Some? then text.value else ""
    }

    /** Appends to the file, creating it. */
    method AppendDurably(addition: string, append: Append) returns (ok: bool)
      modifies this
      ensures ok == append.Appended?
      ensures ok ==> Text() == old(Text()) + addition
      ensures old(Text()) <= Text() <= old(Text()) + addition
    {
      ok := append.Appended?;
      var part := if ok || append.kept >= |addition| then addition else addition[..append.kept];
      text := Some(Text() + part);
    }

    /** Adds the line unless it is there; `readable` is whether the file can be read within its cap. */
    method AddToPath(line: string, readable: bool, append: Append) returns (ok: bool)
      modifies this
      ensures ok <==> (old(text).None? || readable) && (line in TrimmedLines(old(Text())) || append.Appended?)
      ensures ok ==> Text() == Added(old(Text()), line)
      ensures old(Text()) <= Text() <= old(Text()) + Addition(old(Text()), line)
    {
      if text.Some? && !readable {
        return false;
      }
      var existing := Text();
      if line in TrimmedLines(existing) {
        return true;
      }
      var addition := AdditionFor(existing, line);
      ok := AppendDurably(addition, append);
    }
  }

  // ----- what a run adds

  /** The pieces between line feeds, without an empty last one. */
  function Pieces(text: string): seq<string> {
    LinePieces(Split(text, '\n'))
  }

  lemma TrimWithoutReturn(line: string)
    requires line != "" && line[|line| - 1] == '\r'
    ensures Trim(line[..|line| - 1]) == Trim(line)
  {
    var front := line[..|line| - 1];
    TrimStartOfFront(front, '\r');
    assert front + ['\r'] == line;
  }

  lemma {:induction false} TrimStartOfFront(front: string, c: char)
    requires IsWhitespace(c)
    ensures TrimEnd(TrimStart(front + [c])) == TrimEnd(TrimStart(front))
    decreases |front|
  {
    if front == "" {
      assert front + [c] == [c] && [c][1..] == "";
    } else if IsWhitespace(front[0]) {
      assert (front + [c])[1..] == front[1..] + [c];
      TrimStartOfFront(front[1..], c);
    } else {
      assert (front + [c])[..|front|] == front;
    }
  }

  lemma ReturnDoesNotShow(line: string)
    ensures Trim(WithoutReturn(line)) == Trim(line)
  {
    if line != "" && line[|line| - 1] == '\r' {
      TrimWithoutReturn(line);
    }
  }

  lemma {:induction false} LineAt(lines: seq<string>, ended: nat, k: nat)
    requires ended <= |lines| && k < |lines|
    ensures |WithoutReturns(lines, ended)| == |lines|
    ensures WithoutReturns(lines, ended)[k] == if k < ended then WithoutReturn(lines[k]) else lines[k]
    decreases |lines|
  {
    if |lines| > 1 {
      LineAt(lines[1..], if ended > 0 then ended - 1 else 0, if k > 0 then k - 1 else 0);
    }
  }

  lemma ReturnsDoNotShow(lines: seq<string>, ended: nat)
    requires ended <= |lines|
    ensures Mapped(WithoutReturns(lines, ended), line => Trim(line)) == Mapped(lines, line => Trim(line))
  {
    if lines != [] {
      LineAt(lines, ended, 0);
    }
    var stripped, whole := Mapped(WithoutReturns(lines, ended), line => Trim(line)), Mapped(lines, line => Trim(line));
    forall k | 0 <= k < |lines| ensures stripped[k] == whole[k] {
      LineAt(lines, ended, k);
      ReturnDoesNotShow(lines[k]);
    }
  }

  lemma TrimmedPieces(text: string)
    ensures TrimmedLines(text) == Mapped(Pieces(text), line => Trim(line))
  {
    ReturnsDoNotShow(Pieces(text), |Split(text, '\n')| - 1);
  }

  /** A text in one piece has no line feed. */
  lemma SplitOnceHolds(text: string)
    requires |Split(text, '\n')| == 1
    ensures '\n' !in text
  {
    JoinSplit(text, '\n');
    SplitPieces(text, '\n');
  }

  lemma {:induction false} LastPiece(text: string)
    ensures Split(text, '\n')[|Split(text, '\n')| - 1] == "" <==> text == "" || text[|text| - 1] == '\n'
    decreases |text|
  {
    if text != "" {
      LastPiece(text[1..]);
      var rest := Split(text[1..], '\n');
      if text[0] == '\n' {
        assert Split(text, '\n')[|rest|] == rest[|rest| - 1];
      } else if |rest| == 1 {
        assert Split(text, '\n')[0] != "";
        SplitOnceHolds(text[1..]);
      } else {
        assert Split(text, '\n')[|rest| - 1] == rest[|rest| - 1];
      }
    }
  }

  /** A text that ends in a line feed has the pieces before it. */
  lemma PiecesOfEnded(front: string)
    ensures Pieces(front + ['\n']) == Split(front, '\n')
  {
    SplitConcat(front, "", '\n');
    assert front + ['\n'] + "" == front + ['\n'];
    assert Split(front + ['\n'], '\n') == Split(front, '\n') + [""];
  }

  lemma PiecesOfAppended(front: string, line: string)
    requires '\n' !in line
    ensures Pieces(front + ['\n'] + (line + ['\n'])) == Split(front, '\n') + [line]
  {
    ConcatAssociative(front + ['\n'], line, ['\n']);
    PiecesOfEnded(front + ['\n'] + line);
    SplitConcat(front, line, '\n');
    SplitOne(line, '\n');
  }

  lemma PiecesOfAddition(existing: string, line: string)
    requires '\n' !in line
    ensures Pieces(existing + Addition(existing, line)) == Pieces(existing) + [line]
  {
    LastPiece(existing);
    if existing == "" {
      PiecesOfEnded(line);
      SplitOne(line, '\n');
      assert existing + Addition(existing, line) == line + ['\n'];
      assert Pieces("") == [];
    } else if existing[|existing| - 1] == '\n' {
      var front := existing[..|existing| - 1];
      assert existing == front + ['\n'];
      PiecesOfEnded(front);
      PiecesOfAppended(front, line);
      assert Addition(existing, line) == line + ['\n'];
    } else {
      PiecesOfAppended(existing, line);
      ConcatAssociative(existing, ['\n'], line + ['\n']);
    }
  }

  lemma MappedConcat<S, T>(a: seq<S>, b: seq<S>, f: S -> T)
    ensures Mapped(a + b, f) == Mapped(a, f) + Mapped(b, f)
  {
  }

  /** An addition only appends, and adds exactly one trimmed line after those there were. */
  lemma AdditionAddsOneLine(existing: string, line: string)
    requires '\n' !in line
    ensures existing <= existing + Addition(existing, line)
    ensures TrimmedLines(existing + Addition(existing, line)) == TrimmedLines(existing) + [Trim(line)]
  {
    TrimmedPieces(existing);
    TrimmedPieces(existing + Addition(existing, line));
    PiecesOfAddition(existing, line);
    MappedConcat(Pieces(existing), [line], l => Trim(l));
    assert Mapped([line], l => Trim(l)) == [Trim(line)];
  }

  lemma LinesAreTrimmed(text: string, k: nat)
    requires k < |TrimmedLines(text)|
    ensures Trim(TrimmedLines(text)[k]) == TrimmedLines(text)[k]
  {
    TrimIsTrimmed(Lines(text)[k]);
    TrimOfTrimmed(TrimmedLines(text)[k]);
  }

  /** A second run changes nothing, for every file there may be, exactly when the line is its own trim. */
  lemma SecondRunIffTrimmed(line: string)
    requires '\n' !in line
    ensures (forall existing :: Added(Added(existing, line), line) == Added(existing, line)) <==> Trim(line) == line
  {
    if Trim(line) == line {
      forall existing ensures Added(Added(existing, line), line) == Added(existing, line) {
        if line !in TrimmedLines(existing) {
          AdditionAddsOneLine(existing, line);
          var lines := TrimmedLines(Added(existing, line));
          assert lines[|lines| - 1] == line;
        }
      }
    } else {
      var once := Added("", line);
      if line in TrimmedLines(once) {
        var k :| 0 <= k < |TrimmedLines(once)| && TrimmedLines(once)[k] == line;
        LinesAreTrimmed(once, k);
      }
      assert |Added(once, line)| > |once|;
    }
  }

  /** One line whose last character is no whitespace. */
  predicate EndsWell(text: string) {
    text != "" && '\n' !in text && !IsWhitespace(text[|text| - 1])
  }

  lemma PrependKeepsEnd(head: string, text: string)
    requires '\n' !in head && EndsWell(text)
    ensures EndsWell(head + text)
  {
  }

  /** The bash and zsh line is its own trim, and one line, for every directory without a line feed. */
  lemma ExportLineIsOneLine(dir: string)
    requires '\n' !in dir
    ensures '\n' !in ExportLine(dir) && Trim(ExportLine(dir)) == ExportLine(dir)
  {
    var expansion := [':', '$'] + (NAME + ['"']);
    var quoted := ['"'] + (DoubleQuoted(dir) + expansion);
    NoNewlineQuoted(dir);
    PrependKeepsEnd(NAME, ['"']);
    PrependKeepsEnd([':', '$'], NAME + ['"']);
    PrependKeepsEnd(DoubleQuoted(dir), expansion);
    PrependKeepsEnd(['"'], DoubleQuoted(dir) + expansion);
    PrependKeepsEnd(ASSIGN, quoted);
    PrependKeepsEnd([' '], ASSIGN + quoted);
    PrependKeepsEnd(EXPORT, [' '] + (ASSIGN + quoted));
    assert EXPORT[0] == 'e' && ExportLine(dir)[0] == 'e';
    TrimOfTrimmed(ExportLine(dir));
  }

  lemma {:induction false} NoNewlineQuoted(value: string)
    requires '\n' !in value
    ensures '\n' !in DoubleQuoted(value)
    decreases |value|
  {
    if value != "" {
      NoNewlineQuoted(value[1..]);
    }
  }
}
