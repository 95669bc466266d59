/** Text operations the repository takes from the standard library. */
module Texts {
  import opened Sequences

  /** Unicode `White_Space`. */
  predicate IsWhitespace(c: char) {
    '\U{0009}' <= c <= '\U{000D}' || c == ' ' || c == '\U{0085}' || c == '\U{00A0}' || c == '\U{1680}'
    || '\U{2000}' <= c <= '\U{200A}' || c == '\U{2028}' || c == '\U{2029}' || c == '\U{202F}'
    || c == '\U{205F}' || c == '\U{3000}'
  }

  function TrimStart(s: string): (r: string)
    ensures r == "" || !IsWhitespace(r[0])
    ensures |r| <= |s| && r == s[|s| - |r|..]
  {
    if s != "" && IsWhitespace(s[0]) then TrimStart(s[1..]) else s
  }

  function TrimEnd(s: string): (r: string)
    ensures r == "" || !IsWhitespace(r[|r| - 1])
    ensures r <= s
  {
    if s != "" && IsWhitespace(s[|s| - 1]) then TrimEnd(s[..|s| - 1]) else s
  }

  function Trim(s: string): string {
    TrimEnd(TrimStart(s))
  }

  /** Whether `s` starts and ends outside whitespace. */
  predicate Trimmed(s: string) {
    s == "" || (!IsWhitespace(s[0]) && !IsWhitespace(s[|s| - 1]))
  }

  lemma TrimOfTrimmed(s: string)
    requires Trimmed(s)
    ensures Trim(s) == s
  {
  }

  lemma TrimIsTrimmed(s: string)
    ensures Trimmed(Trim(s))
  {
    var t := TrimStart(s);
    if TrimEnd(t) != "" {
      assert TrimEnd(t)[0] == t[0];
    }
  }

  /** The pieces of `s` between occurrences of `c`; one piece when there is none. */
  function Split(s: string, c: char): (r: seq<string>)
    ensures |r| > 0
    decreases |s|
  {
    if s == "" then [""]
    else if s[0] == c then [""] + Split(s[1..], c)
    else
      var rest := Split(s[1..], c);
      [[s[0]] + rest[0]] + rest[1..]
  }

  function Join(pieces: seq<string>, c: char): string {
    if pieces == [] then ""
    else if |pieces| == 1 then pieces[0]
    else pieces[0] + [c] + Join(pieces[1..], c)
  }

  lemma {:induction false} JoinSplit(s: string, c: char)
    ensures Join(Split(s, c), c) == s
    decreases |s|
  {
    if s != "" {
      JoinSplit(s[1..], c);
      var rest := Split(s[1..], c);
      if s[0] == c {
        assert Split(s, c)[1..] == rest;
        assert s == [c] + s[1..];
      } else {
        assert Split(s, c)[1..] == rest[1..];
        assert s == [s[0]] + s[1..];
      }
    }
  }

  /** No piece of a split holds the separator. */
  lemma {:induction false} SplitPieces(s: string, c: char)
    ensures forall k :: 0 <= k < |Split(s, c)| ==> c !in Split(s, c)[k]
    decreases |s|
  {
    if s != "" {
      SplitPieces(s[1..], c);
    }
  }

  lemma {:induction false} SplitOne(s: string, c: char)
    requires c !in s
    ensures Split(s, c) == [s]
    decreases |s|
  {
    if s != "" {
      SplitOne(s[1..], c);
      assert [s[0]] + s[1..] == s;
    }
  }

  lemma {:induction false} SplitConcat(a: string, b: string, c: char)
    ensures Split(a + [c] + b, c) == Split(a, c) + Split(b, c)
    decreases |a|
  {
    var s := a + [c] + b;
    if a == "" {
      assert s == [c] + b && s[1..] == b;
    } else {
      assert s[1..] == a[1..] + [c] + b;
      SplitConcat(a[1..], b, c);
      var rest, more := Split(a[1..], c), Split(b, c);
      if a[0] == c {
        ConcatAssociative([""], rest, more);
      } else {
        assert (rest + more)[0] == rest[0] && (rest + more)[1..] == rest[1..] + more;
        ConcatAssociative([[a[0]] + rest[0]], rest[1..], more);
      }
    }
  }

  lemma {:induction false} SplitJoin(pieces: seq<string>, c: char)
    requires pieces != [] && forall k :: 0 <= k < |pieces| ==> c !in pieces[k]
    ensures Split(Join(pieces, c), c) == pieces
    decreases |pieces|
  {
    SplitOne(pieces[0], c);
    if |pieces| > 1 {
      SplitJoin(pieces[1..], c);
      SplitConcat(pieces[0], Join(pieces[1..], c), c);
      assert [pieces[0]] + pieces[1..] == pieces;
    }
  }

  /** The pieces of a text that are lines: all of them, but for a last empty one. */
  function LinePieces(pieces: seq<string>): seq<string>
    requires pieces != []
  {
    if pieces[|pieces| - 1] == "" then pieces[..|pieces| - 1] else pieces
  }

  /** The lines of a text, without their line ends; a last empty line is none. */
  function Lines(text: string): seq<string> {
    var pieces := Split(text, '\n');
    WithoutReturns(LinePieces(pieces), |pieces| - 1)
  }

  /** A line without the carriage return that its line feed took with it. */
  function WithoutReturn(piece: string): string {
    if piece != "" && piece[|piece| - 1] == '\r' then piece[..|piece| - 1] else piece
  }

  /** The first `ended` lines had a line feed: a carriage return before it goes too. */
  function WithoutReturns(lines: seq<string>, ended: nat): seq<string>
    requires ended <= |lines|
    decreases |lines|
  {
    if lines == [] then []
    else [if ended > 0 then WithoutReturn(lines[0]) else lines[0]]
         + WithoutReturns(lines[1..], if ended > 0 then ended - 1 else 0)
  }

  /** Lines with what ends each of them. */
  function Terminated(lines: seq<string>, ends: seq<string>): string
    requires |ends| == |lines|
    decreases |lines|
  {
    if lines == [] then "" else lines[0] + ends[0] + Terminated(lines[1..], ends[1..])
  }

  /** What may end a line: a line feed, with or without a carriage return, or for the last one nothing. */
  predicate CanEnd(line: string, end: string, last: bool) {
    '\n' !in line
    && (end == "\r\n" || (end == "\n" && (line == "" || line[|line| - 1] != '\r')) || (end == "" && last && line != ""))
  }

  predicate AllCanEnd(lines: seq<string>, ends: seq<string>) {
    |ends| == |lines| && forall k :: 0 <= k < |lines| ==> CanEnd(lines[k], ends[k], k == |lines| - 1)
  }

  lemma LastLine(line: string)
    requires '\n' !in line
    ensures Lines(line) == if line == "" then [] else [line]
  {
    SplitOne(line, '\n');
    assert [line][1..] == [] && [line][..0] == [];
    assert WithoutReturns([line], 0) == [line] + WithoutReturns([], 0);
  }

  lemma PieceBefore(piece: string, later: seq<string>)
    requires later != []
    ensures LinePieces([piece] + later) == [piece] + LinePieces(later)
  {
    var pieces := [piece] + later;
    assert pieces[|pieces| - 1] == later[|later| - 1];
    assert pieces[..|pieces| - 1] == [piece] + later[..|later| - 1];
  }

  lemma ReturnsBefore(piece: string, later: seq<string>, ended: nat)
    requires ended <= |later|
    ensures WithoutReturns([piece] + later, ended + 1) == [WithoutReturn(piece)] + WithoutReturns(later, ended)
  {
    assert ([piece] + later)[1..] == later;
  }

  lemma NextLine(line: string, end: string, rest: string)
    requires CanEnd(line, end, false)
    ensures Lines(line + end + rest) == [line] + Lines(rest)
  {
    var piece := if end == "\r\n" then line + ['\r'] else line;
    assert line + end + rest == piece + ['\n'] + rest;
    SplitConcat(piece, rest, '\n');
    SplitOne(piece, '\n');
    var later := Split(rest, '\n');
    PieceBefore(piece, later);
    ReturnsBefore(piece, LinePieces(later), |later| - 1);
    assert end == "\r\n" ==> piece[..|piece| - 1] == line;
  }

  /** The lines of a text are read back, whichever way each of them ends. */
  lemma {:induction false} LinesRead(lines: seq<string>, ends: seq<string>)
    requires AllCanEnd(lines, ends)
    ensures Lines(Terminated(lines, ends)) == lines
    decreases |lines|
  {
    if lines == [] {
      LastLine("");
    } else {
      LinesRead(lines[1..], ends[1..]);
      if ends[0] == "" {
        assert lines[0] + ends[0] + "" == lines[0];
        LastLine(lines[0]);
      } else {
        NextLine(lines[0], ends[0], Terminated(lines[1..], ends[1..]));
      }
    }
  }

  function Digit(d: nat): char
    requires d < 10
  {
    '0' + d as char
  }

  function Decimal(n: nat): string {
    if n < 10 then [Digit(n)] else Decimal(n / 10) + [Digit(n % 10)]
  }

  /** The number a decimal text spells. */
  function NumberOf(text: string): int {
    if text == [] then 0 else NumberOf(text[..|text| - 1]) * 10 + (text[|text| - 1] as int - '0' as int)
  }

  lemma {:induction false} DecimalSpells(n: nat)
    ensures NumberOf(Decimal(n)) == n
  {
    var text := Decimal(n);
    if n < 10 {
      assert text[..0] == [];
    } else {
      DecimalSpells(n / 10);
      assert text[..|text| - 1] == Decimal(n / 10);
    }
  }

  lemma DecimalsDiffer(m: nat, n: nat)
    requires m != n
    ensures Decimal(m) != Decimal(n)
  {
    DecimalSpells(m);
    DecimalSpells(n);
  }

  /** One byte per character, for the characters ASCII has. */
  function Ascii(s: string): (r: Bytes)
    ensures |r| == |s|
    decreases |s|
  {
    if s == "" then [] else [if s[0] < 128 as char then (s[0] as int) as byte else 63] + Ascii(s[1..])
  }
}
