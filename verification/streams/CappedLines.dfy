/** Reading a prompt's answer one line at a time, keeping a bounded part of each. */
module CappedLines {
  import opened Sequences
  import opened Sources

  const MAX_PROMPT_LINE_BYTES: nat := 256
  const NEWLINE: byte := 10

  /** How long the first line of `input` is, its line feed included. */
  function LineLength(input: Bytes): (n: nat)
    ensures n <= |input|
    ensures input != [] ==> n > 0
  {
    if input == [] then 0
    else if input[0] == NEWLINE then 1
    else 1 + LineLength(input[1..])
  }

  function Capped(line: Bytes): Bytes {
    line[..Min(|line|, MAX_PROMPT_LINE_BYTES)]
  }

  /** The first 256 bytes, and all of a shorter line. */
  lemma CappedIs(line: Bytes)
    ensures Capped(line) <= line && |Capped(line)| == if |line| < 256 then |line| else 256
  {
  }

  /** Bytes up to and including a line feed, at most `limit` of them. */
  method TakeUntilNewline(input: Source, limit: nat) returns (bytes: Bytes)
    modifies input
    ensures bytes == old(input.rest)[..Min(LineLength(old(input.rest)), limit)]
    ensures input.rest == old(input.rest)[|bytes|..]
  {
    bytes := [];
    while |bytes| < limit
      invariant |bytes| <= Min(LineLength(old(input.rest)), limit)
      invariant bytes == old(input.rest)[..|bytes|] && input.rest == old(input.rest)[|bytes|..]
      invariant LineLength(old(input.rest)) == |bytes| + LineLength(input.rest)
      invariant NEWLINE !in bytes
    {
      var next := input.ReadByte();
      if next.None? {
        return;
      }
      bytes := bytes + [next.value];
      if next.value == NEWLINE {
        return;
      }
    }
  }

  /** Drops what is left of a line, its line feed included. */
  method SkipUntilNewline(input: Source)
    modifies input
    ensures input.rest == old(input.rest)[LineLength(old(input.rest))..]
  {
    ghost var skipped := 0;
    while true
      invariant skipped <= |old(input.rest)| && input.rest == old(input.rest)[skipped..]
      invariant LineLength(old(input.rest)) == skipped + LineLength(input.rest)
      decreases |input.rest|
    {
      var next := input.ReadByte();
      if next.None? {
        return;
      }
      skipped := skipped + 1;
      if next.value == NEWLINE {
        return;
      }
    }
  }

  /** The next line, cut to its first bytes; all of it is consumed. `None` at the end of input. */
  method ReadCappedLine(input: Source) returns (line: Option<Bytes>)
    modifies input
    ensures line == FirstLine(old(input.rest))
    ensures input.rest == AfterLine(old(input.rest))
  {
    ghost var before := input.rest;
    LineShape(before);
    var bytes := TakeUntilNewline(input, MAX_PROMPT_LINE_BYTES);
    if bytes == [] {
      return None;
    }
    if bytes[|bytes| - 1] != NEWLINE {
      LineLengthAfter(before, |bytes|);
      SkipUntilNewline(input);
    } else {
      assert before[|bytes| - 1] == NEWLINE;
    }
    assert before[..LineLength(before)][..|bytes|] == bytes;
    return Some(bytes);
  }

  // ----- every line of the input

  function FirstLine(input: Bytes): Option<Bytes> {
    if input == [] then None else Some(Capped(input[..LineLength(input)]))
  }

  function AfterLine(input: Bytes): Bytes {
    input[LineLength(input)..]
  }

  /** A line ends at its only line feed, or at the end of the input. */
  lemma {:induction false} LineShape(input: Bytes)
    ensures forall k :: 0 <= k < LineLength(input) - 1 ==> input[k] != NEWLINE
    ensures LineLength(input) < |input| ==> input[LineLength(input) - 1] == NEWLINE
    decreases |input|
  {
    if input != [] && input[0] != NEWLINE {
      LineShape(input[1..]);
    }
  }

  /** Past `n` bytes that hold no line feed the rest of the line is left. */
  lemma {:induction false} LineLengthAfter(input: Bytes, n: nat)
    requires n <= LineLength(input)
    requires n > 0 ==> input[n - 1] != NEWLINE
    ensures LineLength(input) == n + LineLength(input[n..])
    decreases n
  {
    if n > 0 {
      LineShape(input);
      LineLengthAfter(input, n - 1);
      assert input[n - 1..][1..] == input[n..];
    } else {
      assert input[0..] == input;
    }
  }

  /** The input cut after each line feed. */
  function LinesOf(input: Bytes): seq<Bytes>
    decreases |input|
  {
    if input == [] then [] else [input[..LineLength(input)]] + LinesOf(AfterLine(input))
  }

  function Concat(pieces: seq<Bytes>): Bytes {
    if pieces == [] then [] else pieces[0] + Concat(pieces[1..])
  }

  predicate IsLine(line: Bytes) {
    line != [] && forall k :: 0 <= k < |line| - 1 ==> line[k] != 10
  }

  predicate IsEnded(line: Bytes) {
    line != [] && line[|line| - 1] == 10
  }

  /** The lines are the input, partitioned: every one a line, and all but the last ended. */
  lemma {:induction false} LinesPartitionInput(input: Bytes)
    ensures Concat(LinesOf(input)) == input
    ensures forall k :: 0 <= k < |LinesOf(input)| ==> IsLine(LinesOf(input)[k])
    ensures forall k :: 0 <= k < |LinesOf(input)| - 1 ==> IsEnded(LinesOf(input)[k])
    decreases |input|
  {
    if input != [] {
      var first, rest := input[..LineLength(input)], AfterLine(input);
      LineShape(input);
      LinesPartitionInput(rest);
      assert input == first + rest;
      assert LinesOf(input)[1..] == LinesOf(rest);
      assert |LinesOf(rest)| > 0 ==> rest != [];
    }
  }

  /** What is left of the input after `n` reads. */
  function AfterReads(input: Bytes, n: nat): Bytes {
    if n == 0 then input else AfterReads(AfterLine(input), n - 1)
  }

  /** The `n`-th read yields the `n`-th line of the input, cut, and reads past the last yield none. */
  lemma {:induction false} ReadsYieldTheLines(input: Bytes, n: nat)
    ensures FirstLine(AfterReads(input, n))
         == if n < |LinesOf(input)| then Some(Capped(LinesOf(input)[n])) else None
    decreases n
  {
    if n > 0 {
      ReadsYieldTheLines(AfterLine(input), n - 1);
      if input != [] {
        assert LinesOf(input)[1..] == LinesOf(AfterLine(input));
      } else {
        assert AfterLine([]) == [];
      }
    }
  }
}
