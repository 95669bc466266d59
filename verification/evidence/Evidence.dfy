/** Evidence items, source slicing, spans, and the inputs all walks of one file have in common. */
module Evidence {
  import opened Sequences
  import opened SyntaxTree
  import opened Clock

  /** UTF-8 text. */
  type Text = seq<byte>

  const U32_MAX: nat := 0xFFFF_FFFF

  /** Whether a slice may start or end at `offset`: not inside a code point. */
  predicate IsBoundary(source: Text, offset: nat) {
    offset == 0 || offset == |source| || (offset < |source| && !(0x80 <= source[offset] < 0xC0))
  }

  /** A range that is out of bounds, reversed, or inside a code point. */
  datatype TextRangeError = TextRangeError(start: nat, end: nat)

  function NodeText(source: Text, start: nat, end: nat): Result<Text, TextRangeError> {
    if start <= end <= |source| && IsBoundary(source, start) && IsBoundary(source, end)
    then Ok(source[start..end])
    else Err(TextRangeError(start, end))
  }

  function TextOf(node: Tree, source: Text): Result<Text, TextRangeError> {
    NodeText(source, node.start, node.end)
  }

  predicate Sliceable(node: Tree, source: Text) {
    TextOf(node, source).Ok?
  }

  datatype Position = Position(line: nat, column: nat)

  datatype SpanAvailability =
    | Present(startByte: nat, endByte: nat, start: Position, end: Position)
    | NormalizerUnavailable

  /** The producer an evidence key names. */
  datatype Prefix =
    | StructureKey | ImportKey | ExportKey | CommentKey | DocstringKey | SymbolKey | DiagnosticKey
    | FieldKey | VariableKey | GenericImportKey | CallKey

  /** An evidence key before it is printed. */
  datatype Key = Key(prefix: Prefix, index: nat)

  datatype SymbolKind = FieldSymbol | ConstantSymbol | VariableSymbol

  datatype CallSite = CallSite(
    calleeText: Text, calleeName: Text, caller: Option<Text>, macroCall: bool, qualified: bool)

  datatype Payload =
    | BindingRow(name: Text, symbol: SymbolKind)
    | ImportRow(text: Text, wildcard: bool)
    | CallRow(site: CallSite)
    | PackRow(fields: Text)

  datatype EvidenceItem = EvidenceItem(key: Key, start: nat, end: nat, span: SpanAvailability, payload: Payload)

  /** A call recovered from a macro's token tree; its key is assigned by the walk. */
  datatype MacroRow = MacroRow(start: nat, end: nat, span: SpanAvailability, site: CallSite)

  /** What re-reading one macro's token tree yields when nothing cuts it short. */
  datatype MacroRows = MacroRows(rows: seq<MacroRow>, capped: bool, overflow: bool)

  /** What comes before and after a text that is parsed inside something else. */
  datatype Frame = Frame(prefix: Text, suffix: Text)

  /**
   * The inputs all walks of one file share: its source, the position of each byte, and what
   * the Rust parser makes of a text. `trim` is the library's whitespace trim, and `frame` the
   * function and call that a macro's text is put into before it is parsed.
   */
  datatype WalkInput = WalkInput(
    source: Text,
    position: nat -> Position,
    trim: Text -> Text,
    frame: Frame,
    reparse: Text -> Option<Tree>)

  /**
   * The time one file may take (no budget: as long as it likes) and the clock it is read
   * against, in nanoseconds: `elapsed(k)` is the time at the k-th reading. The others say
   * whether it cancels the language pack's own pass, the walkers' parse, and the re-parse of
   * a text that is given the time left at a reading.
   */
  datatype Deadline = Deadline(
    budget: Option<nat>,
    elapsed: nat -> nat,
    cancelsProcess: bool,
    cancelsParse: bool,
    cancelsReparse: (Text, nat) -> bool)

  /** The clock never runs backwards. */
  ghost predicate Monotone(late: Deadline) {
    forall i: nat, j: nat :: i <= j ==> late.elapsed(i) <= late.elapsed(j)
  }

  /**
   * A parse given what is left at `reading` has used up those whole milliseconds by the next
   * reading, and the budget is one that 64-bit milliseconds can hold.
   */
  predicate UsedUp(late: Deadline, reading: nat) {
    late.budget.Some? ==>
      var left := RemainingMillis(late.budget.value, late.elapsed(reading));
      && late.budget.value / NANOS_PER_MILLI <= U64_MAX
      && (left.Some? ==> late.elapsed(reading) + left.value * NANOS_PER_MILLI <= late.elapsed(reading + 1))
  }

  /** A deadline over a steady clock, which cancels a re-parse only when its time is up. */
  ghost predicate Steady(late: Deadline) {
    late.budget.Some? ==>
      Monotone(late) && forall text, reading :: late.cancelsReparse(text, reading) ==> UsedUp(late, reading)
  }

  predicate Spent(late: Deadline, reading: nat) {
    late.budget.Some? && RemainingMillis(late.budget.value, late.elapsed(reading)).None?
  }

  lemma SpentStaysSpent(late: Deadline, i: nat, j: nat)
    requires Steady(late) && i <= j && Spent(late, i)
    ensures Spent(late, j)
  {
    assert late.elapsed(i) <= late.elapsed(j);
    RemainingMillisSpent(late.budget.value, late.elapsed(i));
    RemainingMillisSpent(late.budget.value, late.elapsed(j));
  }

  /** What a floored millisecond budget leaves over is less than a millisecond. */
  lemma FlooredBudgetIsSpent(budget: nat, before: nat, after: nat)
    requires budget / NANOS_PER_MILLI <= U64_MAX && RemainingMillis(budget, before).Some?
    requires before + RemainingMillis(budget, before).value * NANOS_PER_MILLI <= after
    ensures RemainingMillis(budget, after).None?
  {
    SaturatingMillisIsExact(budget - before);
    RemainingMillisSpent(budget, after);
  }

  /** So what used its time up finds the deadline spent. */
  lemma UsedUpIsSpent(late: Deadline, reading: nat)
    requires late.budget.Some? && UsedUp(late, reading) && !Spent(late, reading)
    ensures Spent(late, reading + 1)
  {
    FlooredBudgetIsSpent(late.budget.value, late.elapsed(reading), late.elapsed(reading + 1));
  }

  function Unbounded(late: Deadline): Deadline {
    late.(budget := None)
  }

  /** Rows past `u32` fail the file's extraction; a reversed span is only unavailable. */
  function RangeSpan(input: WalkInput, start: nat, end: nat, startRow: nat, endRow: nat): Option<SpanAvailability> {
    var from, to := input.position(start), input.position(end);
    if startRow > U32_MAX || endRow > U32_MAX
       || from.line > U32_MAX || from.column > U32_MAX || to.line > U32_MAX || to.column > U32_MAX
    then None
    else Some(CheckedSpan(start, end, Position(startRow, from.column), Position(endRow, to.column)))
  }

  function CheckedSpan(start: nat, end: nat, from: Position, to: Position): SpanAvailability {
    if end < start || to.line < from.line || (to.line == from.line && to.column < from.column)
    then NormalizerUnavailable
    else Present(start, end, from, to)
  }

  function NodeSpan(input: WalkInput, node: Tree): Option<SpanAvailability> {
    RangeSpan(input, node.start, node.end, node.startRow, node.endRow)
  }

  /** Why a walker's parse produced no tree. */
  datatype NoTree = TimedOut | Failed

  /** The deadline of one file, as the walkers consult it. */
  class FileClock {
    const input: WalkInput
    const late: Deadline
    var readings: nat

    constructor (input: WalkInput, late: Deadline, readings: nat)
      ensures this.input == input && this.late == late && this.readings == readings
    {
      this.input := input;
      this.late := late;
      this.readings := readings;
    }

    method DeadlineSpent() returns (spent: bool)
      modifies this
      ensures spent == Spent(late, old(readings)) && readings == old(readings) + 1
    {
      spent := late.budget.Some? && RemainingMillis(late.budget.value, late.elapsed(readings)).None?;
      readings := readings + 1;
    }
  }

  /** Evidence gathered so far, and whether any of it is known to be missing. */
  class Extraction {
    var items: seq<EvidenceItem>
    var truncated: bool
    var timedOut: bool

    constructor ()
      ensures items == [] && !truncated && !timedOut
    {
      items := [];
      truncated := false;
      timedOut := false;
    }

    constructor WithoutTree(why: NoTree)
      ensures items == [] && truncated == why.Failed? && timedOut == why.TimedOut?
    {
      items := [];
      truncated := why.Failed?;
      timedOut := why.TimedOut?;
    }

    /** Takes over the items of `other`; either flag stays up once it is up. */
    method Absorb(other: Extraction)
      requires other != this
      modifies this
      ensures items == old(items) + other.items
      ensures truncated == (old(truncated) || other.truncated)
      ensures timedOut == (old(timedOut) || other.timedOut)
    {
      items := items + other.items;
      truncated := truncated || other.truncated;
      timedOut := timedOut || other.timedOut;
    }
  }
}
