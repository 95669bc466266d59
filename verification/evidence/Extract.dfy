/** One file's extraction: the language pack's own results, then the walkers under one deadline. */
module Extract {
  import opened Sequences
  import opened SyntaxTree
  import opened Evidence
  import opened Walks
  import opened Walkers
  import opened Structure

  datatype PackResult = PackResult(
    structure: seq<StructureItem>, imports: seq<Fact>, exports: seq<Fact>, comments: seq<Fact>,
    docstrings: seq<Fact>, symbols: seq<Fact>, diagnostics: seq<Fact>)

  /** What the language pack makes of a file when nothing cancels it; `None`: no result, no tree. */
  datatype FileRead = FileRead(rust: bool, pack: Option<PackResult>, parserBuilt: bool, tree: Option<Tree>)

  datatype ExtractError = ParseTimeout | PackFailed | PositionOverflow

  datatype Extracted = Extracted(items: seq<EvidenceItem>, truncated: bool, timedOut: bool)

  // ----- what is extracted

  /** The language pack's flat lists, in the order they are reported. */
  function FlatLists(pack: PackResult): seq<(Prefix, seq<Fact>)> {
    [(ImportKey, pack.imports), (ExportKey, pack.exports), (CommentKey, pack.comments),
     (DocstringKey, pack.docstrings), (SymbolKey, pack.symbols), (DiagnosticKey, pack.diagnostics)]
  }

  /** Each list keyed by index under its own prefix, unless a position overflows. */
  function ListItems(input: WalkInput, lists: seq<(Prefix, seq<Fact>)>): Option<seq<EvidenceItem>>
    decreases |lists|
  {
    if lists == [] then Some([])
    else
      match Numbered(input, lists[0].0, lists[0].1, 0)
      case None => None
      case Some(items) => Appended(items, ListItems(input, lists[1..]))
  }

  function PackItems(input: WalkInput, pack: PackResult): Option<seq<EvidenceItem>> {
    match Numbered(input, StructureKey, Flattened(pack.structure), 0)
    case None => None
    case Some(items) => Appended(items, ListItems(input, FlatLists(pack)))
  }

  /** The walkers' parse from clock reading `reading` on, and the next reading. */
  function ParseTree(file: FileRead, late: Deadline, reading: nat): (Result<Tree, NoTree>, nat) {
    if Spent(late, reading) then (Err(TimedOut), reading + 1)
    else if !file.parserBuilt then (Err(Failed), reading + 1)
    else if file.tree.Some? && !(late.budget.Some? && late.cancelsParse) then (Ok(file.tree.value), reading + 1)
    else (Err(if Spent(late, reading + 1) then TimedOut else Failed), reading + 2)
  }

  function Fresh(readings: nat): Run {
    Run([], false, false, 0, {}, readings, false, false)
  }

  /** The binding walk, then on the same items and counter the import walk when it is wanted. */
  function SharedRun(input: WalkInput, late: Deadline, tree: Tree, imports: bool, reading: nat): Run {
    var bound := WalkOf(BindingWalker, input, late, tree, Fresh(reading));
    if bound.overflow || !imports then bound
    else WalkOf(ImportWalker, input, late, tree, bound.(stopped := false))
  }

  function CallRun(input: WalkInput, late: Deadline, tree: Tree, rust: bool, reading: nat): Run {
    if rust then WalkOf(CallWalker, input, late, tree, Fresh(reading)) else Fresh(reading)
  }

  /** The two runs as one extraction; `None` when either overflowed. */
  function Combined(shared: Run, calls: Run): Option<Extracted> {
    if shared.overflow || calls.overflow then None
    else Some(Extracted(
      shared.items + calls.items, shared.truncated || calls.truncated, shared.timedOut || calls.timedOut))
  }

  function TreeEvidence(input: WalkInput, late: Deadline, tree: Tree, imports: bool, rust: bool, reading: nat): Option<Extracted> {
    var shared := SharedRun(input, late, tree, imports, reading);
    Combined(shared, CallRun(input, late, tree, rust, shared.readings))
  }

  function WithoutTree(why: NoTree): Extracted {
    Extracted([], why.Failed?, why.TimedOut?)
  }

  function ExtraEvidence(file: FileRead, input: WalkInput, late: Deadline, imports: bool, reading: nat): Option<Extracted> {
    var parsed := ParseTree(file, late, reading);
    match parsed.0
    case Err(why) => Some(WithoutTree(why))
    case Ok(tree) => TreeEvidence(input, late, tree, imports, file.rust, parsed.1)
  }

  function WholeFile(packed: Option<seq<EvidenceItem>>, extra: Option<Extracted>): Result<Extracted, ExtractError> {
    if packed.None? || extra.None? then Err(PositionOverflow)
    else Ok(Extracted(packed.value + extra.value.items, extra.value.truncated, extra.value.timedOut))
  }

  /** The evidence of one file read under a deadline. */
  function FileEvidence(file: FileRead, input: WalkInput, late: Deadline): Result<Extracted, ExtractError> {
    if Spent(late, 0) || (late.budget.Some? && late.cancelsProcess) then Err(ParseTimeout)
    else if file.pack.None? then Err(PackFailed)
    else WholeFile(
      PackItems(input, file.pack.value),
      ExtraEvidence(file, input, late, file.pack.value.imports == [], 1))
  }

  // ----- how it is extracted

  ghost function Taken(out: Extraction): Extracted
    reads out
  {
    Extracted(out.items, out.truncated, out.timedOut)
  }

  method ExtractCalls(tree: Tree, rust: bool, clock: FileClock) returns (out: Extraction, overflow: bool)
    modifies clock
    ensures fresh(out)
    ensures var run := CallRun(clock.input, clock.late, tree, rust, old(clock.readings));
            overflow == run.overflow && Taken(out) == Extracted(run.items, run.truncated, run.timedOut)
  {
    out := new Extraction();
    overflow := false;
    if rust {
      var counter, seen;
      ghost var stopped;
      counter, seen, overflow, stopped := WalkCalls(tree, clock, out, 0, {});
    }
  }

  /** The binding and import walkers into one extraction under one counter. */
  method ExtractShared(tree: Tree, imports: bool, clock: FileClock) returns (out: Extraction, overflow: bool)
    modifies clock
    ensures fresh(out)
    ensures var run := SharedRun(clock.input, clock.late, tree, imports, old(clock.readings));
            overflow == run.overflow && Taken(out) == Extracted(run.items, run.truncated, run.timedOut)
            && clock.readings == run.readings
  {
    out := new Extraction();
    var counter;
    ghost var stopped;
    counter, overflow, stopped := WalkBindings(tree, clock, out, 0, {});
    if imports && !overflow {
      counter, overflow, stopped := WalkImports(tree, clock, out, counter, {});
    }
  }

  method ExtractExtraWalkers(file: FileRead, imports: bool, clock: FileClock) returns (out: Extraction, overflow: bool)
    modifies clock
    ensures fresh(out)
    ensures overflow <==> ExtraEvidence(file, clock.input, clock.late, imports, old(clock.readings)).None?
    ensures !overflow ==> Taken(out) == ExtraEvidence(file, clock.input, clock.late, imports, old(clock.readings)).value
  {
    var (parsed, readings) := ParseTree(file, clock.late, clock.readings);
    clock.readings := readings;
    if parsed.Err? {
      out := new Extraction.WithoutTree(parsed.error);
      overflow := false;
      return;
    }
    out, overflow := ExtractShared(parsed.value, imports, clock);
    if overflow {
      return;
    }
    var calls;
    calls, overflow := ExtractCalls(parsed.value, file.rust, clock);
    out.Absorb(calls);
  }

  method AppendStructure(structure: seq<StructureItem>, input: WalkInput, out: Extraction) returns (overflow: bool)
    modifies out`items
    ensures overflow <==> Numbered(input, StructureKey, Flattened(structure), 0).None?
    ensures !overflow ==> out.items == old(out.items) + Numbered(input, StructureKey, Flattened(structure), 0).value
  {
    overflow := false;
    var counter := 0;
    ghost var goal := Appended(out.items, Numbered(input, StructureKey, Flattened(structure), 0));
    for i := 0 to |structure|
      invariant Appended(out.items, Numbered(input, StructureKey, Flattened(structure[i..]), counter)) == goal
    {
      StructureStep(input, structure[i..], counter, out.items);
      assert structure[i..][1..] == structure[i + 1..];
      counter, overflow := FlattenStructure(structure[i], input, out, counter);
      if overflow {
        return;
      }
    }
    assert structure[|structure|..] == [];
  }

  lemma StructureStep(input: WalkInput, left: seq<StructureItem>, counter: nat, before: seq<EvidenceItem>)
    requires left != []
    ensures Appended(before, Numbered(input, StructureKey, Flattened(left), counter)) ==
      match Numbered(input, StructureKey, Flattened([left[0]]), counter)
      case None => None
      case Some(items) =>
        Appended(before + items, Numbered(input, StructureKey, Flattened(left[1..]), counter + |Flattened([left[0]])|))
  {
    var a, b := Flattened([left[0]]), Flattened(left[1..]);
    assert [left[0]] + left[1..] == left;
    FlattenedConcat([left[0]], left[1..]);
    NumberedConcat(input, StructureKey, a, b, counter);
    var first, later := Numbered(input, StructureKey, a, counter), Numbered(input, StructureKey, b, counter + |a|);
    if first.Some? && later.Some? {
      ConcatAssociative(before, first.value, later.value);
    }
  }

  method AppendLists(input: WalkInput, lists: seq<(Prefix, seq<Fact>)>, out: Extraction) returns (overflow: bool)
    modifies out`items
    ensures overflow <==> ListItems(input, lists).None?
    ensures !overflow ==> out.items == old(out.items) + ListItems(input, lists).value
  {
    overflow := false;
    ghost var goal := Appended(out.items, ListItems(input, lists));
    for i := 0 to |lists|
      invariant Appended(out.items, ListItems(input, lists[i..])) == goal
    {
      ListStep(input, lists[i..], out.items);
      assert lists[i..][1..] == lists[i + 1..];
      overflow := AppendNumbered(input, lists[i].0, lists[i].1, out);
      if overflow {
        return;
      }
    }
    assert lists[|lists|..] == [];
  }

  lemma ListStep(input: WalkInput, left: seq<(Prefix, seq<Fact>)>, before: seq<EvidenceItem>)
    requires left != []
    ensures Appended(before, ListItems(input, left)) ==
      match Numbered(input, left[0].0, left[0].1, 0)
      case None => None
      case Some(items) => Appended(before + items, ListItems(input, left[1..]))
  {
    var first, later := Numbered(input, left[0].0, left[0].1, 0), ListItems(input, left[1..]);
    if first.Some? && later.Some? {
      ConcatAssociative(before, first.value, later.value);
    }
  }

  method AppendPack(pack: PackResult, input: WalkInput, out: Extraction) returns (overflow: bool)
    requires out.items == []
    modifies out`items
    ensures overflow <==> PackItems(input, pack).None?
    ensures !overflow ==> out.items == PackItems(input, pack).value
  {
    overflow := AppendStructure(pack.structure, input, out);
    if !overflow {
      overflow := AppendLists(input, FlatLists(pack), out);
    }
  }

  /** The whole extraction; `error` says why a file yields none. */
  method ExtractWithin(file: FileRead, input: WalkInput, late: Deadline)
    returns (extraction: Extraction, error: Option<ExtractError>)
    ensures match FileEvidence(file, input, late)
            case Err(why) => error == Some(why)
            case Ok(evidence) => error.None? && Taken(extraction) == evidence
  {
    var clock := new FileClock(input, late, 0);
    extraction := new Extraction();
    var spent := clock.DeadlineSpent();
    if spent || (late.budget.Some? && late.cancelsProcess) {
      return extraction, Some(ParseTimeout);
    }
    match file.pack {
      case None =>
        return extraction, Some(PackFailed);
      case Some(pack) =>
        var overflow := AppendPack(pack, input, extraction);
        if overflow {
          return extraction, Some(PositionOverflow);
        }
        var extra;
        extra, overflow := ExtractExtraWalkers(file, pack.imports == [], clock);
        if overflow {
          return extraction, Some(PositionOverflow);
        }
        extraction.Absorb(extra);
        error := None;
    }
  }
}
