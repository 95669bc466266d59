/** Every evidence key of one file is unique, also once printed. */
module FileKeys {
  import opened Texts
  import opened SyntaxTree
  import opened Evidence
  import opened Walks
  import opened WalkKeys
  import opened Structure
  import opened Extract

  /** Where a producer's items stand in a file. Bindings and imports share a counter, so a rank. */
  function Rank(prefix: Prefix): nat {
    match prefix
    case StructureKey => 0
    case ImportKey => 1
    case ExportKey => 2
    case CommentKey => 3
    case DocstringKey => 4
    case SymbolKey => 5
    case DiagnosticKey => 6
    case FieldKey => 7
    case VariableKey => 7
    case GenericImportKey => 7
    case CallKey => 8
  }

  predicate KeyBefore(a: Key, b: Key) {
    Rank(a.prefix) < Rank(b.prefix) || (Rank(a.prefix) == Rank(b.prefix) && a.index < b.index)
  }

  /** Items of producers ranked from `low` to below `high`, their keys strictly ascending. */
  predicate Ascending(items: seq<EvidenceItem>, low: nat, high: nat) {
    && (forall k :: 0 <= k < |items| ==> low <= Rank(items[k].key.prefix) < high)
    && (forall i, j :: 0 <= i < j < |items| ==> KeyBefore(items[i].key, items[j].key))
  }

  lemma AscendingConcat(a: seq<EvidenceItem>, b: seq<EvidenceItem>, low: nat, mid: nat, high: nat)
    requires Ascending(a, low, mid) && Ascending(b, mid, high) && low <= mid <= high
    ensures Ascending(a + b, low, high)
  {
    forall i, j | 0 <= i < j < |a + b| ensures KeyBefore((a + b)[i].key, (a + b)[j].key) {
      if i < |a| <= j {
        assert Rank(a[i].key.prefix) < mid <= Rank(b[j - |a|].key.prefix);
      }
    }
  }

  lemma NumberedAscends(input: WalkInput, prefix: Prefix, facts: seq<Fact>)
    requires Numbered(input, prefix, facts, 0).Some?
    ensures Ascending(Numbered(input, prefix, facts, 0).value, Rank(prefix), Rank(prefix) + 1)
  {
    NumberedLength(input, prefix, facts, 0);
  }

  predicate RankedFrom(lists: seq<(Prefix, seq<Fact>)>, first: nat) {
    forall i :: 0 <= i < |lists| ==> Rank(lists[i].0) == first + i
  }

  lemma {:induction false} ListsAscend(input: WalkInput, lists: seq<(Prefix, seq<Fact>)>, first: nat)
    requires RankedFrom(lists, first) && ListItems(input, lists).Some?
    ensures Ascending(ListItems(input, lists).value, first, first + |lists|)
    decreases |lists|
  {
    if lists != [] {
      NumberedAscends(input, lists[0].0, lists[0].1);
      assert RankedFrom(lists[1..], first + 1) by {
        assert forall i :: 0 <= i < |lists| - 1 ==> lists[1..][i] == lists[i + 1];
      }
      ListsAscend(input, lists[1..], first + 1);
      AscendingConcat(Numbered(input, lists[0].0, lists[0].1, 0).value, ListItems(input, lists[1..]).value,
                      first, first + 1, first + |lists|);
    }
  }

  lemma PackAscends(input: WalkInput, pack: PackResult)
    requires PackItems(input, pack).Some?
    ensures Ascending(PackItems(input, pack).value, 0, 7)
  {
    NumberedAscends(input, StructureKey, Flattened(pack.structure));
    ListsAscend(input, FlatLists(pack), 1);
    AscendingConcat(Numbered(input, StructureKey, Flattened(pack.structure), 0).value,
                    ListItems(input, FlatLists(pack)).value, 0, 1, 7);
  }

  /** Bindings and then imports under the one counter. */
  lemma SharedAscends(input: WalkInput, late: Deadline, tree: Tree, imports: bool, reading: nat)
    ensures Ascending(SharedRun(input, late, tree, imports, reading).items, 7, 8)
  {
    var sites := PreOrder(Root(tree));
    var bound := WalkOf(BindingWalker, input, late, tree, Fresh(reading));
    WalkGrown(BindingWalker, input, late, sites, Fresh(reading));
    assert Ascending(bound.items, 7, 8);
    if imports && !bound.overflow {
      WalkGrown(ImportWalker, input, late, sites, bound.(stopped := false));
      OneCounter(bound, WalkOf(ImportWalker, input, late, tree, bound.(stopped := false)));
    }
  }

  lemma OneCounter(bound: Run, shared: Run)
    requires Grown(BindingWalker, Fresh(0), bound) && Grown(ImportWalker, bound, shared)
    ensures Ascending(shared.items, 7, 8)
  {
    forall k | 0 <= k < |shared.items| ensures Rank(shared.items[k].key.prefix) == 7 {
      if k < |bound.items| {
        assert shared.items[k] == bound.items[k];
      }
    }
    forall i, j | 0 <= i < j < |shared.items| ensures shared.items[i].key.index < shared.items[j].key.index {
      assert i < |bound.items| ==> shared.items[i] == bound.items[i];
      assert j < |bound.items| ==> shared.items[j] == bound.items[j];
    }
  }

  lemma CallsAscend(input: WalkInput, late: Deadline, tree: Tree, rust: bool, reading: nat)
    ensures Ascending(CallRun(input, late, tree, rust, reading).items, 8, 9)
  {
    if rust {
      WalkGrown(CallWalker, input, late, PreOrder(Root(tree)), Fresh(reading));
    }
  }

  lemma ExtraAscends(file: FileRead, input: WalkInput, late: Deadline, imports: bool, reading: nat)
    requires ExtraEvidence(file, input, late, imports, reading).Some?
    ensures Ascending(ExtraEvidence(file, input, late, imports, reading).value.items, 7, 9)
  {
    var parsed := ParseTree(file, late, reading);
    if parsed.0.Ok? {
      var shared := SharedRun(input, late, parsed.0.value, imports, parsed.1);
      SharedAscends(input, late, parsed.0.value, imports, parsed.1);
      CallsAscend(input, late, parsed.0.value, file.rust, shared.readings);
      AscendingConcat(shared.items, CallRun(input, late, parsed.0.value, file.rust, shared.readings).items, 7, 8, 9);
    }
  }

  /** The keys of one file, cut or not, ascend by producer and then by index. */
  lemma FileKeysAscend(file: FileRead, input: WalkInput, late: Deadline)
    requires FileEvidence(file, input, late).Ok?
    ensures Ascending(FileEvidence(file, input, late).value.items, 0, 9)
  {
    var imports := file.pack.value.imports == [];
    PackAscends(input, file.pack.value);
    ExtraAscends(file, input, late, imports, 1);
    AscendingConcat(PackItems(input, file.pack.value).value,
                    ExtraEvidence(file, input, late, imports, 1).value.items, 0, 7, 9);
  }

  // ----- printing

  function PrefixText(prefix: Prefix): string {
    match prefix
    case StructureKey => "structure"
    case ImportKey => "import"
    case ExportKey => "export"
    case CommentKey => "comment"
    case DocstringKey => "docstring"
    case SymbolKey => "symbol"
    case DiagnosticKey => "diagnostic"
    case FieldKey => "field"
    case VariableKey => "variable"
    case GenericImportKey => "generic_import"
    case CallKey => "call"
  }

  /** The producer a printed prefix names: its length and first letters tell it apart. */
  function PrefixNamed(text: string): Prefix
    requires |text| >= 4
  {
    if |text| == 4 then CallKey
    else if |text| == 5 then FieldKey
    else if |text| == 14 then GenericImportKey
    else if |text| == 8 then VariableKey
    else if |text| == 7 then CommentKey
    else if |text| == 10 then DiagnosticKey
    else if |text| == 9 then (if text[0] == 's' then StructureKey else DocstringKey)
    else if text[0] == 'i' then ImportKey
    else if text[0] == 'e' then ExportKey
    else SymbolKey
  }

  lemma PrefixTextNames(prefix: Prefix)
    ensures |PrefixText(prefix)| >= 4 && PrefixNamed(PrefixText(prefix)) == prefix
  {
  }

  lemma NoColonInPrefix(prefix: Prefix)
    ensures ':' !in PrefixText(prefix)
  {
  }

  function KeyText(key: Key): string {
    PrefixText(key.prefix) + ":" + Decimal(key.index)
  }

  lemma FirstColonSplits(a: string, x: string, b: string, y: string)
    requires ':' !in a && ':' !in b && a + ":" + x == b + ":" + y
    ensures a == b && x == y
  {
    var s, t := a + ":" + x, b + ":" + y;
    assert s[|a|] == ':' && t[|b|] == ':';
    assert |a| == |b|;
    assert s[..|a|] == a && t[..|b|] == b;
    assert s[|a| + 1..] == x && t[|b| + 1..] == y;
  }

  lemma KeyTextInjective(a: Key, b: Key)
    requires KeyText(a) == KeyText(b)
    ensures a == b
  {
    NoColonInPrefix(a.prefix);
    NoColonInPrefix(b.prefix);
    FirstColonSplits(PrefixText(a.prefix), Decimal(a.index), PrefixText(b.prefix), Decimal(b.index));
    PrefixTextNames(a.prefix);
    PrefixTextNames(b.prefix);
    DecimalSpells(a.index);
    DecimalSpells(b.index);
  }

  /** No two items of one file print the same key, however its extraction was cut. */
  lemma FileKeysDistinct(file: FileRead, input: WalkInput, late: Deadline, i: nat, j: nat)
    requires FileEvidence(file, input, late).Ok?
    requires i < j < |FileEvidence(file, input, late).value.items|
    ensures KeyText(FileEvidence(file, input, late).value.items[i].key)
         != KeyText(FileEvidence(file, input, late).value.items[j].key)
  {
    FileKeysAscend(file, input, late);
    var items := FileEvidence(file, input, late).value.items;
    assert KeyBefore(items[i].key, items[j].key);
    if KeyText(items[i].key) == KeyText(items[j].key) {
      KeyTextInjective(items[i].key, items[j].key);
    }
  }
}
