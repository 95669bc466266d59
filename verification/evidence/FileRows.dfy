/** What a whole file yields: which of its lists come under which keys, and which walkers' rows follow. */
module FileRows {
  import opened Sequences
  import opened SyntaxTree
  import opened Evidence
  import opened Spans
  import opened Structure
  import opened Walks
  import opened WalkFacts
  import opened WalkTheorems
  import opened Extract

  // ----- the language pack's lists

  /** The list a producer reports; a file's structure is listed in pre-order. */
  function Reported(pack: PackResult, prefix: Prefix): seq<Fact> {
    match prefix
    case StructureKey => Flattened(pack.structure)
    case ImportKey => pack.imports
    case ExportKey => pack.exports
    case CommentKey => pack.comments
    case DocstringKey => pack.docstrings
    case SymbolKey => pack.symbols
    case DiagnosticKey => pack.diagnostics
    case _ => []
  }

  /** An item for the `k`-th fact of a list: its index as key, its range, its span and its fields. */
  predicate IsFactItem(input: WalkInput, prefix: Prefix, k: nat, fact: Fact, item: EvidenceItem) {
    && item.key == Key(prefix, k) && item.start == fact.start && item.end == fact.end && item.payload == PackRow(fact.fields)
    && IsSpan(fact.start, fact.end, Position(fact.startRow, input.position(fact.start).column),
              Position(fact.endRow, input.position(fact.end).column), item.span)
  }

  predicate AreFactItems(input: WalkInput, prefix: Prefix, facts: seq<Fact>, first: nat, items: seq<EvidenceItem>) {
    && |items| == |facts|
    && forall k :: 0 <= k < |items| ==> IsFactItem(input, prefix, first + k, facts[k], items[k])
  }

  lemma {:induction false} NumberedAre(input: WalkInput, prefix: Prefix, facts: seq<Fact>, first: nat)
    requires Numbered(input, prefix, facts, first).Some?
    ensures AreFactItems(input, prefix, facts, first, Numbered(input, prefix, facts, first).value)
    decreases |facts|
  {
    if facts != [] {
      var items, later := Numbered(input, prefix, facts, first).value, Numbered(input, prefix, facts[1..], first + 1).value;
      NumberedAre(input, prefix, facts[1..], first + 1);
      RangeSpanIs(input, facts[0].start, facts[0].end, facts[0].startRow, facts[0].endRow);
      forall k | 0 <= k < |items| ensures IsFactItem(input, prefix, first + k, facts[k], items[k]) {
        if k > 0 {
          assert IsFactItem(input, prefix, first + 1 + (k - 1), facts[1..][k - 1], later[k - 1]);
        }
      }
    }
  }

  /** The items under one producer's keys, in order. */
  function Under(items: seq<EvidenceItem>, prefix: Prefix): seq<EvidenceItem> {
    if items == [] then []
    else (if items[0].key.prefix == prefix then [items[0]] else []) + Under(items[1..], prefix)
  }

  lemma {:induction false} UnderConcat(a: seq<EvidenceItem>, b: seq<EvidenceItem>, prefix: Prefix)
    ensures Under(a + b, prefix) == Under(a, prefix) + Under(b, prefix)
    decreases |a|
  {
    if a == [] {
      assert a + b == b;
    } else {
      UnderConcat(a[1..], b, prefix);
      assert (a + b)[1..] == a[1..] + b;
      ConcatAssociative(if a[0].key.prefix == prefix then [a[0]] else [], Under(a[1..], prefix), Under(b, prefix));
    }
  }

  lemma {:induction false} UnderOwn(items: seq<EvidenceItem>, own: Prefix, prefix: Prefix)
    requires forall k :: 0 <= k < |items| ==> items[k].key.prefix == own
    ensures Under(items, prefix) == if own == prefix then items else []
    decreases |items|
  {
    if items != [] {
      UnderOwn(items[1..], own, prefix);
    }
  }

  lemma UnderNumbered(input: WalkInput, own: Prefix, facts: seq<Fact>, rest: seq<EvidenceItem>, prefix: Prefix)
    requires Numbered(input, own, facts, 0).Some?
    ensures var items := Numbered(input, own, facts, 0).value;
            Under(items + rest, prefix) == (if own == prefix then items else []) + Under(rest, prefix)
  {
    var items := Numbered(input, own, facts, 0).value;
    NumberedAre(input, own, facts, 0);
    forall k | 0 <= k < |items| ensures items[k].key.prefix == own {
      assert IsFactItem(input, own, 0 + k, facts[k], items[k]);
    }
    UnderOwn(items, own, prefix);
    UnderConcat(items, rest, prefix);
  }

  predicate IsListed(lists: seq<(Prefix, seq<Fact>)>, prefix: Prefix) {
    lists != [] && (lists[0].0 == prefix || IsListed(lists[1..], prefix))
  }

  /** The lists are under distinct prefixes, and hold what is reported there. */
  predicate ReportedLists(pack: PackResult, lists: seq<(Prefix, seq<Fact>)>) {
    lists == [] ||
    (lists[0].1 == Reported(pack, lists[0].0) && !IsListed(lists[1..], lists[0].0) && ReportedLists(pack, lists[1..]))
  }

  lemma {:induction false} UnderLists(input: WalkInput, pack: PackResult, lists: seq<(Prefix, seq<Fact>)>, prefix: Prefix)
    requires ReportedLists(pack, lists) && ListItems(input, lists).Some?
    ensures var items := Under(ListItems(input, lists).value, prefix);
            if IsListed(lists, prefix) then Some(items) == Numbered(input, prefix, Reported(pack, prefix), 0) else items == []
    decreases |lists|
  {
    if lists != [] {
      var rest := lists[1..];
      UnderLists(input, pack, rest, prefix);
      UnderNumbered(input, lists[0].0, lists[0].1, ListItems(input, rest).value, prefix);
      if lists[0].0 == prefix {
        var own := Numbered(input, prefix, lists[0].1, 0).value;
        assert own + [] == own;
      } else {
        var later := Under(ListItems(input, rest).value, prefix);
        assert [] + later == later;
      }
    }
  }

  lemma FlatListsAre(pack: PackResult, prefix: Prefix)
    ensures ReportedLists(pack, FlatLists(pack))
    ensures IsListed(FlatLists(pack), prefix) <==>
              prefix in {ImportKey, ExportKey, CommentKey, DocstringKey, SymbolKey, DiagnosticKey}
  {
    var diagnostics := [(DiagnosticKey, pack.diagnostics)];
    var symbols := [(SymbolKey, pack.symbols)] + diagnostics;
    var docstrings := [(DocstringKey, pack.docstrings)] + symbols;
    var comments := [(CommentKey, pack.comments)] + docstrings;
    var exports := [(ExportKey, pack.exports)] + comments;
    assert diagnostics == [(DiagnosticKey, pack.diagnostics)] + [];
    ListedFirst(pack, DiagnosticKey, [], diagnostics);
    ListedFirst(pack, SymbolKey, diagnostics, symbols);
    ListedFirst(pack, DocstringKey, symbols, docstrings);
    ListedFirst(pack, CommentKey, docstrings, comments);
    ListedFirst(pack, ExportKey, comments, exports);
    ListedFirst(pack, ImportKey, exports, FlatLists(pack));
  }

  lemma ListedFirst(pack: PackResult, own: Prefix, rest: seq<(Prefix, seq<Fact>)>, lists: seq<(Prefix, seq<Fact>)>)
    requires lists == [(own, Reported(pack, own))] + rest
    ensures ReportedLists(pack, lists) <==> !IsListed(rest, own) && ReportedLists(pack, rest)
    ensures forall prefix :: IsListed(lists, prefix) <==> own == prefix || IsListed(rest, prefix)
  {
    assert lists[1..] == rest;
  }

  lemma UnderFlat(input: WalkInput, pack: PackResult, prefix: Prefix)
    requires ListItems(input, FlatLists(pack)).Some?
    ensures var items := Under(ListItems(input, FlatLists(pack)).value, prefix);
            if prefix == StructureKey then items == [] else AreFactItems(input, prefix, Reported(pack, prefix), 0, items)
  {
    FlatListsAre(pack, prefix);
    UnderLists(input, pack, FlatLists(pack), prefix);
    if prefix in {ImportKey, ExportKey, CommentKey, DocstringKey, SymbolKey, DiagnosticKey} {
      NumberedAre(input, prefix, Reported(pack, prefix), 0);
    }
  }

  /** Of what the language pack reports, each list and nothing else comes under its own keys. */
  lemma PackUnder(input: WalkInput, pack: PackResult, prefix: Prefix)
    requires PackItems(input, pack).Some?
    ensures AreFactItems(input, prefix, Reported(pack, prefix), 0, Under(PackItems(input, pack).value, prefix))
  {
    var structure := Numbered(input, StructureKey, Flattened(pack.structure), 0).value;
    var flat := ListItems(input, FlatLists(pack)).value;
    assert PackItems(input, pack).value == structure + flat;
    UnderNumbered(input, StructureKey, Flattened(pack.structure), flat, prefix);
    UnderFlat(input, pack, prefix);
    if prefix == StructureKey {
      NumberedAre(input, prefix, Flattened(pack.structure), 0);
      assert structure + [] == structure;
    } else {
      assert [] + Under(flat, prefix) == Under(flat, prefix);
    }
  }

  /** The structure is listed in pre-order: a declaration, then what is in it, then what follows it. */
  lemma ListedInPreOrder(item: StructureItem, later: seq<StructureItem>)
    ensures Flattened([item] + later) == [item.fact] + Flattened(item.children) + Flattened(later)
  {
    assert ([item] + later)[1..] == later;
  }

  // ----- the walkers

  /** The rows of the walkers: bindings, imports if the language pack found none, and the calls of a Rust file. */
  function TreeRows(input: WalkInput, tree: Tree, imports: bool, rust: bool): seq<Row> {
    var sites := PreOrder(Root(tree));
    AllOffers(BindingWalker, input, sites)
    + (if imports then ImportRows(input, sites) else [])
    + (if rust then FirstPerRange(AllOffers(CallWalker, input, sites), {}) else [])
  }

  lemma {:induction false} RowsOfConcat(a: seq<EvidenceItem>, b: seq<EvidenceItem>)
    ensures RowsOf(a + b) == RowsOf(a) + RowsOf(b)
    decreases |b|
  {
    if b == [] {
      assert a + b == a;
    } else {
      var front, last := b[..|b| - 1], b[|b| - 1];
      RowsOfConcat(a, front);
      assert a + b == (a + front) + [last];
      RowsOfPush(a + front, last);
    }
  }

  lemma SharedRows(input: WalkInput, late: Deadline, tree: Tree, imports: bool, reading: nat)
    requires late.budget.None? && !SharedRun(input, late, tree, imports, reading).overflow
    ensures RowsOf(SharedRun(input, late, tree, imports, reading).items)
         == AllOffers(BindingWalker, input, PreOrder(Root(tree)))
          + (if imports then ImportRows(input, PreOrder(Root(tree))) else [])
  {
    var sites := PreOrder(Root(tree));
    var bound := WalkOf(BindingWalker, input, late, tree, Fresh(reading));
    CompleteWalk(BindingWalker, input, late, sites, Fresh(reading));
    assert RowsOf([]) + AllOffers(BindingWalker, input, sites) == AllOffers(BindingWalker, input, sites);
    if imports {
      CompleteWalk(ImportWalker, input, late, sites, bound.(stopped := false));
      ImportOffersAreWhole(input, sites);
    } else {
      assert RowsOf(bound.items) + [] == RowsOf(bound.items);
    }
  }

  lemma CallRows(input: WalkInput, late: Deadline, tree: Tree, rust: bool, reading: nat)
    requires late.budget.None? && !CallRun(input, late, tree, rust, reading).overflow
    ensures RowsOf(CallRun(input, late, tree, rust, reading).items)
         == if rust then FirstPerRange(AllOffers(CallWalker, input, PreOrder(Root(tree))), {}) else []
  {
    var sites := PreOrder(Root(tree));
    if rust {
      CompleteWalk(CallWalker, input, late, sites, Fresh(reading));
      var rows := FirstPerRange(AllOffers(CallWalker, input, sites), {});
      assert RowsOf([]) + rows == rows;
    }
  }

  lemma TreeEvidenceRows(input: WalkInput, late: Deadline, tree: Tree, imports: bool, rust: bool, reading: nat)
    requires late.budget.None? && TreeEvidence(input, late, tree, imports, rust, reading).Some?
    ensures RowsOf(TreeEvidence(input, late, tree, imports, rust, reading).value.items) == TreeRows(input, tree, imports, rust)
  {
    var shared := SharedRun(input, late, tree, imports, reading);
    SharedRows(input, late, tree, imports, reading);
    CallRows(input, late, tree, rust, shared.readings);
    RowsOfConcat(shared.items, CallRun(input, late, tree, rust, shared.readings).items);
  }

  /**
   * With no deadline a file yields the language pack's items and after them the walkers'
   * rows; import rows only where the language pack found no import, call rows only in Rust.
   * A file that no walker can parse keeps the language pack's items and is truncated.
   */
  lemma FileYields(file: FileRead, input: WalkInput, late: Deadline)
    requires late.budget.None? && FileEvidence(file, input, late).Ok?
    ensures file.pack.Some? && PackItems(input, file.pack.value).Some?
    ensures var all, packed := FileEvidence(file, input, late).value, PackItems(input, file.pack.value).value;
            && packed <= all.items && !all.timedOut
            && RowsOf(all.items[|packed|..]) ==
                 (if file.parserBuilt && file.tree.Some?
                  then TreeRows(input, file.tree.value, file.pack.value.imports == [], file.rust) else [])
            && (!file.parserBuilt || file.tree.None? ==> all.truncated)
  {
    var imports := file.pack.value.imports == [];
    var packed := PackItems(input, file.pack.value).value;
    var extra := ExtraEvidence(file, input, late, imports, 1).value;
    assert (packed + extra.items)[|packed|..] == extra.items;
    if file.parserBuilt && file.tree.Some? {
      TreeEvidenceRows(input, late, file.tree.value, imports, file.rust, 2);
      FreeTree(input, late, file.tree.value, imports, file.rust, 2);
    }
  }

  lemma FreeTree(input: WalkInput, late: Deadline, tree: Tree, imports: bool, rust: bool, reading: nat)
    requires late.budget.None? && TreeEvidence(input, late, tree, imports, rust, reading).Some?
    ensures !TreeEvidence(input, late, tree, imports, rust, reading).value.timedOut
  {
    var sites := PreOrder(Root(tree));
    var shared := SharedRun(input, late, tree, imports, reading);
    var bound := WalkOf(BindingWalker, input, late, tree, Fresh(reading));
    CompleteWalk(BindingWalker, input, late, sites, Fresh(reading));
    if imports {
      CompleteWalk(ImportWalker, input, late, sites, bound.(stopped := false));
    }
    if rust {
      CompleteWalk(CallWalker, input, late, sites, Fresh(shared.readings));
    }
  }

  /** An import row holds the trim of what the source holds there, and is a wildcard iff that has a star in it. */
  lemma ImportRowIs(input: WalkInput, s: seq<Site>, k: nat)
    requires k < |ImportRows(input, s)|
    ensures var row := ImportRows(input, s)[k];
            && row.start <= row.end <= |input.source|
            && row.payload.ImportRow? && row.payload.text == input.trim(input.source[row.start..row.end])
            && (row.payload.wildcard <==> exists i :: 0 <= i < |row.payload.text| && row.payload.text[i] == 42)
  {
    if |s| > 0 {
      var first := ImportRows(input, s)[..|ImportRows(input, s)| - |ImportRows(input, s[1..])|];
      if k >= |first| {
        ImportRowIs(input, s[1..], k - |first|);
      }
    }
  }
}
