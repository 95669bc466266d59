/** The keys a walk assigns: of its own prefixes, and in strictly increasing order. */
module WalkKeys {
  import opened Sequences
  import opened SyntaxTree
  import opened Evidence
  import opened Bindings
  import opened Calls
  import opened MacroScans
  import opened Walks

  predicate Family(w: Walker, prefix: Prefix) {
    match w
    case BindingWalker => prefix.FieldKey? || prefix.VariableKey?
    case ImportWalker => prefix.GenericImportKey?
    case CallWalker => prefix.CallKey?
  }

  /** `after` extends `before` by items of `w` whose keys run upward from `low`, below `high`. */
  predicate Keyed(w: Walker, before: seq<EvidenceItem>, low: nat, after: seq<EvidenceItem>, high: nat) {
    && before <= after
    && low <= high
    && (forall k :: |before| <= k < |after| ==>
          Family(w, after[k].key.prefix) && low <= after[k].key.index < high)
    && (forall i, j :: |before| <= i < j < |after| ==> after[i].key.index < after[j].key.index)
  }

  predicate Grown(w: Walker, run: Run, r: Run) {
    Keyed(w, run.items, run.counter, r.items, r.counter)
  }

  lemma KeyedTransitive(
    w: Walker, a: seq<EvidenceItem>, i: nat, b: seq<EvidenceItem>, j: nat, c: seq<EvidenceItem>, k: nat)
    requires Keyed(w, a, i, b, j) && Keyed(w, b, j, c, k)
    ensures Keyed(w, a, i, c, k)
  {
    PrefixTransitive(a, b, c);
    forall x | |a| <= x < |c| ensures Family(w, c[x].key.prefix) && i <= c[x].key.index < k {
      if x < |b| {
        assert c[x] == b[x];
      }
    }
    forall x, y | |a| <= x < y < |c| ensures c[x].key.index < c[y].key.index {
      assert x < |b| ==> c[x] == b[x];
      assert y < |b| ==> c[y] == b[y];
    }
  }

  lemma GrownTransitive(w: Walker, a: Run, b: Run, c: Run)
    requires Grown(w, a, b) && Grown(w, b, c)
    ensures Grown(w, a, c)
  {
    KeyedTransitive(w, a.items, a.counter, b.items, b.counter, c.items, c.counter);
  }

  lemma GrownByOne(w: Walker, run: Run, r: Run, item: EvidenceItem)
    requires r.items == run.items + [item] && r.counter == run.counter + 1
    requires Family(w, item.key.prefix) && item.key.index == run.counter
    ensures Grown(w, run, r)
  {
  }

  /** Entering rows changes only the items, the counter and the ranges seen. */
  lemma {:induction false} AddRowsFrame(run: Run, rows: seq<MacroRow>)
    ensures var r := AddRows(run, rows); r == run.(items := r.items, counter := r.counter, seen := r.seen)
    decreases |rows|
  {
    if rows != [] {
      if (rows[0].start, rows[0].end) in run.seen {
        AddRowsFrame(run, rows[1..]);
      } else {
        AddRowsFrame(run.(
          items := run.items + [MacroItem(run.counter, rows[0])],
          counter := run.counter + 1,
          seen := run.seen + {(rows[0].start, rows[0].end)}), rows[1..]);
      }
    }
  }

  lemma {:induction false} AddRowsGrown(run: Run, rows: seq<MacroRow>)
    ensures Grown(CallWalker, run, AddRows(run, rows))
    decreases |rows|
  {
    if rows != [] {
      if (rows[0].start, rows[0].end) in run.seen {
        AddRowsGrown(run, rows[1..]);
      } else {
        var next := run.(
          items := run.items + [MacroItem(run.counter, rows[0])],
          counter := run.counter + 1,
          seen := run.seen + {(rows[0].start, rows[0].end)});
        GrownByOne(CallWalker, run, next, MacroItem(run.counter, rows[0]));
        AddRowsGrown(next, rows[1..]);
        GrownTransitive(CallWalker, run, next, AddRows(next, rows[1..]));
      }
    }
  }

  lemma EmitCallGrown(input: WalkInput, late: Deadline, node: Tree, site: CallSite, run: Run)
    ensures Grown(CallWalker, run, EmitCall(input, late, node, site, run))
  {
    var direct := EmitDirect(input, node, site, run);
    if direct.items != run.items {
      GrownByOne(CallWalker, run, direct, direct.items[|run.items|]);
    }
    assert Grown(CallWalker, run, direct);
    if !direct.overflow && node.kind.MacroInvocation? {
      var scan := ScanMacro(input, late, node, site.caller, direct.readings);
      AddRowsGrown(direct, scan.rows);
      GrownTransitive(CallWalker, run, direct, AddRows(direct, scan.rows));
    }
  }

  lemma BindingGrown(input: WalkInput, node: Tree, run: Run)
    ensures Grown(BindingWalker, run, VisitBinding(input, node, run))
  {
    match BindingKind(node.kind) {
      case None =>
      case Some(binding) =>
        match IdentifierName(node, input.source) {
          case Ok(Some(name)) => PushGrown(BindingWalker, input, run, binding.1, node, BindingRow(name, binding.0));
          case Ok(None) =>
          case Err(_) =>
        }
    }
  }

  lemma PushGrown(w: Walker, input: WalkInput, run: Run, prefix: Prefix, node: Tree, payload: Payload)
    requires Family(w, prefix)
    ensures Grown(w, run, Push(input, run, prefix, node, payload))
  {
    var r := Push(input, run, prefix, node, payload);
    if NodeSpan(input, node).Some? {
      GrownByOne(w, run, r, NewItem(run, prefix, node, NodeSpan(input, node).value, payload));
    }
  }

  lemma ImportGrown(input: WalkInput, node: Tree, suppressed: bool, run: Run)
    ensures Grown(ImportWalker, run, VisitImport(input, node, suppressed, run))
  {
    var r := VisitImport(input, node, suppressed, run);
    if r.items != run.items {
      GrownByOne(ImportWalker, run, r, r.items[|run.items|]);
    }
  }

  lemma CallGrown(input: WalkInput, late: Deadline, node: Tree, caller: Caller, run: Run)
    ensures Grown(CallWalker, run, VisitCall(input, late, node, caller, run))
  {
    match CallParts(node, input.source, node.kind.MacroInvocation?, caller) {
      case Ok(site) => EmitCallGrown(input, late, node, site, run);
      case Err(_) =>
    }
  }

  lemma VisitNodeGrown(w: Walker, input: WalkInput, late: Deadline, s: Site, run: Run)
    ensures Grown(w, run, VisitNode(w, input, late, s, run))
  {
    match w
    case BindingWalker => BindingGrown(input, s.node, run);
    case ImportWalker => ImportGrown(input, s.node, Suppressed(s), run);
    case CallWalker => CallGrown(input, late, s.node, EnclosingCaller(s.above, input.source), run);
  }

  lemma VisitGrown(w: Walker, input: WalkInput, late: Deadline, s: Site, run: Run)
    ensures Grown(w, run, Visit(w, input, late, s, run))
  {
    if !Spent(late, run.readings) {
      VisitInTime(w, input, late, s, run);
      if |s.above| < MAX_WALK_DEPTH {
        VisitNodeGrown(w, input, late, s, AfterReading(run));
      }
    }
  }

  /** Any walk, cut or complete, failed or not, only appends, under ever larger keys. */
  lemma {:induction false} WalkGrown(w: Walker, input: WalkInput, late: Deadline, sites: seq<Site>, run: Run)
    ensures Grown(w, run, RunSites(w, input, late, sites, run))
    decreases |sites|
  {
    if sites != [] && !Ended(run) {
      var next := Visit(w, input, late, sites[0], run);
      VisitGrown(w, input, late, sites[0], run);
      WalkGrown(w, input, late, sites[1..], next);
      GrownTransitive(w, run, next, RunSites(w, input, late, sites[1..], next));
    }
  }

  /** One key taken for every item entered. */
  predicate OneKeyEach(run: Run, r: Run) {
    r.counter - run.counter == |r.items| - |run.items|
  }

  lemma VisitOneKeyEach(w: Walker, input: WalkInput, late: Deadline, s: Site, run: Run)
    requires !w.CallWalker? && !Visit(w, input, late, s, run).overflow
    ensures OneKeyEach(run, Visit(w, input, late, s, run))
  {
    if !Spent(late, run.readings) && |s.above| < MAX_WALK_DEPTH {
      VisitInTime(w, input, late, s, run);
      var read := AfterReading(run);
      if w == BindingWalker {
        BindingOneKeyEach(input, s.node, read);
      } else {
        ImportOneKeyEach(input, s.node, Suppressed(s), read);
      }
    }
  }

  lemma BindingOneKeyEach(input: WalkInput, node: Tree, run: Run)
    requires !VisitBinding(input, node, run).overflow
    ensures OneKeyEach(run, VisitBinding(input, node, run))
  {
  }

  lemma ImportOneKeyEach(input: WalkInput, node: Tree, suppressed: bool, run: Run)
    requires !VisitImport(input, node, suppressed, run).overflow
    ensures OneKeyEach(run, VisitImport(input, node, suppressed, run))
  {
  }

  lemma {:induction false} WalkOneKeyEach(w: Walker, input: WalkInput, late: Deadline, sites: seq<Site>, run: Run)
    requires !w.CallWalker?
    ensures run.overflow ==> RunSites(w, input, late, sites, run).overflow
    ensures !RunSites(w, input, late, sites, run).overflow ==> OneKeyEach(run, RunSites(w, input, late, sites, run))
    decreases |sites|
  {
    if sites != [] && !Ended(run) {
      var next := Visit(w, input, late, sites[0], run);
      if !next.overflow {
        VisitOneKeyEach(w, input, late, sites[0], run);
      }
      WalkOneKeyEach(w, input, late, sites[1..], next);
    }
  }

  lemma {:induction false} AscendingAtLeast(w: Walker, run: Run, r: Run, k: nat)
    requires Grown(w, run, r) && |run.items| + k < |r.items|
    ensures r.items[|run.items| + k].key.index >= run.counter + k
    decreases k
  {
    if k > 0 {
      AscendingAtLeast(w, run, r, k - 1);
    }
  }

  lemma {:induction false} AscendingAtMost(w: Walker, run: Run, r: Run, k: nat)
    requires Grown(w, run, r) && |run.items| + k < |r.items|
    ensures r.items[|run.items| + k].key.index + (|r.items| - |run.items| - k) <= r.counter
    decreases |r.items| - k
  {
    if |run.items| + k + 1 < |r.items| {
      AscendingAtMost(w, run, r, k + 1);
    }
  }

  /** Bindings and imports are numbered without gaps, from where the counter stood. */
  lemma KeysAreConsecutive(w: Walker, input: WalkInput, late: Deadline, sites: seq<Site>, run: Run, k: nat)
    requires !w.CallWalker? && !RunSites(w, input, late, sites, run).overflow
    requires |run.items| + k < |RunSites(w, input, late, sites, run).items|
    ensures RunSites(w, input, late, sites, run).items[|run.items| + k].key.index == run.counter + k
  {
    var r := RunSites(w, input, late, sites, run);
    WalkGrown(w, input, late, sites, run);
    WalkOneKeyEach(w, input, late, sites, run);
    AscendingAtLeast(w, run, r, k);
    AscendingAtMost(w, run, r, k);
  }
}
