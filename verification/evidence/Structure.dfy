/** The language pack's own results, and how they become keyed evidence. */
module Structure {
  import opened Sequences
  import opened Evidence

  /** One fact the language pack reports: where it is, and its fields as one text. */
  datatype Fact = Fact(start: nat, end: nat, startRow: nat, endRow: nat, fields: Text)

  /** A declaration in the language pack's structure tree. */
  datatype StructureItem = StructureItem(fact: Fact, children: seq<StructureItem>)

  function FactSpan(input: WalkInput, fact: Fact): Option<SpanAvailability> {
    RangeSpan(input, fact.start, fact.end, fact.startRow, fact.endRow)
  }

  function FactItem(prefix: Prefix, index: nat, fact: Fact, span: SpanAvailability): EvidenceItem {
    EvidenceItem(Key(prefix, index), fact.start, fact.end, span, PackRow(fact.fields))
  }

  /** `facts` keyed upward from `first`; `None` when one lies past `u32`. */
  function Numbered(input: WalkInput, prefix: Prefix, facts: seq<Fact>, first: nat): Option<seq<EvidenceItem>>
    decreases |facts|
  {
    if facts == [] then Some([])
    else
      match FactSpan(input, facts[0])
      case None => None
      case Some(span) =>
        match Numbered(input, prefix, facts[1..], first + 1)
        case None => None
        case Some(later) => Some([FactItem(prefix, first, facts[0], span)] + later)
  }

  /** A forest in the order a recursive pre-order descent lists it. */
  function Flattened(forest: seq<StructureItem>): seq<Fact> {
    if forest == [] then []
    else [forest[0].fact] + Flattened(forest[0].children) + Flattened(forest[1..])
  }

  lemma {:induction false} FlattenedConcat(a: seq<StructureItem>, b: seq<StructureItem>)
    ensures Flattened(a + b) == Flattened(a) + Flattened(b)
    decreases |a|
  {
    if a == [] {
      assert a + b == b;
    } else {
      FlattenedConcat(a[1..], b);
      assert (a + b)[1..] == a[1..] + b;
      ConcatAssociative([a[0].fact] + Flattened(a[0].children), Flattened(a[1..]), Flattened(b));
    }
  }

  /** What is left to list when `pending` holds the stack, the next item last. */
  function Listing(pending: seq<StructureItem>): seq<Fact> {
    Flattened(Reversed(pending))
  }

  lemma ReversedConcat<T>(a: seq<T>, b: seq<T>)
    ensures Reversed(a + b) == Reversed(b) + Reversed(a)
  {
  }

  lemma ReversedTwice<T>(a: seq<T>)
    ensures Reversed(Reversed(a)) == a
  {
  }

  /** Popping an item and pushing its children in reverse leaves the rest of the listing. */
  lemma ListingPopped(pending: seq<StructureItem>)
    requires pending != []
    ensures var rest, item := pending[..|pending| - 1], pending[|pending| - 1];
            Listing(pending) == [item.fact] + Listing(rest + Reversed(item.children))
  {
    var rest, item := pending[..|pending| - 1], pending[|pending| - 1];
    assert Reversed(pending) == [item] + Reversed(rest);
    assert ([item] + Reversed(rest))[1..] == Reversed(rest);
    ReversedConcat(rest, Reversed(item.children));
    ReversedTwice(item.children);
    FlattenedConcat(item.children, Reversed(rest));
    ConcatAssociative([item.fact], Flattened(item.children), Flattened(Reversed(rest)));
  }

  /** `before` followed by what `items` holds, if it holds anything. */
  function Appended(before: seq<EvidenceItem>, items: Option<seq<EvidenceItem>>): Option<seq<EvidenceItem>> {
    match items
    case None => None
    case Some(more) => Some(before + more)
  }

  lemma {:induction false} NumberedConcat(input: WalkInput, prefix: Prefix, a: seq<Fact>, b: seq<Fact>, first: nat)
    ensures Numbered(input, prefix, a + b, first)
         == match Numbered(input, prefix, a, first)
            case None => None
            case Some(items) => Appended(items, Numbered(input, prefix, b, first + |a|))
    decreases |a|
  {
    if a == [] {
      assert a + b == b;
      assert forall later: seq<EvidenceItem> :: [] + later == later;
    } else {
      assert (a + b)[1..] == a[1..] + b;
      NumberedConcat(input, prefix, a[1..], b, first + 1);
      if FactSpan(input, a[0]).Some? && Numbered(input, prefix, a[1..], first + 1).Some? {
        var head := [FactItem(prefix, first, a[0], FactSpan(input, a[0]).value)];
        match Numbered(input, prefix, b, first + |a|) {
          case None =>
          case Some(later) => ConcatAssociative(head, Numbered(input, prefix, a[1..], first + 1).value, later);
        }
      }
    }
  }

  lemma {:induction false} NumberedLength(input: WalkInput, prefix: Prefix, facts: seq<Fact>, first: nat)
    requires Numbered(input, prefix, facts, first).Some?
    ensures |Numbered(input, prefix, facts, first).value| == |facts|
    ensures forall k :: 0 <= k < |facts| ==>
      Numbered(input, prefix, facts, first).value[k].key == Key(prefix, first + k)
    decreases |facts|
  {
    if facts != [] {
      NumberedLength(input, prefix, facts[1..], first + 1);
    }
  }

  lemma NumberedStep(input: WalkInput, prefix: Prefix, before: seq<EvidenceItem>, facts: seq<Fact>, first: nat, span: SpanAvailability)
    requires facts != [] && FactSpan(input, facts[0]) == Some(span)
    ensures Appended(before, Numbered(input, prefix, facts, first))
         == Appended(before + [FactItem(prefix, first, facts[0], span)], Numbered(input, prefix, facts[1..], first + 1))
  {
    match Numbered(input, prefix, facts[1..], first + 1)
    case None =>
    case Some(later) => ConcatAssociative(before, [FactItem(prefix, first, facts[0], span)], later);
  }

  /** Lists one declaration and everything under it, with an explicit stack in place of recursion. */
  method FlattenStructure(root: StructureItem, input: WalkInput, out: Extraction, counter0: nat)
    returns (counter: nat, overflow: bool)
    modifies out`items
    ensures overflow <==> Numbered(input, StructureKey, Flattened([root]), counter0).None?
    ensures !overflow ==>
      && out.items == old(out.items) + Numbered(input, StructureKey, Flattened([root]), counter0).value
      && counter == counter0 + |Flattened([root])|
  {
    counter, overflow := counter0, false;
    var pending := [root];
    ghost var goal := Appended(out.items, Numbered(input, StructureKey, Flattened([root]), counter0));
    assert Reversed(pending) == [root];
    while pending != []
      invariant Appended(out.items, Numbered(input, StructureKey, Listing(pending), counter)) == goal
      invariant counter + |Listing(pending)| == counter0 + |Flattened([root])|
      decreases |Listing(pending)|
    {
      ListingPopped(pending);
      var item := pending[|pending| - 1];
      ghost var listing := Listing(pending);
      pending := pending[..|pending| - 1];
      var key := Key(StructureKey, counter);
      counter := counter + 1;
      match FactSpan(input, item.fact) {
        case None =>
          overflow := true;
          return;
        case Some(span) =>
          NumberedStep(input, StructureKey, out.items, listing, counter - 1, span);
          out.items := out.items + [EvidenceItem(key, item.fact.start, item.fact.end, span, PackRow(item.fact.fields))];
      }
      pending := pending + Reversed(item.children);
      assert listing[1..] == Listing(pending);
    }
  }

  /** Appends one of the language pack's flat lists, each fact keyed by its index. */
  method AppendNumbered(input: WalkInput, prefix: Prefix, facts: seq<Fact>, out: Extraction) returns (overflow: bool)
    modifies out`items
    ensures overflow <==> Numbered(input, prefix, facts, 0).None?
    ensures !overflow ==> out.items == old(out.items) + Numbered(input, prefix, facts, 0).value
  {
    overflow := false;
    ghost var goal := Appended(out.items, Numbered(input, prefix, facts, 0));
    for index := 0 to |facts|
      invariant Appended(out.items, Numbered(input, prefix, facts[index..], index)) == goal
    {
      match FactSpan(input, facts[index]) {
        case None =>
          overflow := true;
          return;
        case Some(span) =>
          NumberedStep(input, prefix, out.items, facts[index..], index, span);
          assert facts[index..][1..] == facts[index + 1..];
          out.items := out.items + [FactItem(prefix, index, facts[index], span)];
      }
    }
    assert facts[|facts|..] == [];
  }
}
