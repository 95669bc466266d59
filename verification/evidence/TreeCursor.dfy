/** Iterating a node's named children through a cursor, and pushing them on a walker's stack. */
module TreeCursor {
  import opened Sequences
  import opened SyntaxTree

  /** The iterator over a node's named children. Its cursor starts on the node itself. */
  class NamedChildren {
    const node: Tree
    var started: bool
    var onChild: Option<nat>

    ghost predicate Valid()
      reads this
    {
      && (!started ==> onChild.None?)
      && (started && onChild.None? ==> node.children == [])
      && (onChild.Some? ==> onChild.value < |node.children|)
    }

    /** The children the cursor has not reached. */
    ghost function Ahead(): seq<Tree>
      reads this
      requires Valid()
    {
      if !started then node.children
      else if onChild.None? then []
      else node.children[onChild.value + 1..]
    }

    /** The named children not returned yet. */
    ghost function Remaining(): seq<Tree>
      reads this
      requires Valid()
    {
      NamedOf(Ahead())
    }

    constructor (node: Tree)
      ensures Valid() && this.node == node && Remaining() == Kids(node)
    {
      this.node := node;
      started := false;
      onChild := None;
    }

    method GotoFirstChild() returns (moved: bool)
      requires onChild.None?
      modifies this`onChild
      ensures moved == (node.children != [])
      ensures onChild == if moved then Some(0) else None
    {
      moved := |node.children| > 0;
      if moved {
        onChild := Some(0);
      }
    }

    method GotoNextSibling() returns (moved: bool)
      modifies this`onChild
      ensures moved == (old(onChild).Some? && old(onChild).value + 1 < |node.children|)
      ensures onChild == if moved then Some(old(onChild).value + 1) else old(onChild)
    {
      moved := onChild.Some? && onChild.value + 1 < |node.children|;
      if moved {
        onChild := Some(onChild.value + 1);
      }
    }

    /** Moves to the next child, named or not; past the last one the cursor stays. */
    method MoveOn() returns (child: Option<Tree>)
      requires Valid()
      modifies this
      ensures Valid()
      ensures old(Ahead()) == [] ==> child.None? && Ahead() == []
      ensures old(Ahead()) != [] ==> child == Some(old(Ahead())[0]) && Ahead() == old(Ahead())[1..]
    {
      var moved;
      if started {
        moved := GotoNextSibling();
      } else {
        started := true;
        moved := GotoFirstChild();
      }
      child := if moved then Some(node.children[onChild.value]) else None;
    }

    /** The next named child. Past the last one every call returns `None`. */
    method Next() returns (next: Option<Tree>)
      requires Valid()
      modifies this
      ensures Valid()
      ensures old(Remaining()) == [] ==> next.None? && Remaining() == []
      ensures old(Remaining()) != [] ==> next == Some(old(Remaining())[0]) && Remaining() == old(Remaining())[1..]
    {
      while true
        invariant Valid() && Remaining() == old(Remaining())
        decreases |Ahead()|
      {
        var child := MoveOn();
        if child.None? || child.value.named {
          return child;
        }
      }
    }
  }

  /** One entry moves from what is to come to what is there. */
  lemma OneMapped<S, T>(grown: seq<T>, left: seq<S>, entry: S -> T)
    requires left != []
    ensures grown + Mapped(left, entry) == (grown + [entry(left[0])]) + Mapped(left[1..], entry)
  {
    ConcatAssociative(grown, [entry(left[0])], Mapped(left[1..], entry));
  }

  /** The entries of the named children go on the end, first child first. */
  method ExtendWithChildren<T>(pending: seq<T>, node: Tree, entry: Tree -> T) returns (grown: seq<T>)
    ensures grown == pending + Mapped(Kids(node), entry)
  {
    grown := pending;
    var children := new NamedChildren(node);
    ghost var left, goal := Kids(node), pending + Mapped(Kids(node), entry);
    var child := children.Next();
    while child.Some?
      invariant children.Valid()
      invariant child.None? ==> left == []
      invariant child.Some? ==> left != [] && left[0] == child.value && left[1..] == children.Remaining()
      invariant grown + Mapped(left, entry) == goal
      decreases |left|
    {
      OneMapped(grown, left, entry);
      grown := grown + [entry(child.value)];
      left := left[1..];
      child := children.Next();
    }
    assert grown + [] == grown;
  }

  /** The same entries the other way round, so that the first child is popped first. */
  method PushChildren<T>(pending: seq<T>, node: Tree, entry: Tree -> T) returns (grown: seq<T>)
    ensures grown == pending + Reversed(Mapped(Kids(node), entry))
  {
    grown := ExtendWithChildren(pending, node, entry);
    grown := grown[..|pending|] + Reversed(grown[|pending|..]);
  }
}
