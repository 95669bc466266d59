/** Small value types and sequence facts shared by every module. */
module Sequences {

  newtype byte = x: int | 0 <= x < 256

  type Bytes = seq<byte>

  datatype Option<+T> = None | Some(value: T)

  datatype Result<+T, +E> = Ok(value: T) | Err(error: E)

  /** `s` back to front. */
  function Reversed<T>(s: seq<T>): (r: seq<T>)
    ensures |r| == |s|
    ensures forall k :: 0 <= k < |s| ==> r[k] == s[|s| - 1 - k]
  {
    if s == [] then [] else Reversed(s[1..]) + [s[0]]
  }

  /** `f` applied to every element. */
  function Mapped<S, T>(s: seq<S>, f: S -> T): (r: seq<T>)
    ensures |r| == |s|
    ensures forall k :: 0 <= k < |s| ==> r[k] == f(s[k])
  {
    if s == [] then [] else [f(s[0])] + Mapped(s[1..], f)
  }

  predicate Distinct<T(==)>(s: seq<T>) {
    forall i, j :: 0 <= i < j < |s| ==> s[i] != s[j]
  }

  lemma ConcatAssociative<T>(a: seq<T>, b: seq<T>, c: seq<T>)
    ensures (a + b) + c == a + (b + c)
  {
  }

  lemma SameHead<T>(head: seq<T>, a: seq<T>, b: seq<T>)
    ensures head + a == head + b <==> a == b
  {
    if head + a == head + b {
      assert (head + a)[|head|..] == a && (head + b)[|head|..] == b;
    }
  }

  lemma PrefixTransitive<T>(a: seq<T>, b: seq<T>, c: seq<T>)
    requires a <= b && b <= c
    ensures a <= c
  {
    assert c[..|a|] == b[..|a|];
  }

  /** The first value `f` finds among `items`. */
  function FirstSome<S, T>(items: seq<S>, f: S -> Option<T>): Option<T>
    decreases |items|
  {
    if items == [] then None
    else if f(items[0]).Some? then f(items[0])
    else FirstSome(items[1..], f)
  }

  /** The value found is that of the first item that has one; none is found only if no item has. */
  lemma {:induction false} FirstSomeIsFirst<S, T>(items: seq<S>, f: S -> Option<T>)
    ensures FirstSome(items, f).None? ==> forall k :: 0 <= k < |items| ==> f(items[k]).None?
    ensures FirstSome(items, f).Some? ==>
              exists k :: 0 <= k < |items| && f(items[k]) == FirstSome(items, f)
                && forall j :: 0 <= j < k ==> f(items[j]).None?
    decreases |items|
  {
    if items != [] && f(items[0]).None? {
      var rest := items[1..];
      FirstSomeIsFirst(rest, f);
      assert forall j :: 0 < j < |items| ==> items[j] == rest[j - 1];
      if FirstSome(rest, f).Some? {
        var k :| 0 <= k < |rest| && f(rest[k]) == FirstSome(rest, f) && forall j :: 0 <= j < k ==> f(rest[j]).None?;
        assert f(items[k + 1]) == FirstSome(items, f);
      }
    }
  }

  /** The values `f` finds among `items`, in order. */
  function Gathered<S, T>(items: seq<S>, f: S -> Option<T>): seq<T>
    decreases |items|
  {
    if items == [] then [] else (if f(items[0]).Some? then [f(items[0]).value] else []) + Gathered(items[1..], f)
  }

  lemma {:induction false} GatheredConcat<S, T>(a: seq<S>, b: seq<S>, f: S -> Option<T>)
    ensures Gathered(a + b, f) == Gathered(a, f) + Gathered(b, f)
    decreases |a|
  {
    if a == [] {
      assert a + b == b;
    } else {
      GatheredConcat(a[1..], b, f);
      assert (a + b)[1..] == a[1..] + b;
      ConcatAssociative(if f(a[0]).Some? then [f(a[0]).value] else [], Gathered(a[1..], f), Gathered(b, f));
    }
  }

  /** Each of them is that of some item. */
  lemma {:induction false} GatheredFrom<S, T>(items: seq<S>, f: S -> Option<T>, k: nat) returns (i: nat)
    requires k < |Gathered(items, f)|
    ensures i < |items| && f(items[i]) == Some(Gathered(items, f)[k])
    decreases |items|
  {
    if f(items[0]).Some? && k == 0 {
      i := 0;
    } else {
      i := GatheredFrom(items[1..], f, if f(items[0]).Some? then k - 1 else k);
      i := i + 1;
    }
  }

  /** And each item that has one is represented. */
  lemma {:induction false} GatheredHas<S, T>(items: seq<S>, f: S -> Option<T>, i: nat)
    requires i < |items| && f(items[i]).Some?
    ensures f(items[i]).value in Gathered(items, f)
    decreases |items|
  {
    if i > 0 {
      GatheredHas(items[1..], f, i - 1);
    }
  }
}
