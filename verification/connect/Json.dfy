/** Ordered JSON objects and the edits made to them. */
module Json {
  import opened Sequences

  /** A JSON value; anything but an object is kept whole, as its text. */
  datatype Value = Other(text: string) | Object(members: seq<Member>)

  datatype Member = Member(key: string, value: Value)

  function Get(members: seq<Member>, key: string): Option<Value> {
    if members == [] then None
    else if members[0].key == key then Some(members[0].value)
    else Get(members[1..], key)
  }

  /** A value under a key that is there is replaced where it stands; a new key goes last. */
  function Put(members: seq<Member>, key: string, value: Value): seq<Member> {
    if members == [] then [Member(key, value)]
    else if members[0].key == key then [Member(key, value)] + members[1..]
    else [members[0]] + Put(members[1..], key, value)
  }

  /** How a map closes the gap a removed member leaves. */
  datatype Removal = Shift | Swap

  function IndexOf(members: seq<Member>, key: string): (i: nat)
    ensures i <= |members|
    ensures i < |members| <==> Get(members, key).Some?
    ensures i < |members| ==> members[i].key == key
  {
    if members == [] || members[0].key == key then 0 else 1 + IndexOf(members[1..], key)
  }

  function Without(members: seq<Member>, key: string, removal: Removal): seq<Member> {
    var i := IndexOf(members, key);
    if i == |members| then members
    else if removal.Shift? || i == |members| - 1 then members[..i] + members[i + 1..]
    else members[..i] + [members[|members| - 1]] + members[i + 1..|members| - 1]
  }

  function Keys(members: seq<Member>): (r: seq<string>)
    ensures |r| == |members|
    ensures forall k :: 0 <= k < |members| ==> r[k] == members[k].key
  {
    if members == [] then [] else [members[0].key] + Keys(members[1..])
  }

  /** No key twice, at any depth. */
  predicate Valid(value: Value) {
    value.Object? ==> ValidMembers(value.members)
  }

  predicate ValidMembers(members: seq<Member>) {
    Distinct(Keys(members)) && forall m :: m in members ==> Valid(m.value)
  }

  lemma {:induction false} GetAt(members: seq<Member>, i: nat)
    requires Distinct(Keys(members)) && i < |members|
    ensures Get(members, members[i].key) == Some(members[i].value)
    decreases |members|
  {
    if i > 0 {
      assert Keys(members)[0] == members[0].key && Keys(members)[i] == members[i].key;
      assert Distinct(Keys(members[1..])) by {
        assert Keys(members) == [members[0].key] + Keys(members[1..]);
        assert forall k :: 0 <= k < |members| - 1 ==> Keys(members[1..])[k] == Keys(members)[k + 1];
      }
      GetAt(members[1..], i - 1);
    }
  }

  lemma {:induction false} GetNone(members: seq<Member>, key: string)
    ensures Get(members, key).None? <==> key !in Keys(members)
    decreases |members|
  {
    if members != [] {
      GetNone(members[1..], key);
    }
  }

  lemma {:induction false} PutGets(members: seq<Member>, key: string, value: Value, other: string)
    ensures Get(Put(members, key, value), other) == if other == key then Some(value) else Get(members, other)
    decreases |members|
  {
    if members != [] && members[0].key != key {
      PutGets(members[1..], key, value, other);
    }
  }

  lemma {:induction false} PutKeepsOrder(members: seq<Member>, key: string, value: Value)
    ensures Keys(Put(members, key, value)) == if Get(members, key).Some? then Keys(members) else Keys(members) + [key]
    decreases |members|
  {
    if members != [] && members[0].key != key {
      PutKeepsOrder(members[1..], key, value);
    }
  }

  lemma PutKeepsValid(members: seq<Member>, key: string, value: Value)
    requires ValidMembers(members) && Valid(value)
    ensures ValidMembers(Put(members, key, value))
  {
    PutKeepsOrder(members, key, value);
    GetNone(members, key);
    PutMembers(members, key, value);
  }

  lemma {:induction false} PutMembers(members: seq<Member>, key: string, value: Value)
    ensures forall m :: m in Put(members, key, value) ==> m in members || m == Member(key, value)
    decreases |members|
  {
    if members != [] && members[0].key != key {
      PutMembers(members[1..], key, value);
    }
  }

  lemma {:induction false} GetIsMember(members: seq<Member>, key: string)
    requires Get(members, key).Some?
    ensures Member(key, Get(members, key).value) in members
    decreases |members|
  {
    if members[0].key != key {
      GetIsMember(members[1..], key);
    }
  }

  /** With distinct keys, looking a key up is membership: order plays no part. */
  lemma GetIffMember(members: seq<Member>, key: string, value: Value)
    requires Distinct(Keys(members))
    ensures Get(members, key) == Some(value) <==> Member(key, value) in members
  {
    if Member(key, value) in members {
      var i :| 0 <= i < |members| && members[i] == Member(key, value);
      GetAt(members, i);
    }
    if Get(members, key) == Some(value) {
      GetIsMember(members, key);
    }
  }

  /** Where the member now at `k` stood before the one at `i` of `n` was removed. */
  function Source(k: nat, i: nat, n: nat, removal: Removal): (j: nat)
    requires i < n && k < n - 1
    ensures j < n && j != i
  {
    if k < i then k
    else if removal.Shift? || i == n - 1 then k + 1
    else if k == i then n - 1
    else k
  }

  /** Where the member at `j` of `n` stands after the one at `i` was removed. */
  function Target(j: nat, i: nat, n: nat, removal: Removal): (k: nat)
    requires i < n && j < n && j != i
    ensures k < n - 1 && Source(k, i, n, removal) == j
  {
    if j < i then j
    else if removal.Shift? || i == n - 1 then j - 1
    else if j == n - 1 then i
    else j
  }

  lemma LeftAt(members: seq<Member>, key: string, removal: Removal, k: nat)
    requires Get(members, key).Some? && k < |members| - 1
    ensures |Without(members, key, removal)| == |members| - 1
    ensures Without(members, key, removal)[k] == members[Source(k, IndexOf(members, key), |members|, removal)]
  {
    var i, n := IndexOf(members, key), |members|;
    if removal.Shift? || i == n - 1 {
      assert Without(members, key, removal) == members[..i] + members[i + 1..];
    } else {
      var front := members[..i] + [members[n - 1]];
      assert Without(members, key, removal) == front + members[i + 1..n - 1];
      assert |front| == i + 1;
    }
  }

  /** Two places left by a removal hold different keys, since they come from different places. */
  lemma LeftDiffer(members: seq<Member>, key: string, removal: Removal, k: nat, l: nat)
    requires Distinct(Keys(members)) && Get(members, key).Some? && k < l < |members| - 1
    ensures |Without(members, key, removal)| == |members| - 1
    ensures Without(members, key, removal)[k].key != Without(members, key, removal)[l].key
  {
    var i := IndexOf(members, key);
    LeftAt(members, key, removal, k);
    LeftAt(members, key, removal, l);
    var from, to := Source(k, i, |members|, removal), Source(l, i, |members|, removal);
    assert from != to;
    assert Keys(members)[from] != Keys(members)[to];
  }

  lemma LeftIsDistinct(members: seq<Member>, key: string, removal: Removal)
    requires Distinct(Keys(members)) && Get(members, key).Some?
    ensures Distinct(Keys(Without(members, key, removal)))
  {
    var left := Without(members, key, removal);
    LeftLength(members, key, removal);
    forall k, l | 0 <= k < l < |left| ensures Keys(left)[k] != Keys(left)[l] {
      LeftDiffer(members, key, removal, k, l);
    }
  }

  lemma LeftLength(members: seq<Member>, key: string, removal: Removal)
    requires Get(members, key).Some?
    ensures |Without(members, key, removal)| == |members| - 1
  {
  }

  /** What removal leaves, in whatever order. */
  lemma WithoutMembers(members: seq<Member>, key: string, removal: Removal, m: Member)
    requires Distinct(Keys(members))
    ensures Distinct(Keys(Without(members, key, removal)))
    ensures m in Without(members, key, removal) <==> m in members && m.key != key
  {
    var left, i := Without(members, key, removal), IndexOf(members, key);
    if i == |members| {
      GetNone(members, key);
      assert forall k :: 0 <= k < |members| ==> Keys(members)[k] == members[k].key;
    } else {
      LeftIsDistinct(members, key, removal);
      if m in members && m.key != key {
        var j :| 0 <= j < |members| && members[j] == m;
        LeftAt(members, key, removal, Target(j, i, |members|, removal));
      }
      if m in left {
        assert |left| == |members| - 1;
        var k :| 0 <= k < |left| && left[k] == m;
        LeftAt(members, key, removal, k);
        assert Keys(members)[Source(k, i, |members|, removal)] != Keys(members)[i];
      }
    }
  }

  lemma WithoutGets(members: seq<Member>, key: string, removal: Removal, other: string)
    requires Distinct(Keys(members))
    ensures Get(Without(members, key, removal), other) == if other == key then None else Get(members, other)
  {
    var left := Without(members, key, removal);
    WithoutMembers(members, key, removal, Member(key, Other("")));
    if Get(left, other).Some? {
      WithoutMembers(members, key, removal, Member(other, Get(left, other).value));
      GetIffMember(left, other, Get(left, other).value);
      GetIffMember(members, other, Get(left, other).value);
    } else if Get(members, other).Some? {
      WithoutMembers(members, key, removal, Member(other, Get(members, other).value));
      GetIffMember(members, other, Get(members, other).value);
      GetIffMember(left, other, Get(members, other).value);
    }
  }
}
