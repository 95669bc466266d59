/** A config file that may be read, and whose rewritten form may not. */
module ConfigLimits {
  import opened Sequences
  import opened Texts
  import opened Json
  import opened ConfigFile

  // ----- how JSON is laid out

  function Quoted(key: string): (r: Bytes)
    ensures |r| == |key| + 2
  {
    [34] + Ascii(key) + [34]
  }

  /** A value on one line, without a space. */
  function Compact(value: Value): Bytes {
    match value
    case Other(text) => Ascii(text)
    case Object(members) => [123] + CompactMembers(members) + [125]
  }

  function CompactMembers(members: seq<Member>): Bytes {
    if members == [] then []
    else
      Quoted(members[0].key) + [58] + Compact(members[0].value)
      + (if |members| == 1 then [] else [44]) + CompactMembers(members[1..])
  }

  function Spaces(n: nat): (r: Bytes)
    ensures |r| == n
  {
    if n == 0 then [] else [32] + Spaces(n - 1)
  }

  /** A value with each member on a line of its own, two spaces further in than its object. */
  function Pretty(value: Value, indent: nat): Bytes {
    match value
    case Other(text) => Ascii(text)
    case Object(members) =>
      if members == [] then [123, 125]
      else [123, 10] + PrettyMembers(members, indent + 2) + Spaces(indent) + [125]
  }

  function PrettyMembers(members: seq<Member>, indent: nat): Bytes {
    if members == [] then []
    else
      Spaces(indent) + Quoted(members[0].key) + [58, 32] + Pretty(members[0].value, indent)
      + (if |members| == 1 then [10] else [44, 10]) + PrettyMembers(members[1..], indent)
  }

  /** Keys and texts that JSON writes as they are. */
  predicate IsPlain(value: Value) {
    match value
    case Other(text) => text == "0"
    case Object(members) => forall m :: m in members ==> IsPlainKey(m.key) && IsPlain(m.value)
  }

  predicate IsPlainKey(key: string) {
    forall k :: 0 <= k < |key| ==> 'a' <= key[k] <= 'z' || 'A' <= key[k] <= 'Z' || '0' <= key[k] <= '9'
  }

  /** The JSON library as the code uses it: it reads one-line text, and prints an indented one with a last line feed. */
  ghost predicate LaysOut(f: Format) {
    forall v :: Valid(v) && IsPlain(v) ==>
      f.parse(Compact(v)) == Some(v) && f.render(v) == Pretty(v, 0) + [10]
  }

  // ----- the file

  /** `n` members whose keys count up from `first`. */
  function Counted(first: nat, n: nat): (r: seq<Member>)
    ensures |r| == n
    ensures forall k :: 0 <= k < n ==> r[k] == Member(Decimal(first + k), Other("0"))
    decreases n
  {
    if n == 0 then [] else [Member(Decimal(first), Other("0"))] + Counted(first + 1, n - 1)
  }

  lemma FiveDigits(m: nat)
    requires 10_000 <= m < 100_000
    ensures |Decimal(m)| == 5
  {
    var a := m / 10;
    var b := a / 10;
    var c := b / 10;
    var d := c / 10;
    assert 1 <= d < 10 && |Decimal(d)| == 1;
    assert |Decimal(c)| == 2 && |Decimal(b)| == 3 && |Decimal(a)| == 4;
  }

  lemma {:induction false} DecimalIsPlain(m: nat)
    ensures IsPlainKey(Decimal(m))
  {
    if m >= 10 {
      DecimalIsPlain(m / 10);
    }
  }

  lemma CountedKey(first: nat, n: nat, k: nat)
    requires k < n
    ensures Keys(Counted(first, n))[k] == Decimal(first + k)
  {
  }

  lemma CountedKeysDiffer(first: nat, n: nat)
    ensures Distinct(Keys(Counted(first, n)))
  {
    var keys := Keys(Counted(first, n));
    forall i, j | 0 <= i < j < |keys| ensures keys[i] != keys[j] {
      CountedKey(first, n, i);
      CountedKey(first, n, j);
      DecimalsDiffer(first + i, first + j);
    }
  }

  lemma {:induction false} CountedMembersPlain(first: nat, n: nat)
    ensures forall m :: m in Counted(first, n) ==> IsPlainKey(m.key) && m.value == Other("0")
    decreases n
  {
    if n > 0 {
      DecimalIsPlain(first);
      CountedMembersPlain(first + 1, n - 1);
    }
  }

  lemma CountedIsPlain(first: nat, n: nat)
    ensures Valid(Object(Counted(first, n))) && IsPlain(Object(Counted(first, n)))
  {
    CountedKeysDiffer(first, n);
    CountedMembersPlain(first, n);
    assert Valid(Other("0")) && IsPlain(Other("0"));
  }

  /** On one line a counted member takes ten bytes, and on a line of its own at least fifteen. */
  lemma {:induction false} CountedLengths(first: nat, n: nat)
    requires 10_000 <= first && first + n <= 100_000
    ensures |CompactMembers(Counted(first, n))| <= 10 * n
    ensures |PrettyMembers(Counted(first, n), 4)| >= 15 * n
    decreases n
  {
    if n > 0 {
      FiveDigits(first);
      CountedLengths(first + 1, n - 1);
      assert Counted(first, n)[1..] == Counted(first + 1, n - 1);
    }
  }

  /** An indented object is longer than any of its members' values, indented once more. */
  lemma {:induction false} PrettyHoldsMember(members: seq<Member>, indent: nat, m: Member)
    requires m in members
    ensures |PrettyMembers(members, indent)| >= |Pretty(m.value, indent)|
    decreases |members|
  {
    if m != members[0] {
      PrettyHoldsMember(members[1..], indent, m);
    }
  }

  lemma EntryKeyIsPlain()
    ensures IsPlainKey(SLUGAUDIT) && |SLUGAUDIT| == 9
  {
  }

  predicate IsFine(value: Value) {
    Valid(value) && IsPlain(value)
  }

  lemma NoMembers()
    ensures IsFine(Object([])) && |Compact(Object([]))| == 2
  {
    assert ValidMembers([]);
  }

  lemma OneMember(key: string, value: Value)
    requires IsPlainKey(key) && IsFine(value)
    ensures IsFine(Object([Member(key, value)]))
    ensures |CompactMembers([Member(key, value)])| == |key| + 3 + |Compact(value)|
    ensures Get([Member(key, value)], key) == Some(value)
  {
    assert [Member(key, value)][1..] == [];
    assert |Keys([Member(key, value)])| == 1;
  }

  lemma TwoMembers(k1: string, v1: Value, k2: string, v2: Value)
    requires IsPlainKey(k1) && IsPlainKey(k2) && k1 != k2 && IsFine(v1) && IsFine(v2)
    ensures var members := [Member(k1, v1), Member(k2, v2)];
            && IsFine(Object(members))
            && |CompactMembers(members)| == |k1| + |k2| + 7 + |Compact(v1)| + |Compact(v2)|
            && Get(members, k1) == Some(v1) && Get(members, k2) == Some(v2)
            && forall v :: Put(members, k2, v) == [Member(k1, v1), Member(k2, v)]
  {
    var members := [Member(k1, v1), Member(k2, v2)];
    OneMember(k2, v2);
    assert members[1..] == [Member(k2, v2)] && members[1..][1..] == [];
    assert Keys(members)[0] == k1 && Keys(members)[1] == k2;
    forall v ensures Put(members, k2, v) == [Member(k1, v1), Member(k2, v)] {
      assert Put([Member(k2, v2)], k2, v) == [Member(k2, v)];
    }
  }

  /** Two short keys for the two members of a crowded root. */
  datatype Names = Names(others: string, section: string)

  predicate AreNames(names: Names) {
    && IsPlainKey(names.others) && IsPlainKey(names.section) && names.others != names.section
    && |names.others| <= 100 && |names.section| <= 100
  }

  /** `n` members under one key, and a section under the other. */
  function Crowd(names: Names, n: nat, section: Value): seq<Member> {
    [Member(names.others, Object(Counted(10_000, n))), Member(names.section, section)]
  }

  function EntryOnly(): seq<Member> {
    [Member(SLUGAUDIT, Object([]))]
  }

  lemma CrowdFacts(names: Names, n: nat, section: Value)
    requires AreNames(names) && IsFine(section)
    ensures var members := Crowd(names, n, section);
            && IsFine(Object(members))
            && |Compact(Object(members))| <= 211 + |CompactMembers(Counted(10_000, n))| + |Compact(section)|
            && Get(members, names.others) == Some(Object(Counted(10_000, n)))
            && Get(members, names.section) == Some(section)
            && forall v :: Put(members, names.section, v) == Crowd(names, n, v)
  {
    CountedIsPlain(10_000, n);
    TwoMembers(names.others, Object(Counted(10_000, n)), names.section, section);
  }

  lemma EntryFacts(removal: Removal)
    ensures IsFine(Object(EntryOnly())) && |Compact(Object(EntryOnly()))| == 16
    ensures Get(EntryOnly(), SLUGAUDIT) == Some(Object([]))
    ensures Put(EntryOnly(), SLUGAUDIT, Object([])) == EntryOnly()
    ensures Without(EntryOnly(), SLUGAUDIT, removal) == []
  {
    EntryKeyIsPlain();
    NoMembers();
    OneMember(SLUGAUDIT, Object([]));
    assert IndexOf(EntryOnly(), SLUGAUDIT) == 0;
  }

  lemma Laid(f: Format, value: Value)
    requires IsFormat(f) && LaysOut(f) && IsFine(value)
    ensures f.parse(Compact(value)) == Some(value) && !f.blank(Compact(value))
    ensures |f.render(value)| == |Pretty(value, 0)| + 1
  {
  }

  /** Any root that keeps the counted members prints past the cap. */
  lemma CrowdIsTooLong(f: Format, names: Names, n: nat, section: Value)
    requires IsFormat(f) && LaysOut(f) && AreNames(names) && n == 80_000 && IsFine(section)
    ensures |f.render(Object(Crowd(names, n, section)))| > MAX_FOREIGN_TEXT_BYTES
  {
    var root := Crowd(names, n, section);
    CrowdFacts(names, n, section);
    Laid(f, Object(root));
    assert Member(names.others, Object(Counted(10_000, n))) in root;
    PrettyHoldsMember(root, 2, Member(names.others, Object(Counted(10_000, n))));
    CountedLengths(10_000, n);
  }

  /** The crowded root with the entry in its section, on one line. */
  function CrowdedFile(names: Names, n: nat): Content {
    Regular(Compact(Object(Crowd(names, n, Object(EntryOnly())))))
  }

  lemma OneKey(members: seq<Member>, key: string, removal: Removal)
    ensures CarriesAny(members, [key]) <==> Carries(members, key)
    ensures ClearedAll(members, [key], removal) == Cleared(members, key, removal)
  {
    assert [key][0] == key && [key][1..] == [];
  }

  lemma CrowdCarries(names: Names, n: nat, removal: Removal)
    requires AreNames(names)
    ensures var members := Crowd(names, n, Object(EntryOnly()));
            && CarriesAny(members, [names.section]) && IsSection(members, names.section)
            && Connected(members, names.section, Object([])) == members
            && ClearedAll(members, [names.section], removal) == Crowd(names, n, Object([]))
  {
    EntryFacts(removal);
    CrowdFacts(names, n, Object(EntryOnly()));
    OneKey(Crowd(names, n, Object(EntryOnly())), names.section, removal);
  }

  /** A file within the cap is loaded and checked as what it parses to. */
  lemma ReadsAs(f: Format, bytes: Bytes, members: seq<Member>, keys: seq<string>)
    requires |bytes| <= MAX_FOREIGN_TEXT_BYTES && !f.blank(bytes) && f.parse(bytes) == Some(Object(members))
    ensures Load(f, Regular(bytes), ALL_WORK) == Ok(Object(members))
    ensures HasSlugaudit(f, Regular(bytes), keys, ALL_WORK) == Ok(CarriesAny(members, keys))
  {
  }

  /** The crowded file is within the cap, and the entry is found in it. */
  lemma CrowdedIsRead(f: Format, names: Names, n: nat)
    requires IsFormat(f) && LaysOut(f) && AreNames(names) && n == 80_000
    ensures Load(f, CrowdedFile(names, n), ALL_WORK) == Ok(Object(Crowd(names, n, Object(EntryOnly()))))
    ensures HasSlugaudit(f, CrowdedFile(names, n), [names.section], ALL_WORK) == Ok(true)
  {
    var members := Crowd(names, n, Object(EntryOnly()));
    EntryFacts(f.removal);
    CrowdFacts(names, n, Object(EntryOnly()));
    CountedLengths(10_000, n);
    Laid(f, Object(members));
    CrowdCarries(names, n, f.removal);
    ReadsAs(f, CrowdedFile(names, n).bytes, members, [names.section]);
  }

  lemma ConnectPastCap(f: Format, content: Content, members: seq<Member>, section: string, entry: Value, keys: seq<string>)
    requires Load(f, content, ALL_WORK) == Ok(Object(members)) && IsSection(members, section)
    requires |f.render(Object(Connected(members, section, entry)))| > MAX_FOREIGN_TEXT_BYTES
    ensures var (after, outcome) := Applied(f, content, Connect(section, entry), ALL_WORK);
            outcome == Ok(true) && HasSlugaudit(f, after, keys, ALL_WORK) == Err(TooLarge)
  {
  }

  lemma DisconnectPastCap(f: Format, content: Content, members: seq<Member>, keys: seq<string>)
    requires Load(f, content, ALL_WORK) == Ok(Object(members)) && !content.Absent? && CarriesAny(members, keys)
    requires |f.render(Object(ClearedAll(members, keys, f.removal)))| > MAX_FOREIGN_TEXT_BYTES
    ensures var (after, outcome) := Applied(f, content, Disconnect(keys), ALL_WORK);
            outcome == Ok(true) && HasSlugaudit(f, after, keys, ALL_WORK) == Err(TooLarge)
  {
  }

  /** Connecting it again succeeds, and leaves a file past the cap: the check fails. */
  lemma CrowdedConnect(f: Format, names: Names, n: nat)
    requires IsFormat(f) && LaysOut(f) && AreNames(names) && n == 80_000
    ensures var (after, outcome) := Applied(f, CrowdedFile(names, n), Connect(names.section, Object([])), ALL_WORK);
            outcome == Ok(true) && HasSlugaudit(f, after, [names.section], ALL_WORK) == Err(TooLarge)
  {
    var members := Crowd(names, n, Object(EntryOnly()));
    CrowdedIsRead(f, names, n);
    CrowdCarries(names, n, f.removal);
    EntryFacts(f.removal);
    CrowdIsTooLong(f, names, n, Object(EntryOnly()));
    ConnectPastCap(f, CrowdedFile(names, n), members, names.section, Object([]), [names.section]);
  }

  /** Disconnecting it succeeds too, and leaves a file past the cap as well. */
  lemma CrowdedDisconnect(f: Format, names: Names, n: nat)
    requires IsFormat(f) && LaysOut(f) && AreNames(names) && n == 80_000
    ensures var (after, outcome) := Applied(f, CrowdedFile(names, n), Disconnect([names.section]), ALL_WORK);
            outcome == Ok(true) && HasSlugaudit(f, after, [names.section], ALL_WORK) == Err(TooLarge)
  {
    var members := Crowd(names, n, Object(EntryOnly()));
    CrowdedIsRead(f, names, n);
    CrowdCarries(names, n, f.removal);
    NoMembers();
    CrowdIsTooLong(f, names, n, Object([]));
    DisconnectPastCap(f, CrowdedFile(names, n), members, [names.section]);
  }
}
