/** What any sequence of connects and disconnects keeps of a client's config. */
module ConfigFacts {
  import opened Sequences
  import opened Json
  import opened ConfigFile

  // ----- one edit

  /** Everything in a section but the entry, and a section that is no object, is the same. */
  ghost predicate SameEntries(a: Option<Value>, b: Option<Value>) {
    && (forall e :: e != SLUGAUDIT ==> Get(SectionOf(a), e) == Get(SectionOf(b), e))
    && ((a.Some? && !a.value.Object?) || (b.Some? && !b.value.Object?) ==> a == b)
  }

  /** Every key but the sections keeps its value, and each section its other entries. */
  ghost predicate SameOthers(a: seq<Member>, b: seq<Member>, sections: set<string>) {
    forall k ::
      if k in sections then SameEntries(Get(a, k), Get(b, k)) else Get(a, k) == Get(b, k)
  }

  lemma SectionIsValid(members: seq<Member>, key: string)
    requires ValidMembers(members)
    ensures ValidMembers(SectionOf(Get(members, key)))
  {
    if Get(members, key).Some? {
      GetIsMember(members, key);
    }
  }

  /** A connect puts the entry into its section and disturbs nothing else, nor any key's place. */
  lemma ConnectMerges(members: seq<Member>, section: string, entry: Value)
    requires ValidMembers(members) && Valid(entry) && IsSection(members, section)
    ensures var after := Connected(members, section, entry);
            && ValidMembers(after)
            && SameOthers(members, after, {section})
            && Get(SectionOf(Get(after, section)), SLUGAUDIT) == Some(entry)
            && Keys(members) <= Keys(after)
            && Keys(SectionOf(Get(members, section))) <= Keys(SectionOf(Get(after, section)))
  {
    var inner := SectionOf(Get(members, section));
    var merged := Put(inner, SLUGAUDIT, entry);
    SectionIsValid(members, section);
    PutKeepsValid(inner, SLUGAUDIT, entry);
    PutKeepsValid(members, section, Object(merged));
    PutKeepsOrder(inner, SLUGAUDIT, entry);
    PutKeepsOrder(members, section, Object(merged));
    forall k ensures Get(Connected(members, section, entry), k) == if k == section then Some(Object(merged)) else Get(members, k) {
      PutGets(members, section, Object(merged), k);
    }
    forall e ensures Get(merged, e) == if e == SLUGAUDIT then Some(entry) else Get(inner, e) {
      PutGets(inner, SLUGAUDIT, entry, e);
    }
  }

  lemma ClearOne(members: seq<Member>, key: string, removal: Removal)
    requires ValidMembers(members)
    ensures var after := Cleared(members, key, removal);
            && ValidMembers(after) && SameOthers(members, after, {key})
            && forall k :: Carries(after, k) <==> Carries(members, k) && k != key
  {
    if Carries(members, key) {
      var inner := SectionOf(Get(members, key));
      var left := Without(inner, SLUGAUDIT, removal);
      SectionIsValid(members, key);
      forall m ensures m in left <==> m in inner && m.key != SLUGAUDIT {
        WithoutMembers(inner, SLUGAUDIT, removal, m);
      }
      LeftIsDistinct(inner, SLUGAUDIT, removal);
      assert ValidMembers(left);
      PutKeepsValid(members, key, Object(left));
      forall k ensures Get(Cleared(members, key, removal), k) == if k == key then Some(Object(left)) else Get(members, k) {
        PutGets(members, key, Object(left), k);
      }
      forall e ensures Get(left, e) == if e == SLUGAUDIT then None else Get(inner, e) {
        WithoutGets(inner, SLUGAUDIT, removal, e);
      }
    }
  }

  lemma SameOthersTransitive(a: seq<Member>, b: seq<Member>, c: seq<Member>, s: set<string>, t: set<string>)
    requires SameOthers(a, b, s) && SameOthers(b, c, t)
    ensures SameOthers(a, c, s + t)
  {
    forall k ensures if k in s + t then SameEntries(Get(a, k), Get(c, k)) else Get(a, k) == Get(c, k) {
      assert if k in s then SameEntries(Get(a, k), Get(b, k)) else Get(a, k) == Get(b, k);
      assert if k in t then SameEntries(Get(b, k), Get(c, k)) else Get(b, k) == Get(c, k);
    }
  }

  /** A disconnect takes the entry out of every section it names and disturbs nothing else. */
  lemma {:induction false} DisconnectClears(members: seq<Member>, keys: seq<string>, removal: Removal)
    requires ValidMembers(members)
    ensures var after := ClearedAll(members, keys, removal);
            && ValidMembers(after) && SameOthers(members, after, set k | k in keys)
            && forall k :: Carries(after, k) <==> Carries(members, k) && k !in keys
    decreases |keys|
  {
    if keys != [] {
      var next := Cleared(members, keys[0], removal);
      ClearOne(members, keys[0], removal);
      DisconnectClears(next, keys[1..], removal);
      SameOthersTransitive(members, next, ClearedAll(next, keys[1..], removal), {keys[0]}, set k | k in keys[1..]);
      assert (set k | k in keys) == {keys[0]} + set k | k in keys[1..];
      assert forall k :: k in keys <==> k == keys[0] || k in keys[1..];
    }
  }

  // ----- calls on the file

  /** The root a file holds, its size aside; an absent or blank file counts as empty. */
  function Root(f: Format, content: Content): Option<Value> {
    match content
    case Absent => Some(Object([]))
    case Irregular => None
    case Regular(bytes) => if f.blank(bytes) then Some(Object([])) else f.parse(bytes)
  }

  /** The sections a call works on, and whether what it merges is JSON. */
  function Sections(op: Op): set<string> {
    match op
    case Connect(section, _) => {section}
    case Disconnect(keys) => set k | k in keys
  }

  predicate ValidOp(op: Op) {
    op.Connect? ==> Valid(op.entry)
  }

  /** A call that fails, or reports that it changed nothing, leaves the bytes as they were. */
  lemma NoChangeKeepsBytes(f: Format, content: Content, op: Op, access: Access)
    ensures var (after, outcome) := Applied(f, content, op, access);
            outcome != Ok(true) ==> after == content
  {
  }

  lemma RootIsValid(f: Format, content: Content)
    requires IsFormat(f) && Root(f, content).Some?
    ensures Valid(Root(f, content).value)
  {
    assert ValidMembers([]);
  }

  lemma EditKeepsOthers(f: Format, root: Value, op: Op)
    requires root.Object? && Valid(root) && ValidOp(op)
    requires Edited(f, root, op).Ok? && Edited(f, root, op).value.Some?
    ensures var after := Edited(f, root, op).value.value;
            after.Object? && Valid(after) && SameOthers(root.members, after.members, Sections(op))
  {
    match op
    case Connect(section, entry) => ConnectMerges(root.members, section, entry);
    case Disconnect(keys) => DisconnectClears(root.members, keys, f.removal);
  }

  lemma CallKeepsOthers(f: Format, content: Content, op: Op, access: Access)
    requires IsFormat(f) && ValidOp(op)
    requires Root(f, content).Some? && Root(f, content).value.Object?
    ensures var after := Applied(f, content, op, access).0;
            && Root(f, after).Some? && Root(f, after).value.Object?
            && SameOthers(Root(f, content).value.members, Root(f, after).value.members, Sections(op))
  {
    var (after, outcome) := Applied(f, content, op, access);
    if outcome == Ok(true) {
      RootIsValid(f, content);
      EditKeepsOthers(f, Root(f, content).value, op);
      var root := Edited(f, Root(f, content).value, op).value.value;
      assert f.parse(f.render(root)) == Some(root);
    }
  }

  /** A run of calls, each with its own luck. */
  function Calls(f: Format, content: Content, ops: seq<(Op, Access)>): Content
    decreases |ops|
  {
    if ops == [] then content else Calls(f, Applied(f, content, ops[0].0, ops[0].1).0, ops[1..])
  }

  predicate AllWithin(ops: seq<(Op, Access)>, sections: set<string>) {
    forall k :: 0 <= k < |ops| ==> ValidOp(ops[k].0) && Sections(ops[k].0) <= sections
  }

  lemma SameOthersWidens(a: seq<Member>, b: seq<Member>, s: set<string>, t: set<string>)
    requires SameOthers(a, b, s) && s <= t
    ensures SameOthers(a, b, t)
  {
    forall k ensures if k in t then SameEntries(Get(a, k), Get(b, k)) else Get(a, k) == Get(b, k) {
      assert if k in s then SameEntries(Get(a, k), Get(b, k)) else Get(a, k) == Get(b, k);
    }
  }

  /** Over any sequence of calls, every other key and every other server's entry keeps its value. */
  lemma {:induction false} CallsKeepOthers(f: Format, content: Content, ops: seq<(Op, Access)>, sections: set<string>)
    requires IsFormat(f) && AllWithin(ops, sections)
    requires Root(f, content).Some? && Root(f, content).value.Object?
    ensures var after := Calls(f, content, ops);
            && Root(f, after).Some? && Root(f, after).value.Object?
            && SameOthers(Root(f, content).value.members, Root(f, after).value.members, sections)
    decreases |ops|
  {
    if ops != [] {
      var next := Applied(f, content, ops[0].0, ops[0].1).0;
      CallKeepsOthers(f, content, ops[0].0, ops[0].1);
      CallsKeepOthers(f, next, ops[1..], sections);
      var a, b := Root(f, content).value.members, Root(f, next).value.members;
      var c := Root(f, Calls(f, next, ops[1..])).value.members;
      SameOthersWidens(a, b, Sections(ops[0].0), sections);
      SameOthersTransitive(a, b, c, sections, sections);
      assert sections + sections == sections;
    }
  }

  // ----- what is found afterwards

  /** A call that succeeds is one in which every file operation it needed worked. */
  lemma SuccessNeedsAccess(f: Format, content: Content, op: Op, access: Access)
    requires Applied(f, content, op, access).1.Ok?
    ensures Applied(f, content, op, access) == Applied(f, content, op, ALL_WORK)
  {
  }

  /** The text a connect writes: the loaded root with the entry merged in. */
  function MergedText(f: Format, content: Content, section: string, entry: Value): Bytes
    requires Load(f, content, ALL_WORK).Ok? && Load(f, content, ALL_WORK).value.Object?
  {
    f.render(Object(Connected(Load(f, content, ALL_WORK).value.members, section, entry)))
  }

  /** A readable root, an object, whose section can take the entry. */
  predicate CanMerge(f: Format, content: Content, section: string) {
    var root := Load(f, content, ALL_WORK);
    root.Ok? && root.value.Object? && IsSection(root.value.members, section)
  }

  /** A write with every file operation working succeeds on those and on no others. */
  lemma WriteSucceedsIff(f: Format, content: Content, section: string, entry: Value)
    ensures Applied(f, content, Connect(section, entry), ALL_WORK).1 == Ok(true) <==> CanMerge(f, content, section)
  {
  }

  /** After a write the entry is found exactly when the merged root prints within the cap that reads have. */
  lemma FoundAfterWrite(f: Format, content: Content, section: string, entry: Value, keys: seq<string>)
    requires IsFormat(f) && Valid(entry) && section in keys && CanMerge(f, content, section)
    ensures Applied(f, content, Connect(section, entry), ALL_WORK).1 == Ok(true)
    ensures var after := Applied(f, content, Connect(section, entry), ALL_WORK).0;
            HasSlugaudit(f, after, keys, ALL_WORK) ==
            (if |MergedText(f, content, section, entry)| <= MAX_FOREIGN_TEXT_BYTES then Ok(true) else Err(TooLarge))
  {
    var root := Load(f, content, ALL_WORK).value;
    RootIsValid(f, content);
    ConnectMerges(root.members, section, entry);
    var merged := Object(Connected(root.members, section, entry));
    assert f.parse(f.render(merged)) == Some(merged);
    var k :| 0 <= k < |keys| && keys[k] == section;
    assert Carries(merged.members, keys[k]);
  }

  /** A disconnect rewrites the file exactly when some named section carried the entry. */
  lemma RemovedIffCarried(f: Format, content: Content, keys: seq<string>, access: Access)
    requires Applied(f, content, Disconnect(keys), access).1.Ok?
    requires !(access.canStat && content.Absent?)
    ensures var root := Load(f, content, access).value;
            Applied(f, content, Disconnect(keys), access).1 == Ok(true)
            <==> root.Object? && CarriesAny(root.members, keys)
  {
  }

  /** What a check finds after a disconnect of `content`, told from `content` alone. */
  function FoundAfterDisconnect(f: Format, content: Content, keys: seq<string>): Result<bool, ConfigError>
    requires Load(f, content, ALL_WORK).Ok?
  {
    var root := Load(f, content, ALL_WORK).value;
    if root.Object? && CarriesAny(root.members, keys) then
      if |f.render(Object(ClearedAll(root.members, keys, f.removal)))| > MAX_FOREIGN_TEXT_BYTES then Err(TooLarge) else Ok(false)
    else if content.Regular? && f.blank(content.bytes) then Err(InvalidConfig)
    else Ok(false)
  }

  /**
   * After a disconnect the entry is not found under the same sections. The check fails
   * instead exactly where the cleared root prints over the cap, or the file was blank, which
   * a disconnect accepts and a check calls malformed.
   */
  lemma NotFoundAfterRemove(f: Format, content: Content, keys: seq<string>)
    requires IsFormat(f) && Load(f, content, ALL_WORK).Ok?
    ensures Applied(f, content, Disconnect(keys), ALL_WORK).1.Ok?
    ensures HasSlugaudit(f, Applied(f, content, Disconnect(keys), ALL_WORK).0, keys, ALL_WORK)
         == FoundAfterDisconnect(f, content, keys)
  {
    var root := Load(f, content, ALL_WORK).value;
    if Applied(f, content, Disconnect(keys), ALL_WORK).1 == Ok(true) {
      RootIsValid(f, content);
      DisconnectClears(root.members, keys, f.removal);
      var cleared := Object(ClearedAll(root.members, keys, f.removal));
      assert f.parse(f.render(cleared)) == Some(cleared);
    }
  }

  /** An empty file: a disconnect succeeds on it, and a check afterwards fails. */
  lemma EmptyFileCannotBeChecked(f: Format, keys: seq<string>)
    requires IsFormat(f)
    ensures Applied(f, Regular([]), Disconnect(keys), ALL_WORK) == (Regular([]), Ok(false))
    ensures HasSlugaudit(f, Regular([]), keys, ALL_WORK) == Err(InvalidConfig)
  {
  }
}
