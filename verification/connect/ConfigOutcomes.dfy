/** How a connect, a disconnect and a check end, told from the content of the file alone. */
module ConfigOutcomes {
  import opened Sequences
  import opened Json
  import opened ConfigFile
  import opened ConfigFacts

  /** The text of a file that holds one entry and nothing else. */
  function OneEntry(f: Format, section: string, entry: Value): Bytes {
    f.render(Object([Member(section, Object([Member("slugaudit", entry)]))]))
  }

  /** No file, or one with nothing in it that is small enough to read. */
  predicate IsEmpty(f: Format, content: Content) {
    content.Absent? || (content.Regular? && |content.bytes| <= 1_048_576 && f.blank(content.bytes))
  }

  /** A file small enough to read whose text is JSON. */
  predicate Holds(f: Format, content: Content, root: Value) {
    content.Regular? && |content.bytes| <= 1_048_576 && !f.blank(content.bytes) && f.parse(content.bytes) == Some(root)
  }

  /** The first connect of a client, whether or not its file is there yet, writes exactly the entry. */
  lemma FirstConnect(f: Format, content: Content, section: string, entry: Value, access: Access)
    requires IsEmpty(f, content) && access.canStat && access.canWrite && (content.Regular? ==> access.canRead)
    ensures Applied(f, content, Connect(section, entry), access) == (Regular(OneEntry(f, section, entry)), Ok(true))
  {
    assert Put([], SLUGAUDIT, entry) == [Member("slugaudit", entry)];
    assert Connected([], section, entry) == [Member(section, Object([Member("slugaudit", entry)]))];
  }

  /** An object whose member of that name, if it has one, is an object too. */
  predicate TakesEntry(root: Value, section: string) {
    root.Object? && forall m :: m in root.members && m.key == section ==> m.value.Object?
  }

  lemma TakesIffSection(root: Value, section: string)
    requires Valid(root) && root.Object?
    ensures TakesEntry(root, section) <==> IsSection(root.members, section)
  {
    if Get(root.members, section).Some? {
      GetIsMember(root.members, section);
    }
    forall m | m in root.members && m.key == section ensures Get(root.members, section) == Some(m.value) {
      GetIffMember(root.members, section, m.value);
    }
  }

  /** What a connect leaves of a parsed file: the entry where it belongs, and everything else as it was. */
  ghost predicate IsMergeOf(f: Format, after: Content, root: Value, section: string, entry: Value)
    requires root.Object?
  {
    && after.Regular? && f.parse(after.bytes).Some? && f.parse(after.bytes).value.Object?
    && var members := f.parse(after.bytes).value.members;
       && SameOthers(root.members, members, {section})
       && Get(SectionOf(Get(members, section)), "slugaudit") == Some(entry)
       && Keys(root.members) <= Keys(members)
  }

  /** A connect to a file of JSON merges the entry, or refuses a root or a section that cannot take it. */
  lemma ConnectToParsed(f: Format, content: Content, root: Value, section: string, entry: Value)
    requires IsFormat(f) && Valid(entry) && Holds(f, content, root)
    ensures var (after, outcome) := Applied(f, content, Connect(section, entry), ALL_WORK);
            if TakesEntry(root, section) then outcome == Ok(true) && IsMergeOf(f, after, root, section, entry)
            else after == content && outcome == Err(if root.Object? then SectionNotAnObject else RootNotAnObject)
  {
    assert Valid(root);
    if root.Object? {
      TakesIffSection(root, section);
      if TakesEntry(root, section) {
        ConnectMerges(root.members, section, entry);
        var merged := Object(Connected(root.members, section, entry));
        assert f.parse(f.render(merged)) == Some(merged);
      }
    }
  }

  /** A file that no call reads, and why. */
  function Refusal(f: Format, content: Content): Option<ConfigError> {
    match content
    case Irregular => Some(NotRegular)
    case Absent => None
    case Regular(bytes) =>
      if |bytes| > 1_048_576 then Some(TooLarge)
      else if !f.blank(bytes) && f.parse(bytes).None? then Some(InvalidConfig)
      else None
  }

  /** A file that is irregular, too large or malformed is refused by either call, and left alone. */
  lemma UnreadableIsRefused(f: Format, content: Content, op: Op)
    requires Refusal(f, content).Some?
    ensures Applied(f, content, op, ALL_WORK) == (content, Err(Refusal(f, content).value))
  {
  }

  /** Every file is empty, or holds a value, or is refused, and no two of these. */
  lemma EveryContent(f: Format, content: Content)
    ensures IsEmpty(f, content) || Refusal(f, content).Some? || exists root :: Holds(f, content, root)
    ensures Refusal(f, content).Some? ==> !IsEmpty(f, content) && forall root :: !Holds(f, content, root)
  {
    if content.Regular? && !IsEmpty(f, content) && Refusal(f, content).None? {
      assert Holds(f, content, f.parse(content.bytes).value);
    }
  }

  /** A connect succeeds exactly on an empty file, and on one whose root can take the entry. */
  lemma ConnectSucceedsIff(f: Format, content: Content, section: string, entry: Value)
    requires IsFormat(f) && Valid(entry)
    ensures Applied(f, content, Connect(section, entry), ALL_WORK).1 == Ok(true) <==>
            IsEmpty(f, content) || exists root :: Holds(f, content, root) && TakesEntry(root, section)
  {
    EveryContent(f, content);
    if IsEmpty(f, content) {
      FirstConnect(f, content, section, entry, ALL_WORK);
    } else if Refusal(f, content).Some? {
      UnreadableIsRefused(f, content, Connect(section, entry));
    } else {
      var root :| Holds(f, content, root);
      ConnectToParsed(f, content, root, section, entry);
    }
  }

  // ----- disconnects

  /** A section that is an object with an entry in it. */
  predicate HoldsEntry(section: Value) {
    section.Object? && exists e :: e in section.members && e.key == "slugaudit"
  }

  /** Some section named in `keys` holds an entry. */
  predicate HasEntry(root: Value, keys: seq<string>) {
    root.Object? && exists m :: m in root.members && m.key in keys && HoldsEntry(m.value)
  }

  lemma HoldsIffCarries(members: seq<Member>, m: Member)
    requires ValidMembers(members) && m in members
    ensures HoldsEntry(m.value) <==> Carries(members, m.key)
  {
    GetIffMember(members, m.key, m.value);
    if m.value.Object? {
      var inner := m.value.members;
      assert Valid(m.value) && ValidMembers(inner);
      if Get(inner, SLUGAUDIT).Some? {
        GetIsMember(inner, SLUGAUDIT);
      }
      forall e | e in inner && e.key == "slugaudit" ensures Get(inner, SLUGAUDIT).Some? {
        GetIffMember(inner, SLUGAUDIT, e.value);
      }
    }
  }

  lemma HasIffCarries(root: Value, keys: seq<string>)
    requires Valid(root) && root.Object?
    ensures HasEntry(root, keys) <==> CarriesAny(root.members, keys)
  {
    if m :| m in root.members && m.key in keys && HoldsEntry(m.value) {
      HoldsIffCarries(root.members, m);
      var k :| 0 <= k < |keys| && keys[k] == m.key;
      assert Carries(root.members, keys[k]);
    }
    if k :| 0 <= k < |keys| && Carries(root.members, keys[k]) {
      GetIsMember(root.members, keys[k]);
      HoldsIffCarries(root.members, Member(keys[k], Get(root.members, keys[k]).value));
    }
  }

  /** A disconnect fails on no file but one that is refused, and finds nothing in an empty one. */
  lemma DisconnectSucceedsIff(f: Format, content: Content, keys: seq<string>)
    ensures Applied(f, content, Disconnect(keys), ALL_WORK).1.Ok? <==> Refusal(f, content).None?
    ensures IsEmpty(f, content) ==> Applied(f, content, Disconnect(keys), ALL_WORK) == (content, Ok(false))
  {
    assert !CarriesAny([], keys);
  }

  /** From a file of JSON it takes the entry wherever a named section has it, and else changes nothing. */
  lemma DisconnectFromParsed(f: Format, content: Content, root: Value, keys: seq<string>)
    requires IsFormat(f) && Holds(f, content, root)
    ensures var (after, outcome) := Applied(f, content, Disconnect(keys), ALL_WORK);
            if HasEntry(root, keys) then
              && outcome == Ok(true) && after.Regular? && f.parse(after.bytes).Some? && f.parse(after.bytes).value.Object?
              && !HasEntry(f.parse(after.bytes).value, keys)
              && SameOthers(root.members, f.parse(after.bytes).value.members, set k | k in keys)
            else (after, outcome) == (content, Ok(false))
  {
    assert Valid(root);
    if root.Object? {
      HasIffCarries(root, keys);
      if HasEntry(root, keys) {
        DisconnectClears(root.members, keys, f.removal);
        var cleared := Object(ClearedAll(root.members, keys, f.removal));
        assert f.parse(f.render(cleared)) == Some(cleared);
        HasIffCarries(cleared, keys);
      }
    }
  }

  // ----- checks

  /** The entry is found exactly in a file of JSON with one under a named section. */
  lemma FoundIff(f: Format, content: Content, keys: seq<string>)
    requires IsFormat(f)
    ensures HasSlugaudit(f, content, keys, ALL_WORK) == Ok(true) <==>
            exists root :: Holds(f, content, root) && HasEntry(root, keys)
  {
    if content.Regular? && f.parse(content.bytes).Some? {
      var root := f.parse(content.bytes).value;
      assert Valid(root);
      if root.Object? {
        HasIffCarries(root, keys);
      }
      assert |content.bytes| <= 1_048_576 ==> Holds(f, content, root);
    }
  }

  /** A check of a refused file fails as a call on it does, and of a blank one as malformed. */
  lemma CheckFailsIff(f: Format, content: Content, keys: seq<string>)
    requires IsFormat(f)
    ensures HasSlugaudit(f, content, keys, ALL_WORK).Err? <==>
            Refusal(f, content).Some? || (content.Regular? && f.blank(content.bytes))
    ensures Refusal(f, content).Some? ==> HasSlugaudit(f, content, keys, ALL_WORK) == Err(Refusal(f, content).value)
  {
  }

  // ----- file operations that fail

  /** Which file operations a call on `content` needs, and has. */
  predicate Suffices(access: Access, content: Content) {
    access.canStat && (content.Regular? ==> access.canRead)
  }

  /** A call that cannot look at its file, or cannot replace it, fails and leaves it alone. */
  lemma FailingAccess(f: Format, content: Content, op: Op, keys: seq<string>, access: Access)
    ensures !access.canStat ==> Applied(f, content, op, access) == (content, Err(Io))
    ensures content.Regular? && !access.canRead ==> Applied(f, content, op, access) == (content, Err(Io))
    ensures Suffices(access, content) ==>
              Applied(f, content, op, access) ==
              (if Applied(f, content, op, ALL_WORK).1 == Ok(true) && !access.canWrite then (content, Err(Io))
               else Applied(f, content, op, ALL_WORK))
    ensures HasSlugaudit(f, content, keys, access)
         == if Suffices(access, content) then HasSlugaudit(f, content, keys, ALL_WORK) else Err(Io)
  {
  }
}
