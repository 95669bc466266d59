/** Merging one entry into a client's JSON config, and taking it out again. */
module ConfigFile {
  import opened Sequences
  import opened Json

  const SLUGAUDIT: string := "slugaudit"

  /** The most a foreign text file may hold to be read. */
  const MAX_FOREIGN_TEXT_BYTES: nat := 0x10_0000

  datatype Content = Absent | Irregular | Regular(bytes: Bytes)

  datatype ConfigError = Io | NotRegular | TooLarge | InvalidConfig | RootNotAnObject | SectionNotAnObject

  /** Which of a call's file operations work. */
  datatype Access = Access(canStat: bool, canRead: bool, canWrite: bool)

  const ALL_WORK: Access := Access(true, true, true)

  /** The JSON library: reading, pretty-printing, and which texts are blank. */
  datatype Format = Format(parse: Bytes -> Option<Value>, render: Value -> Bytes, blank: Bytes -> bool, removal: Removal)

  /** Printing round-trips, objects have distinct keys, a blank text is no JSON, and no text is blank. */
  ghost predicate IsFormat(f: Format) {
    && (forall v :: Valid(v) ==> f.parse(f.render(v)) == Some(v))
    && (forall b :: f.parse(b).Some? ==> Valid(f.parse(b).value) && !f.blank(b))
    && f.blank([])
  }

  // ----- reading

  function Load(f: Format, content: Content, access: Access): Result<Value, ConfigError> {
    if !access.canStat then Err(Io)
    else
      match content
      case Irregular => Err(NotRegular)
      case Absent => Ok(Object([]))
      case Regular(bytes) =>
        if !access.canRead then Err(Io)
        else if |bytes| > MAX_FOREIGN_TEXT_BYTES then Err(TooLarge)
        else if f.blank(bytes) then Ok(Object([]))
        else if f.parse(bytes).None? then Err(InvalidConfig)
        else Ok(f.parse(bytes).value)
  }

  /** The members of a section; a missing one, or one that is no object, has none. */
  function SectionOf(section: Option<Value>): seq<Member> {
    if section.Some? && section.value.Object? then section.value.members else []
  }

  predicate Carries(members: seq<Member>, key: string) {
    Get(SectionOf(Get(members, key)), SLUGAUDIT).Some?
  }

  predicate CarriesAny(members: seq<Member>, keys: seq<string>) {
    exists k :: 0 <= k < |keys| && Carries(members, keys[k])
  }

  /** Whether any section named in `keys` carries the entry. Unlike `Load`, a blank file is malformed here. */
  function HasSlugaudit(f: Format, content: Content, keys: seq<string>, access: Access): Result<bool, ConfigError> {
    if !access.canStat then Err(Io)
    else
      match content
      case Irregular => Err(NotRegular)
      case Absent => Ok(false)
      case Regular(bytes) =>
        if !access.canRead then Err(Io)
        else if |bytes| > MAX_FOREIGN_TEXT_BYTES then Err(TooLarge)
        else
          match f.parse(bytes)
          case None => Err(InvalidConfig)
          case Some(Object(members)) => Ok(CarriesAny(members, keys))
          case Some(Other(_)) => Ok(false)
  }

  // ----- the edits

  predicate IsSection(members: seq<Member>, section: string) {
    Get(members, section).None? || Get(members, section).value.Object?
  }

  function Connected(members: seq<Member>, section: string, entry: Value): seq<Member> {
    Put(members, section, Object(Put(SectionOf(Get(members, section)), SLUGAUDIT, entry)))
  }

  function Cleared(members: seq<Member>, key: string, removal: Removal): seq<Member> {
    if Carries(members, key)
    then Put(members, key, Object(Without(SectionOf(Get(members, key)), SLUGAUDIT, removal)))
    else members
  }

  function ClearedAll(members: seq<Member>, keys: seq<string>, removal: Removal): seq<Member>
    decreases |keys|
  {
    if keys == [] then members else ClearedAll(Cleared(members, keys[0], removal), keys[1..], removal)
  }

  datatype Op = Connect(section: string, entry: Value) | Disconnect(keys: seq<string>)

  /** What a call makes of the root it loaded, if it changes it. */
  function Edited(f: Format, root: Value, op: Op): Result<Option<Value>, ConfigError> {
    match op
    case Connect(section, entry) =>
      if !root.Object? then Err(RootNotAnObject)
      else if !IsSection(root.members, section) then Err(SectionNotAnObject)
      else Ok(Some(Object(Connected(root.members, section, entry))))
    case Disconnect(keys) =>
      if root.Object? && CarriesAny(root.members, keys)
      then Ok(Some(Object(ClearedAll(root.members, keys, f.removal))))
      else Ok(None)
  }

  /** The file after a call, and what the call reports: whether it rewrote the file. */
  function Applied(f: Format, content: Content, op: Op, access: Access): (Content, Result<bool, ConfigError>) {
    if op.Disconnect? && access.canStat && content.Absent? then (content, Ok(false))
    else
      match Load(f, content, access)
      case Err(error) => (content, Err(error))
      case Ok(root) =>
        match Edited(f, root, op)
        case Err(error) => (content, Err(error))
        case Ok(None) => (content, Ok(false))
        case Ok(Some(after)) =>
          if access.canWrite then (Regular(f.render(after)), Ok(true)) else (content, Err(Io))
  }

  // ----- the file

  class Config {
    const format: Format
    var content: Content

    constructor (format: Format, content: Content)
      ensures this.format == format && this.content == content
    {
      this.format := format;
      this.content := content;
    }

    /** The atomic replacement: all of `root`'s text, or no change. */
    method Replace(root: Value, access: Access) returns (written: bool)
      modifies this
      ensures written == access.canWrite
      ensures content == if written then Regular(format.render(root)) else old(content)
    {
      written := access.canWrite;
      if written {
        content := Regular(format.render(root));
      }
    }

    /** Merges the entry into `section` of a file that can be parsed; refuses anything else. */
    method WriteJsonServer(section: string, entry: Value, access: Access) returns (outcome: Result<bool, ConfigError>)
      modifies this
      ensures (content, outcome) == Applied(format, old(content), Connect(section, entry), access)
    {
      var loaded := Load(format, content, access);
      if loaded.Err? {
        return Err(loaded.error);
      }
      if !loaded.value.Object? {
        return Err(RootNotAnObject);
      }
      var root := loaded.value.members;
      if Get(root, section).None? {
        PutTwice(root, section, Object([]), Object(Put([], SLUGAUDIT, entry)));
        PutGets(root, section, Object([]), section);
        root := Put(root, section, Object([]));
      }
      var inner := Get(root, section).value;
      if !inner.Object? {
        return Err(SectionNotAnObject);
      }
      root := Put(root, section, Object(Put(inner.members, SLUGAUDIT, entry)));
      var written := Replace(Object(root), access);
      outcome := if written then Ok(true) else Err(Io);
    }

    /** Removes the entry from every section in `keys`; a file without it is not rewritten. */
    method RemoveJsonSlugaudit(keys: seq<string>, access: Access) returns (outcome: Result<bool, ConfigError>)
      modifies this
      ensures (content, outcome) == Applied(format, old(content), Disconnect(keys), access)
    {
      if access.canStat && content.Absent? {
        return Ok(false);
      }
      var loaded := Load(format, content, access);
      if loaded.Err? {
        return Err(loaded.error);
      }
      if !loaded.value.Object? {
        return Ok(false);
      }
      var root, removed := loaded.value.members, false;
      for i := 0 to |keys|
        invariant content == old(content)
        invariant ClearedAll(root, keys[i..], format.removal) == ClearedAll(loaded.value.members, keys, format.removal)
        invariant removed || CarriesAny(root, keys[i..]) <==> CarriesAny(loaded.value.members, keys)
        invariant !removed ==> root == loaded.value.members
      {
        assert keys[i..][0] == keys[i] && keys[i..][1..] == keys[i + 1..];
        CarriesAnyCons(root, keys[i..]);
        if Carries(root, keys[i]) {
          root := Put(root, keys[i], Object(Without(SectionOf(Get(root, keys[i])), SLUGAUDIT, format.removal)));
          removed := true;
        }
      }
      if !removed {
        return Ok(false);
      }
      var written := Replace(Object(root), access);
      outcome := if written then Ok(true) else Err(Io);
    }
  }

  lemma CarriesAnyCons(members: seq<Member>, keys: seq<string>)
    requires keys != []
    ensures CarriesAny(members, keys) <==> Carries(members, keys[0]) || CarriesAny(members, keys[1..])
  {
    assert forall k :: 0 < k < |keys| ==> keys[k] == keys[1..][k - 1];
    if CarriesAny(members, keys[1..]) {
      var k :| 0 <= k < |keys| - 1 && Carries(members, keys[1..][k]);
      assert Carries(members, keys[k + 1]);
    }
  }

  lemma {:induction false} PutTwice(members: seq<Member>, key: string, first: Value, second: Value)
    ensures Put(Put(members, key, first), key, second) == Put(members, key, second)
    decreases |members|
  {
    if members != [] && members[0].key != key {
      PutTwice(members[1..], key, first, second);
    }
  }
}
