/** Reading the path out of a Rust `use` statement's text. */
module References {
  import opened Sequences
  import opened Texts

  /** `s` after its first `c`, if it has one. */
  function AfterFirst(s: string, c: char): Option<string> {
    if s == "" then None
    else if s[0] == c then Some(s[1..])
    else AfterFirst(s[1..], c)
  }

  const PUB: string := "pub"
  const USE: string := "use "

  /** What follows a visibility: after ` `, or after a parenthesised scope. */
  function AfterPub(after: string): Option<string> {
    if after == "" then None
    else if after[0] == ' ' then Some(TrimStart(after[1..]))
    else if after[0] == '(' then
      match AfterFirst(after[1..], ')')
      case None => None
      case Some(rest) => Some(TrimStart(rest))
    else None
  }

  /** What is declared, without its visibility. */
  function StripVisibility(text: string): string {
    if PUB <= text && AfterPub(text[|PUB|..]).Some? then AfterPub(text[|PUB|..]).value else text
  }

  predicate EndsPath(c: char) {
    c == ';' || c == '{' || c == ' '
  }

  function UpToEnd(s: string): string {
    if s == "" || EndsPath(s[0]) then "" else [s[0]] + UpToEnd(s[1..])
  }

  function TrimSeparators(s: string): string {
    if |s| >= 2 && s[|s| - 2] == ':' && s[|s| - 1] == ':' then TrimSeparators(s[..|s| - 2]) else s
  }

  /** The path a `use` statement imports from, up to its `;`, its group or its alias. */
  function ExtractReference(raw: string): Option<string> {
    var statement := StripVisibility(Trim(raw));
    if !(USE <= statement) then None
    else
      var path := TrimSeparators(UpToEnd(statement[|USE|..]));
      if path == "" then None else Some(path)
  }

  // ----- the statements it reads back

  datatype Visibility = Private | Public | Scoped(scope: string)

  /** `statement` under a visibility. */
  function Declared(visibility: Visibility, statement: string): string {
    match visibility
    case Private => statement
    case Public => PUB + ([' '] + statement)
    case Scoped(scope) => PUB + (['('] + (scope + [')'] + ([' '] + statement)))
  }

  /** A use path as written: not empty, nothing that ends it inside it, no separator at its end. */
  predicate IsUsePath(path: string) {
    && path != "" && (forall k :: 0 <= k < |path| ==> path[k] != ';' && path[k] != '{' && path[k] != ' ')
    && !(|path| >= 2 && path[|path| - 2] == ':' && path[|path| - 1] == ':')
  }

  /** What may follow the path: nothing, its end, or a separator and then its end. */
  predicate IsTail(tail: string) {
    tail == "" || Ends(tail[0]) || (|tail| > 2 && tail[..2] == "::" && Ends(tail[2]))
  }

  predicate Ends(c: char) {
    c in {';', '{', ' '}
  }

  lemma {:induction false} UpToEndOf(path: string, tail: string)
    requires forall k :: 0 <= k < |path| ==> !EndsPath(path[k])
    requires tail == "" || EndsPath(tail[0])
    ensures UpToEnd(path + tail) == path
    decreases |path|
  {
    if path == "" {
      assert path + tail == tail;
    } else {
      assert (path + tail)[1..] == path[1..] + tail;
      UpToEndOf(path[1..], tail);
    }
  }

  lemma {:induction false} AfterFirstOf(scope: string, rest: string)
    requires ')' !in scope
    ensures AfterFirst(scope + [')'] + rest, ')') == Some(rest)
    decreases |scope|
  {
    var s := scope + [')'] + rest;
    if scope == "" {
      assert s == [')'] + rest && s[1..] == rest;
    } else {
      assert s[1..] == scope[1..] + [')'] + rest;
      AfterFirstOf(scope[1..], rest);
    }
  }

  lemma Prepended(head: string, rest: string)
    ensures head <= head + rest && (head + rest)[|head|..] == rest
  {
  }

  lemma SpaceTrimmed(statement: string)
    requires statement != "" && !IsWhitespace(statement[0])
    ensures TrimStart([' '] + statement) == statement
  {
    assert ([' '] + statement)[1..] == statement;
  }

  lemma PrivateStrips(statement: string)
    requires statement != "" && statement[0] == 'u'
    ensures StripVisibility(statement) == statement
  {
    assert PUB[0] == 'p';
  }

  lemma PublicStrips(statement: string)
    requires statement != "" && statement[0] == 'u'
    ensures AfterPub([' '] + statement) == Some(statement)
  {
    Prepended([' '], statement);
  }

  lemma ScopeStrips(scope: string, statement: string)
    requires ')' !in scope && statement != "" && statement[0] == 'u'
    ensures AfterPub(['('] + (scope + [')'] + ([' '] + statement))) == Some(statement)
  {
    Prepended(['('], scope + [')'] + ([' '] + statement));
    AfterFirstOf(scope, [' '] + statement);
    SpaceTrimmed(statement);
  }

  lemma VisibilityStrips(after: string, statement: string)
    requires AfterPub(after) == Some(statement)
    ensures StripVisibility(PUB + after) == statement
  {
    Prepended(PUB, after);
  }

  lemma StripsVisibility(visibility: Visibility, statement: string)
    requires visibility.Scoped? ==> ')' !in visibility.scope
    requires statement != "" && statement[0] == 'u'
    ensures StripVisibility(Declared(visibility, statement)) == statement
  {
    match visibility
    case Private =>
      PrivateStrips(statement);
    case Public =>
      PublicStrips(statement);
      VisibilityStrips([' '] + statement, statement);
    case Scoped(scope) =>
      ScopeStrips(scope, statement);
      VisibilityStrips(['('] + (scope + [')'] + ([' '] + statement)), statement);
  }

  lemma DeclaredIsTrimmed(visibility: Visibility, statement: string)
    requires Trimmed(statement) && statement != ""
    ensures Trimmed(Declared(visibility, statement))
  {
    var text := Declared(visibility, statement);
    assert PUB[0] == 'p';
    assert text[|text| - 1] == statement[|statement| - 1];
  }

  lemma PathUpToTail(path: string, tail: string)
    requires IsUsePath(path) && IsTail(tail)
    ensures TrimSeparators(UpToEnd(path + tail)) == path
  {
    if tail == "" || Ends(tail[0]) {
      UpToEndOf(path, tail);
    } else {
      var longer := path + "::";
      assert path + tail == longer + tail[2..];
      UpToEndOf(longer, tail[2..]);
      assert longer[..|longer| - 2] == path;
    }
  }

  /** Extraction reads back the path of any statement, under any visibility and before any tail. */
  lemma ExtractsThePath(visibility: Visibility, path: string, tail: string)
    requires visibility.Scoped? ==> ')' !in visibility.scope
    requires IsUsePath(path) && IsTail(tail) && Trimmed(USE + (path + tail))
    ensures ExtractReference(Declared(visibility, USE + (path + tail))) == Some(path)
  {
    var statement := USE + (path + tail);
    Prepended(USE, path + tail);
    assert USE[0] == 'u' && statement[0] == 'u';
    DeclaredIsTrimmed(visibility, statement);
    TrimOfTrimmed(Declared(visibility, statement));
    StripsVisibility(visibility, statement);
    PathUpToTail(path, tail);
  }

  // ----- and no others

  predicate IsSuffix(t: string, s: string) {
    |t| <= |s| && t == s[|s| - |t|..]
  }

  lemma {:induction false} AfterFirstIsSuffix(s: string, c: char)
    ensures AfterFirst(s, c).Some? ==> IsSuffix(AfterFirst(s, c).value, s)
    decreases |s|
  {
    if s != "" && s[0] != c {
      AfterFirstIsSuffix(s[1..], c);
    }
  }

  lemma StrippedIsSuffix(text: string)
    ensures IsSuffix(StripVisibility(text), text)
  {
    if PUB <= text {
      var after := text[|PUB|..];
      if after != "" {
        AfterFirstIsSuffix(after[1..], ')');
      }
    }
  }

  lemma {:induction false} UpToEndIsPrefix(s: string)
    ensures UpToEnd(s) <= s
    ensures forall k :: 0 <= k < |UpToEnd(s)| ==> UpToEnd(s)[k] != ';' && UpToEnd(s)[k] != '{' && UpToEnd(s)[k] != ' '
    decreases |s|
  {
    if s != "" && !EndsPath(s[0]) {
      UpToEndIsPrefix(s[1..]);
    }
  }

  lemma {:induction false} SeparatorsTrimmed(s: string)
    ensures var t := TrimSeparators(s);
            t <= s && !(|t| >= 2 && t[|t| - 2] == ':' && t[|t| - 1] == ':')
    decreases |s|
  {
    if |s| >= 2 && s[|s| - 2] == ':' && s[|s| - 1] == ':' {
      SeparatorsTrimmed(s[..|s| - 2]);
    }
  }

  /** Where a suffix starts with `head` and then `path`. */
  lemma Located(text: string, suffix: string, head: string, path: string) returns (k: nat)
    requires IsSuffix(suffix, text) && head <= suffix && path <= suffix[|head|..]
    ensures var i := k + |head|;
            i + |path| <= |text| && text[k..i] == head && text[i..i + |path|] == path
  {
    k := |text| - |suffix|;
    var i := k + |head|;
    assert text[k..i] == suffix[..|head|] == head;
    assert text[i..i + |path|] == suffix[|head|..][..|path|] == path;
  }

  lemma PathLeads(after: string)
    ensures var path := TrimSeparators(UpToEnd(after));
            path <= after && (path != "" ==> IsUsePath(path))
  {
    UpToEndIsPrefix(after);
    SeparatorsTrimmed(UpToEnd(after));
    PrefixTransitive(TrimSeparators(UpToEnd(after)), UpToEnd(after), after);
  }

  lemma Extracted(raw: string, text: string, path: string) returns (statement: string)
    requires text == Trim(raw) && ExtractReference(raw) == Some(path)
    ensures IsSuffix(statement, text) && USE <= statement
    ensures path != "" && path == TrimSeparators(UpToEnd(statement[|USE|..]))
  {
    statement := StripVisibility(text);
    StrippedIsSuffix(text);
  }

  lemma ReadsAfterUse(text: string, statement: string, path: string) returns (k: nat)
    requires IsSuffix(statement, text) && USE <= statement
    requires path != "" && path == TrimSeparators(UpToEnd(statement[|USE|..]))
    ensures IsUsePath(path)
    ensures var i := k + |USE|;
            i + |path| <= |text| && text[k..i] == USE && text[i..i + |path|] == path
  {
    PathLeads(statement[|USE|..]);
    k := Located(text, statement, USE, path);
  }

  /** What is read is a path, and follows the word `use` in the statement: nothing else gives a reference. */
  lemma ReadsOnlyUses(raw: string, text: string, path: string) returns (k: nat)
    requires text == Trim(raw) && ExtractReference(raw) == Some(path)
    ensures IsUsePath(path)
    ensures k + 4 + |path| <= |text| && text[k..k + 4] == "use " && text[k + 4..k + 4 + |path|] == path
  {
    var statement := Extracted(raw, text, path);
    k := ReadsAfterUse(text, statement, path);
    UseIs();
  }

  lemma UseIs()
    ensures USE == "use " && |USE| == 4
  {
  }
}
