/** Reading a SHA256SUMS text and the digest tool's output. */
module Checksums {
  import opened Sequences
  import opened Texts

  const ASSET: string := "slugaudit-x86_64-unknown-linux-gnu"

  function Lower(c: char): char {
    if 'A' <= c <= 'Z' then c + 32 as char else c
  }

  function LowerAll(s: string): string {
    if s == "" then "" else [Lower(s[0])] + LowerAll(s[1..])
  }

  /** `line` around its last space. */
  function SplitAtLastSpace(line: string): Option<(string, string)>
    decreases |line|
  {
    if line == "" then None
    else
      var front, last := line[..|line| - 1], line[|line| - 1];
      if last == ' ' then Some((front, ""))
      else
        match SplitAtLastSpace(front)
        case None => None
        case Some(parts) => Some((parts.0, parts.1 + [last]))
  }

  /** The digest a line gives for `asset`, if it names it. */
  function EntryFor(line: string, asset: string): Option<string> {
    match SplitAtLastSpace(line)
    case None => None
    case Some((hash, name)) => if Trim(name) == asset then Some(LowerAll(Trim(hash))) else None
  }

  /** The first entry for `asset`. */
  function FirstEntry(lines: seq<string>, asset: string): Option<string> {
    FirstSome(lines, line => EntryFor(line, asset))
  }

  function FirstWord(s: string): string {
    if s == "" || IsWhitespace(s[0]) then "" else [s[0]] + FirstWord(s[1..])
  }

  /** The lowercase digest the tool printed: its first token. */
  function ParseDigest(stdout: string): Option<string> {
    var word := FirstWord(TrimStart(stdout));
    if word == "" then None else Some(LowerAll(word))
  }

  /** A published line reads back its own digest, padded by any spaces. */
  lemma EntryReadsBack(hash: string, asset: string)
    requires Trimmed(hash) && hash != "" && Trimmed(asset) && ' ' !in asset
    ensures EntryFor(hash + "  " + asset, asset) == Some(LowerAll(hash))
  {
    var line := hash + "  " + asset;
    assert line == hash + [' '] + [' '] + asset;
    SplitAfterSpace(hash + [' '], asset);
    TrimOfTrimmed(asset);
    TrimTrailingSpace(hash);
  }

  lemma {:induction false} SplitAfterSpace(front: string, name: string)
    requires ' ' !in name
    ensures SplitAtLastSpace(front + [' '] + name) == Some((front, name))
    decreases |name|
  {
    var line := front + [' '] + name;
    if name == "" {
      assert line[..|line| - 1] == front;
    } else {
      var shorter := name[..|name| - 1];
      assert line[..|line| - 1] == front + [' '] + shorter;
      SplitAfterSpace(front, shorter);
      assert shorter + [name[|name| - 1]] == name;
    }
  }

  lemma TrimTrailingSpace(s: string)
    requires Trimmed(s) && s != ""
    ensures Trim(s + [' ']) == s
  {
    assert TrimStart(s + [' ']) == s + [' '];
    assert (s + [' '])[..|s|] == s;
    assert TrimEnd(s) == s;
  }
}
