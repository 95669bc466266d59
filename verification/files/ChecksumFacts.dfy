/** What the readers of checksum texts find, told from the texts alone. */
module ChecksumFacts {
  import opened Sequences
  import opened Texts
  import opened Checksums

  // ----- case

  /** One character, or the two cases of one ASCII letter. */
  predicate SameButCase(x: char, y: char) {
    || x == y
    || ('A' <= x <= 'Z' && y as int - x as int == 32)
    || ('A' <= y <= 'Z' && x as int - y as int == 32)
  }

  predicate EqualButCase(a: string, b: string) {
    |a| == |b| && forall i :: 0 <= i < |a| ==> SameButCase(a[i], b[i])
  }

  predicate NoCapitals(s: string) {
    forall i :: 0 <= i < |s| ==> !('A' <= s[i] <= 'Z')
  }

  lemma {:induction false} LowerAllAt(s: string)
    ensures |LowerAll(s)| == |s|
    ensures forall i :: 0 <= i < |s| ==> LowerAll(s)[i] == Lower(s[i])
    decreases |s|
  {
    if s != "" {
      LowerAllAt(s[1..]);
      assert forall i :: 0 < i < |s| ==> s[i] == s[1..][i - 1];
    }
  }

  lemma LowerAgrees(x: char, y: char)
    ensures Lower(x) == Lower(y) <==> SameButCase(x, y)
    ensures Lower(x) == y <==> SameButCase(x, y) && !('A' <= y <= 'Z')
  {
  }

  /** A digest in lower case is the one text without capitals that is equal but for case. */
  lemma LowerAllIs(s: string, t: string)
    ensures LowerAll(s) == t <==> EqualButCase(s, t) && NoCapitals(t)
  {
    LowerAllAt(s);
    forall i | 0 <= i < |s| && |t| == |s| ensures LowerAll(s)[i] == t[i] <==> SameButCase(s[i], t[i]) && !('A' <= t[i] <= 'Z') {
      LowerAgrees(s[i], t[i]);
    }
  }

  /** Two digests compare equal exactly when they differ at most in case. */
  lemma LowerAllAgrees(a: string, b: string)
    ensures LowerAll(a) == LowerAll(b) <==> EqualButCase(a, b)
  {
    LowerAllAt(a);
    LowerAllAt(b);
    forall i | 0 <= i < |a| && |b| == |a| ensures LowerAll(a)[i] == LowerAll(b)[i] <==> SameButCase(a[i], b[i]) {
      LowerAgrees(a[i], b[i]);
    }
  }

  // ----- whitespace

  predicate AllBlank(s: string) {
    forall i :: 0 <= i < |s| ==> IsWhitespace(s[i])
  }

  /** `t` is what is left of `s` between the whitespace at its ends. */
  ghost predicate IsTrimOf(s: string, t: string) {
    Trimmed(t) && exists before, after :: AllBlank(before) && AllBlank(after) && s == before + (t + after)
  }

  lemma {:induction false} TrimStartOf(blank: string, s: string)
    requires AllBlank(blank)
    ensures TrimStart(blank + s) == TrimStart(s)
    decreases |blank|
  {
    if blank == "" {
      assert blank + s == s;
    } else {
      assert (blank + s)[1..] == blank[1..] + s;
      TrimStartOf(blank[1..], s);
    }
  }

  lemma {:induction false} TrimEndOf(s: string, blank: string)
    requires AllBlank(blank)
    ensures TrimEnd(s + blank) == TrimEnd(s)
    decreases |blank|
  {
    if blank == "" {
      assert s + blank == s;
    } else {
      var shorter := blank[..|blank| - 1];
      assert (s + blank)[..|s + blank| - 1] == s + shorter;
      TrimEndOf(s, shorter);
    }
  }

  lemma {:induction false} TrimStartDropsBlank(s: string)
    ensures AllBlank(s[..|s| - |TrimStart(s)|])
    decreases |s|
  {
    if s != "" && IsWhitespace(s[0]) {
      TrimStartDropsBlank(s[1..]);
      var dropped := s[..|s| - |TrimStart(s)|];
      assert dropped == [s[0]] + s[1..][..|s| - 1 - |TrimStart(s)|];
    }
  }

  lemma {:induction false} TrimEndDropsBlank(s: string)
    ensures AllBlank(s[|TrimEnd(s)|..])
    decreases |s|
  {
    if s != "" && IsWhitespace(s[|s| - 1]) {
      var shorter := s[..|s| - 1];
      TrimEndDropsBlank(shorter);
      assert s[|TrimEnd(s)|..] == shorter[|TrimEnd(shorter)|..] + [s[|s| - 1]];
    }
  }

  lemma TrimOfParts(before: string, t: string, after: string)
    requires AllBlank(before) && Trimmed(t) && AllBlank(after)
    ensures Trim(before + (t + after)) == t
  {
    TrimStartOf(before, t + after);
    if t == "" {
      assert t + after == after + "";
      TrimStartOf(after, "");
    } else {
      assert TrimStart(t + after) == t + after;
      TrimEndOf(t, after);
      assert TrimEnd(t) == t;
    }
  }

  lemma TrimOnly(s: string, t: string)
    requires IsTrimOf(s, t)
    ensures Trim(s) == t
  {
    var before, after :| AllBlank(before) && AllBlank(after) && s == before + (t + after);
    TrimOfParts(before, t, after);
  }

  lemma CutInThree(s: string, middle: string, t: string)
    requires |middle| <= |s| && middle == s[|s| - |middle|..] && t <= middle
    ensures s == s[..|s| - |middle|] + (t + middle[|t|..])
  {
    assert t + middle[|t|..] == middle;
  }

  lemma PartsAreTrim(s: string, before: string, t: string, after: string)
    requires AllBlank(before) && AllBlank(after) && Trimmed(t) && s == before + (t + after)
    ensures IsTrimOf(s, t)
  {
  }

  lemma TrimSplits(s: string)
    ensures IsTrimOf(s, Trim(s))
  {
    var middle := TrimStart(s);
    var t := TrimEnd(middle);
    TrimIsTrimmed(s);
    TrimStartDropsBlank(s);
    TrimEndDropsBlank(middle);
    CutInThree(s, middle, t);
    PartsAreTrim(s, s[..|s| - |middle|], t, middle[|t|..]);
  }

  /** Trimming takes the whitespace off both ends, and nothing more. */
  lemma TrimIs(s: string, t: string)
    ensures Trim(s) == t <==> IsTrimOf(s, t)
  {
    TrimSplits(s);
    if IsTrimOf(s, t) {
      TrimOnly(s, t);
    }
  }

  // ----- lines of a checksum text

  lemma {:induction false} SplitFinds(line: string)
    ensures match SplitAtLastSpace(line)
            case None => ' ' !in line
            case Some((front, name)) => line == front + [' '] + name && ' ' !in name
    decreases |line|
  {
    if line != "" {
      var shorter, last := line[..|line| - 1], line[|line| - 1];
      assert line == shorter + [last];
      SplitFinds(shorter);
    }
  }

  /** A line splits at its last space, and does not split when it has none. */
  lemma SplitIs(line: string, front: string, name: string)
    ensures SplitAtLastSpace(line) == Some((front, name)) <==> line == front + [' '] + name && ' ' !in name
    ensures SplitAtLastSpace(line).None? <==> ' ' !in line
  {
    SplitFinds(line);
    if line == front + [' '] + name && ' ' !in name {
      SplitAfterSpace(front, name);
    }
    if SplitAtLastSpace(line).Some? {
      assert line[|SplitAtLastSpace(line).value.0|] == ' ';
    }
  }

  /** The line gives `hash` for `asset`: the trim of what follows its last space is that name. */
  ghost predicate NamesAsset(line: string, asset: string, hash: string) {
    exists front, name :: Halves(line, front, name) && IsTrimOf(name, asset) && IsTrimOf(front, hash)
  }

  predicate Halves(line: string, front: string, name: string) {
    line == front + [' '] + name && ' ' !in name
  }

  /** The digest a line gives, in lower case, and none for a line that does not name the asset. */
  lemma EntryIs(line: string, asset: string, hash: string)
    ensures NamesAsset(line, asset, hash) ==> EntryFor(line, asset) == Some(LowerAll(hash))
    ensures EntryFor(line, asset).Some? ==> exists h :: NamesAsset(line, asset, h)
  {
    if NamesAsset(line, asset, hash) {
      var front, name :| Halves(line, front, name) && IsTrimOf(name, asset) && IsTrimOf(front, hash);
      SplitIs(line, front, name);
      TrimIs(name, asset);
      TrimIs(front, hash);
    }
    if EntryFor(line, asset).Some? {
      var (front, name) := SplitAtLastSpace(line).value;
      SplitIs(line, front, name);
      TrimIs(name, asset);
      TrimIs(front, Trim(front));
      assert Halves(line, front, name);
      assert NamesAsset(line, asset, Trim(front));
    }
  }

  /** Line `k` is the first that names `asset`, and gives `hash` for it. */
  ghost predicate FirstNamed(lines: seq<string>, k: nat, asset: string, hash: string) {
    && k < |lines| && NamesAsset(lines[k], asset, hash)
    && forall j, h :: 0 <= j < k ==> !NamesAsset(lines[j], asset, h)
  }

  /** The first entry is that of the first line naming the asset. */
  lemma FirstEntryIs(lines: seq<string>, asset: string, k: nat, hash: string)
    requires FirstNamed(lines, k, asset, hash)
    ensures FirstEntry(lines, asset) == Some(LowerAll(hash))
  {
    var entry := (line: string) => EntryFor(line, asset);
    FirstSomeIsFirst(lines, entry);
    EntryIs(lines[k], asset, hash);
    assert entry(lines[k]).Some?;
    var i :| 0 <= i < |lines| && entry(lines[i]) == FirstSome(lines, entry) && forall j :: 0 <= j < i ==> entry(lines[j]).None?;
    EntryIs(lines[i], asset, hash);
    assert i == k;
  }

  /** There is a first entry only if a line names the asset. */
  lemma FirstEntryNamed(lines: seq<string>, asset: string) returns (k: nat, hash: string)
    requires FirstEntry(lines, asset).Some?
    ensures FirstNamed(lines, k, asset, hash)
  {
    var entry := (line: string) => EntryFor(line, asset);
    FirstSomeIsFirst(lines, entry);
    k :| 0 <= k < |lines| && entry(lines[k]) == FirstSome(lines, entry) && forall j :: 0 <= j < k ==> entry(lines[j]).None?;
    EntryIs(lines[k], asset, "");
    hash :| NamesAsset(lines[k], asset, hash);
    forall j, h | 0 <= j < k ensures !NamesAsset(lines[j], asset, h) {
      EntryIs(lines[j], asset, h);
      assert entry(lines[j]).None?;
    }
  }

  // ----- the tool's output

  predicate NoBlank(s: string) {
    forall i :: 0 <= i < |s| ==> !IsWhitespace(s[i])
  }

  /** Nothing, or something that starts in whitespace. */
  predicate StartsBlank(rest: string) {
    rest == "" || IsWhitespace(rest[0])
  }

  /** `word` is the first run of characters outside whitespace. */
  ghost predicate IsFirstToken(stdout: string, word: string) {
    word != "" && NoBlank(word) && exists before, rest ::
      AllBlank(before) && StartsBlank(rest) && stdout == before + (word + rest)
  }

  lemma {:induction false} FirstWordOf(word: string, rest: string)
    requires NoBlank(word) && StartsBlank(rest)
    ensures FirstWord(word + rest) == word
    decreases |word|
  {
    if word == "" {
      assert word + rest == rest;
    } else {
      assert (word + rest)[1..] == word[1..] + rest;
      FirstWordOf(word[1..], rest);
    }
  }

  lemma {:induction false} FirstWordStops(s: string)
    ensures var word := FirstWord(s);
            word <= s && NoBlank(word) && (|word| < |s| ==> IsWhitespace(s[|word|]))
    decreases |s|
  {
    if s != "" && !IsWhitespace(s[0]) {
      FirstWordStops(s[1..]);
    }
  }

  lemma DigestOfToken(before: string, word: string, rest: string)
    requires AllBlank(before) && word != "" && NoBlank(word) && StartsBlank(rest)
    ensures ParseDigest(before + (word + rest)) == Some(LowerAll(word))
  {
    TrimStartOf(before, word + rest);
    assert !IsWhitespace((word + rest)[0]);
    assert TrimStart(word + rest) == word + rest;
    FirstWordOf(word, rest);
  }

  lemma BlankHasNoDigest(stdout: string)
    ensures ParseDigest(stdout).None? <==> AllBlank(stdout)
  {
    var started := TrimStart(stdout);
    TrimStartDropsBlank(stdout);
    if started == "" {
      assert stdout[..|stdout|] == stdout;
    } else {
      assert stdout[|stdout| - |started|] == started[0];
    }
  }

  lemma PartsAreToken(stdout: string, before: string, word: string, rest: string)
    requires AllBlank(before) && StartsBlank(rest) && stdout == before + (word + rest) && word != "" && NoBlank(word)
    ensures IsFirstToken(stdout, word)
  {
  }

  lemma DigestHasToken(stdout: string)
    requires ParseDigest(stdout).Some?
    ensures IsFirstToken(stdout, FirstWord(TrimStart(stdout)))
  {
    var started := TrimStart(stdout);
    var word := FirstWord(started);
    TrimStartDropsBlank(stdout);
    FirstWordStops(started);
    CutInThree(stdout, started, word);
    PartsAreToken(stdout, stdout[..|stdout| - |started|], word, started[|word|..]);
  }

  lemma TokenIsDigest(stdout: string, word: string)
    requires IsFirstToken(stdout, word)
    ensures ParseDigest(stdout) == Some(LowerAll(word))
  {
    var before, rest :| AllBlank(before) && StartsBlank(rest) && stdout == before + (word + rest);
    DigestOfToken(before, word, rest);
  }

  /** The digest is the first token in lower case, and there is none for a blank output. */
  lemma DigestIs(stdout: string, word: string)
    ensures IsFirstToken(stdout, word) ==> ParseDigest(stdout) == Some(LowerAll(word))
    ensures ParseDigest(stdout).Some? ==> exists w :: IsFirstToken(stdout, w)
    ensures ParseDigest(stdout).None? <==> AllBlank(stdout)
  {
    BlankHasNoDigest(stdout);
    if ParseDigest(stdout).Some? {
      DigestHasToken(stdout);
    }
    if IsFirstToken(stdout, word) {
      TokenIsDigest(stdout, word);
    }
  }
}
