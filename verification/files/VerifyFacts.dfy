/** When a download passes its check, and what an update that fails it leaves. */
module VerifyFacts {
  import opened Sequences
  import opened Texts
  import opened Disks
  import opened FileSystems
  import opened Checksums
  import opened ChecksumFacts
  import opened UpdateRuns
  import opened UpdateFacts

  /** The first line naming the asset and the tool's first token give one digest, but for case. */
  ghost predicate Agree(text: string, stdout: string) {
    exists k, hash, token ::
      FirstNamed(Lines(text), k, ASSET, hash) && IsFirstToken(stdout, token) && EqualButCase(hash, token)
  }

  /** The checksums decode, the tool succeeds, and what it prints agrees with them. */
  ghost predicate Passes(tools: Tools, release: Release) {
    match (tools.decode(release.sums), tools.sha256sum(release.binary))
    case (Some(text), Exited(true, stdout)) => Agree(text, stdout)
    case _ => false
  }

  lemma AgreeingDigests(text: string, stdout: string)
    ensures Agree(text, stdout) <==>
            FirstEntry(Lines(text), ASSET).Some? && ParseDigest(stdout) == FirstEntry(Lines(text), ASSET)
  {
    var lines := Lines(text);
    if Agree(text, stdout) {
      var k, hash, token :| FirstNamed(lines, k, ASSET, hash) && IsFirstToken(stdout, token) && EqualButCase(hash, token);
      FirstEntryIs(lines, ASSET, k, hash);
      DigestIs(stdout, token);
      LowerAllAgrees(hash, token);
    }
    if FirstEntry(lines, ASSET).Some? && ParseDigest(stdout) == FirstEntry(lines, ASSET) {
      var k, hash := FirstEntryNamed(lines, ASSET);
      FirstEntryIs(lines, ASSET, k, hash);
      DigestIs(stdout, "");
      var token :| IsFirstToken(stdout, token);
      DigestIs(stdout, token);
      LowerAllAgrees(hash, token);
    }
  }

  /** A release is verified exactly when it passes. */
  lemma VerifiedIff(tools: Tools, release: Release)
    ensures Verified(tools, release) <==> Passes(tools, release)
  {
    match (tools.decode(release.sums), tools.sha256sum(release.binary)) {
      case (Some(text), Exited(true, stdout)) => AgreeingDigests(text, stdout);
      case _ =>
    }
  }

  /** The check passes exactly when both files can be read and the release passes; it changes nothing. */
  lemma CheckPassesIff(f: Fate, files: Files, calls: nat, n: Names, tools: Tools, release: Release)
    requires Holds(files, n.exe, release.binary) && Holds(files, n.sums, release.sums)
    ensures var s := VerifyRun(f, files, calls, n, tools);
            && s.files == files
            && (s.reply.Done? <==> f.turns(calls).Works? && f.turns(calls + 1).Works? && Passes(tools, release))
            && (f.turns(calls).Works? && f.turns(calls + 1).Works? && !Passes(tools, release) ==> s.reply.Error?)
  {
    VerifiedIff(tools, release);
  }

  /**
   * A release that does not pass is never placed: no update with it succeeds, and the target
   * is as it was, wherever calls fail or the process dies.
   */
  lemma FailedCheckKeepsTarget(f: Fate, files: Files, calls: nat, n: Names, tools: Tools, release: Release)
    requires Apart(n) && !IsScratch(n, n.target) && !Passes(tools, release)
    ensures var u := UpdateRun(f, files, calls, n, tools, release);
            !u.reply.Done? && At(u.files, n.target) == At(files, n.target)
  {
    var placed := UpdateKeepsBinaries(f, files, calls, n, tools, release);
    VerifiedIff(tools, release);
  }

  // ----- digests as they are published and printed

  /** A digest as either side writes one: no whitespace in it. */
  predicate IsDigest(digest: string) {
    digest != "" && NoBlank(digest)
  }

  lemma PublishedNames(hash: string, asset: string)
    requires IsDigest(hash) && Trimmed(asset) && ' ' !in asset
    ensures NamesAsset(hash + "  " + asset, asset, hash)
  {
    var front := hash + [' '];
    assert hash + "  " + asset == front + [' '] + asset;
    assert Halves(hash + "  " + asset, front, asset);
    TrimOfTrimmed(asset);
    TrimIs(asset, asset);
    TrimTrailingSpace(hash);
    TrimIs(front, hash);
  }

  lemma AssetIsTrimmed()
    ensures Trimmed(ASSET) && ' ' !in ASSET
  {
  }

  lemma PublishedLineEnds(hash: string)
    requires IsDigest(hash)
    ensures CanEnd(hash + "  " + ASSET, "\n", false)
  {
    assert '\n' !in hash;
    assert '\n' !in ASSET && ASSET[|ASSET| - 1] == 'u';
  }

  lemma PrintedToken(digest: string, rest: string)
    requires IsDigest(digest) && rest != "" && IsWhitespace(rest[0])
    ensures IsFirstToken(digest + rest, digest)
  {
    assert digest + rest == "" + (digest + rest);
    PartsAreToken(digest + rest, "", digest, rest);
  }

  /** One published digest and one printed: a release with these passes exactly when they differ at most in case. */
  lemma DigestsCompared(tools: Tools, release: Release, hash: string, more: string, digest: string, rest: string)
    requires IsDigest(hash) && IsDigest(digest) && rest != "" && IsWhitespace(rest[0])
    requires tools.decode(release.sums) == Some(hash + "  " + ASSET + "\n" + more)
    requires tools.sha256sum(release.binary) == Exited(true, digest + rest)
    ensures Passes(tools, release) <==> EqualButCase(hash, digest)
  {
    var line := hash + "  " + ASSET;
    var lines := Lines(line + "\n" + more);
    PublishedLineEnds(hash);
    NextLine(line, "\n", more);
    AssetIsTrimmed();
    PublishedNames(hash, ASSET);
    assert lines[0] == line;
    assert FirstNamed(lines, 0, ASSET, hash);
    PrintedToken(digest, rest);
    FirstEntryIs(lines, ASSET, 0, hash);
    DigestIs(digest + rest, digest);
    LowerAllAgrees(hash, digest);
    AgreeingDigests(line + "\n" + more, digest + rest);
  }
}
