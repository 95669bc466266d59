/** Where a write through a path lands, told from the chain of links that starts there. */
module Links {
  import opened Sequences
  import opened Disks
  import opened AtomicWrites

  /** Each name but the last is a link to the next. */
  predicate IsChain(files: Files, chain: seq<Path>) {
    chain != [] && forall k :: 0 <= k < |chain| - 1 ==> chain[k] in files && files[chain[k]] == Link(chain[k + 1])
  }

  lemma RestOfChain(files: Files, chain: seq<Path>)
    requires IsChain(files, chain) && |chain| > 1
    ensures IsChain(files, chain[1..])
  {
    var rest := chain[1..];
    forall k | 0 <= k < |rest| - 1 ensures rest[k] in files && files[rest[k]] == Link(rest[k + 1]) {
      assert chain[k + 1] in files && files[chain[k + 1]] == Link(chain[k + 2]);
    }
  }

  lemma {:induction false} ChainIsFollowed(files: Files, chain: seq<Path>, hops: nat)
    requires IsChain(files, chain)
    ensures |chain| - 1 <= hops ==> Follow(files, chain[0], hops) == Follow(files, chain[|chain| - 1], hops - (|chain| - 1))
    ensures |chain| - 1 > hops ==> Follow(files, chain[0], hops) == None
    decreases |chain|
  {
    if |chain| > 1 {
      RestOfChain(files, chain);
      assert chain[0] in files && files[chain[0]] == Link(chain[1]);
      if hops > 0 {
        ChainIsFollowed(files, chain[1..], hops - 1);
      }
    }
  }

  /**
   * A path that is no link is its own destination, there or not. A link is written through to
   * the end of its chain, which has to be there, over 40 links at most.
   */
  lemma DestinationIs(files: Files, chain: seq<Path>)
    requires IsChain(files, chain)
    requires chain[|chain| - 1] in files ==> !files[chain[|chain| - 1]].Link?
    ensures Destination(files, chain[0])
         == if |chain| == 1 || (|chain| <= 41 && chain[|chain| - 1] in files) then Some(chain[|chain| - 1]) else None
  {
    ChainIsFollowed(files, chain, 40);
    if |chain| > 1 {
      assert chain[0] in files && files[chain[0]] == Link(chain[1]);
    }
  }

  /** More than 40 links lead nowhere, and so does a circle of them. */
  lemma TooManyLinks(files: Files, chain: seq<Path>)
    requires IsChain(files, chain) && |chain| > 41
    ensures Destination(files, chain[0]) == None
  {
    ChainIsFollowed(files, chain, 40);
    assert chain[0] in files && files[chain[0]] == Link(chain[1]);
  }
}
