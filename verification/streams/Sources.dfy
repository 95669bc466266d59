/** Byte streams read in chunks of any size. */
module Sources {
  import opened Sequences

  function Min(a: nat, b: nat): nat {
    if a < b then a else b
  }

  class Source {
    /** How many bytes the k-th read would like to give; it gives at least one until the end. */
    const chunks: nat -> nat
    var rest: Bytes
    var taken: nat

    constructor (chunks: nat -> nat, bytes: Bytes)
      ensures this.chunks == chunks && rest == bytes && taken == 0
    {
      this.chunks := chunks;
      rest := bytes;
      taken := 0;
    }

    /** Some next bytes, at most `limit`; none only at the end. */
    method ReadSome(limit: nat) returns (bytes: Bytes)
      requires limit > 0
      modifies this
      ensures |bytes| <= limit && old(rest) == bytes + rest
      ensures bytes == [] <==> old(rest) == []
    {
      var n := Min(Min(limit, |rest|), if chunks(taken) == 0 then 1 else chunks(taken));
      bytes := rest[..n];
      rest := rest[n..];
      taken := taken + 1;
    }

    /** The next byte, if there is one. */
    method ReadByte() returns (next: Option<byte>)
      modifies this
      ensures old(rest) == [] ==> next.None? && rest == []
      ensures old(rest) != [] ==> next == Some(old(rest)[0]) && rest == old(rest)[1..]
    {
      if rest == [] {
        return None;
      }
      next := Some(rest[0]);
      rest := rest[1..];
    }
  }
}
