/** The connection-scoped header compression, known only by its contract: a
    decoder fed the compressed blocks in the order they were made gives back
    each block. */
module HeaderCodec {

  import opened Options
  import opened Bytes

  /** `enc` maps the blocks compressed so far and the next block to its
      compressed form; `dec` maps the compressed blocks seen so far and the
      next one to the block, or to an error. */
  datatype Codec = Codec(
    enc: (seq<seq<byte>>, seq<byte>) -> seq<byte>,
    dec: (seq<seq<byte>>, seq<byte>) -> Option<seq<byte>>)

  /** The compressed forms of blocks compressed one after the other. */
  function Compressed(c: Codec, blocks: seq<seq<byte>>): (r: seq<seq<byte>>)
    ensures |r| == |blocks|
  {
    if blocks == [] then []
    else
      var front := blocks[..|blocks| - 1];
      Compressed(c, front) + [c.enc(front, blocks[|blocks| - 1])]
  }

  lemma CompressedAppend(c: Codec, blocks: seq<seq<byte>>, b: seq<byte>)
    ensures Compressed(c, blocks + [b]) == Compressed(c, blocks) + [c.enc(blocks, b)]
  {
    assert (blocks + [b])[..|blocks|] == blocks;
  }

  /** The contract: the decoder inverts the encoder block by block, and a
      compressed block is not much longer than the block. */
  ghost predicate Inverts(c: Codec) {
    forall blocks: seq<seq<byte>>, b: seq<byte> ::
      && c.dec(Compressed(c, blocks), c.enc(blocks, b)) == Some(b)
      && |c.enc(blocks, b)| <= 2 * |b| + 64
  }

  /** A codec that marks the block with number n, and takes an unexpected mark
      for some other block. */
  function Marking(n: nat, other: seq<byte>): Codec {
    Codec(
      (blocks: seq<seq<byte>>, b: seq<byte>) => [MarkAt(|blocks|, n)] + b,
      (seen: seq<seq<byte>>, z: seq<byte>) => if z != [] && z[0] == MarkAt(|seen|, n) then Some(z[1..]) else Some(other))
  }

  function MarkAt(i: nat, n: nat): byte { if i == n then 1 else 0 }

  /** The contract can be met, by a codec that depends on the order of blocks. */
  lemma {:induction false} MarkingInverts(n: nat, other: seq<byte>)
    ensures Inverts(Marking(n, other))
  {
    var c := Marking(n, other);
    forall blocks: seq<seq<byte>>, b: seq<byte>
      ensures c.dec(Compressed(c, blocks), c.enc(blocks, b)) == Some(b) && |c.enc(blocks, b)| <= 2 * |b| + 64
    {
      assert c.enc(blocks, b)[1..] == b;
    }
  }
}
