/** Bytes, and what the codecs share about sequences of them. */
module Bytes {

  type byte = x: int | 0 <= x < 256

  // ---------------------------------------------------------------------
  // Chunks
  // ---------------------------------------------------------------------

  function Flatten<T>(chunks: seq<seq<T>>): seq<T> {
    if chunks == [] then [] else chunks[0] + Flatten(chunks[1..])
  }

  // ---------------------------------------------------------------------
  // Dictionary order
  // ---------------------------------------------------------------------

  predicate LexLess(a: seq<byte>, b: seq<byte>) {
    b != [] && (a == [] || a[0] < b[0] || (a[0] == b[0] && LexLess(a[1..], b[1..])))
  }

  /** Fields of equal length compare first. */
  lemma {:induction false} LexByField(a: seq<byte>, b: seq<byte>, c: seq<byte>, d: seq<byte>)
    requires |a| == |c|
    ensures LexLess(a + b, c + d) <==> LexLess(a, c) || (a == c && LexLess(b, d))
  {
    if a == [] {
      assert a + b == b && c + d == d;
    } else {
      assert (a + b)[1..] == a[1..] + b && (c + d)[1..] == c[1..] + d;
      assert a == c <==> a[0] == c[0] && a[1..] == c[1..] by {
        assert a == [a[0]] + a[1..] && c == [c[0]] + c[1..];
      }
      LexByField(a[1..], b, c[1..], d);
    }
  }

  predicate Diverge(a: seq<byte>, b: seq<byte>) { exists i :: 0 <= i < |a| && i < |b| && a[i] != b[i] }

  /** Once two strings differ, what follows does not matter. */
  lemma {:induction false} LexByDifference(a: seq<byte>, b: seq<byte>, c: seq<byte>, d: seq<byte>)
    requires Diverge(a, c)
    ensures LexLess(a + b, c + d) <==> LexLess(a, c)
  {
    assert (a + b)[1..] == a[1..] + b && (c + d)[1..] == c[1..] + d;
    if a[0] == c[0] {
      var i :| 0 <= i < |a| && i < |c| && a[i] != c[i];
      assert a[1..][i - 1] == a[i] && c[1..][i - 1] == c[i];
      LexByDifference(a[1..], b, c[1..], d);
    }
  }

  // ---------------------------------------------------------------------
  // Big-endian 32-bit numbers
  // ---------------------------------------------------------------------

  function BE16(n: nat): (b: seq<byte>)
    requires n < 65536
    ensures |b| == 2
  {
    var high: int, low: int := n / 256, n % 256;
    [high, low]
  }

  function FromBE16(b: seq<byte>): (n: nat)
    requires |b| == 2
    ensures n < 65536
  {
    var high: int, low: int := b[0], b[1];
    256 * high + low
  }

  function BE32(n: nat): (b: seq<byte>)
    requires n < 0x1_0000_0000
    ensures |b| == 4
  {
    BE16(n / 65536) + BE16(n % 65536)
  }

  function FromBE32(b: seq<byte>): (n: nat)
    requires |b| == 4
    ensures n < 0x1_0000_0000
  {
    65536 * FromBE16(b[..2]) + FromBE16(b[2..])
  }

  lemma {:induction false} BE16RoundTrip(n: nat)
    requires n < 65536
    ensures FromBE16(BE16(n)) == n
  {
  }

  lemma {:induction false} BE32RoundTrip(n: nat)
    requires n < 0x1_0000_0000
    ensures FromBE32(BE32(n)) == n
  {
    assert BE32(n)[..2] == BE16(n / 65536) && BE32(n)[2..] == BE16(n % 65536);
    BE16RoundTrip(n / 65536);
    BE16RoundTrip(n % 65536);
  }

  lemma {:induction false} BE32Inverse(b: seq<byte>)
    requires |b| == 4
    ensures BE32(FromBE32(b)) == b
  {
    var h, l := FromBE16(b[..2]), FromBE16(b[2..]);
    assert FromBE32(b) / 65536 == h && FromBE32(b) % 65536 == l;
    assert BE16(h) == b[..2] && BE16(l) == b[2..];
  }
}
