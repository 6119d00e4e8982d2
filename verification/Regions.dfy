// Fields at positions of a byte string: reading them, and what stands where.
module Regions {
  import opened Bytes

  /** What was read and the position behind it, or an error. */
  datatype Got<+T> = Fail | At(value: T, end: nat)

  /** The big-endian number of w bytes at p, if they are there. */
  function U(data: seq<byte>, p: nat, w: nat): (r: Option<nat>)
    ensures r.Some? <==> p + w <= |data|
  {
    if p + w <= |data| then Some(FromBE(data[p..p + w])) else None
  }

  function Slice(data: seq<byte>, p: nat, n: nat): (r: Option<seq<byte>>)
    ensures r.Some? ==> |r.value| == n
  {
    if p + n <= |data| then Some(data[p..p + n]) else None
  }

  /** The bytes behind a length field of w bytes at p. */
  function Counted(data: seq<byte>, p: nat, w: nat): Option<seq<byte>> {
    match U(data, p, w)
    case None => None
    case Some(n) => Slice(data, p + w, n)
  }

  /** The bytes bs stand at position `at`. */
  predicate Holds(data: seq<byte>, at: nat, bs: seq<byte>) {
    at + |bs| <= |data| && data[at..at + |bs|] == bs
  }

  lemma HoldsBoth(data: seq<byte>, at: nat, a: seq<byte>, b: seq<byte>)
    requires Holds(data, at, a + b)
    ensures Holds(data, at, a) && Holds(data, at + |a|, b)
  {
    var part := data[at..at + |a + b|];
    assert part[..|a|] == a && part[|a|..] == b;
  }

  lemma HoldsPart(data: seq<byte>, at: nat, a: seq<byte>, b: seq<byte>, c: seq<byte>)
    requires Holds(data, at, a + b + c)
    ensures Holds(data, at + |a|, b)
  {
    HoldsBoth(data, at, a + b, c);
    HoldsBoth(data, at, a, b);
  }

  lemma HoldsField(data: seq<byte>, at: nat, v: nat, w: nat)
    requires Holds(data, at, BE(v, w)) && v < Pow256(w)
    ensures U(data, at, w) == Some(v)
  {
    BERoundTrip(v, w);
  }

  lemma HoldsCounted(data: seq<byte>, at: nat, bs: seq<byte>, w: nat)
    requires Holds(data, at, BE(|bs|, w) + bs) && |bs| < Pow256(w)
    ensures Counted(data, at, w) == Some(bs)
  {
    hide BE, FromBE, Pow256;
    HoldsBoth(data, at, BE(|bs|, w), bs);
    HoldsField(data, at, |bs|, w);
  }
}
