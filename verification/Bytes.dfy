// Bytes, fixed-width integers and the small result types every other module uses.
module Bytes {

  type byte = b: int | 0 <= b < 256

  datatype Option<+T> = None | Some(value: T)

  const TWO32: nat := 0x1_0000_0000

  /** 256 to the n: one more than the largest value n bytes can hold. */
  function Pow256(n: nat): (r: nat)
    ensures r >= 1
  {
    if n == 0 then 1 else 256 * Pow256(n - 1)
  }

  /** The n low-order bytes of v, most significant first. */
  function BE(v: nat, n: nat): (bs: seq<byte>)
    ensures |bs| == n
  {
    if n == 0 then [] else BE(v / 256, n - 1) + [v % 256]
  }

  /** The number spelled by bytes, most significant first. */
  function FromBE(bs: seq<byte>): (v: nat)
    ensures v < Pow256(|bs|)
  {
    if bs == [] then 0 else 256 * FromBE(bs[..|bs| - 1]) + bs[|bs| - 1]
  }

  /** The n low-order bytes of v, least significant first. */
  function LE(v: nat, n: nat): (bs: seq<byte>)
    ensures |bs| == n
  {
    if n == 0 then [] else [v % 256] + LE(v / 256, n - 1)
  }

  function FromLE(bs: seq<byte>): (v: nat)
    ensures v < Pow256(|bs|)
  {
    if bs == [] then 0 else bs[0] + 256 * FromLE(bs[1..])
  }

  lemma {:induction false} BERoundTrip(v: nat, n: nat)
    requires v < Pow256(n)
    ensures FromBE(BE(v, n)) == v
  {
    if n > 0 {
      BERoundTrip(v / 256, n - 1);
      assert BE(v, n)[..n - 1] == BE(v / 256, n - 1);
    }
  }

  lemma {:induction false} LERoundTrip(v: nat, n: nat)
    requires v < Pow256(n)
    ensures FromLE(LE(v, n)) == v
  {
    if n > 0 {
      LERoundTrip(v / 256, n - 1);
      assert LE(v, n)[1..] == LE(v / 256, n - 1);
    }
  }

  lemma BEStep(v: nat, n: nat)
    ensures BE(v, 0) == []
    ensures BE(v, n + 1) == BE(v / 256, n) + [v % 256]
  {
  }

  lemma LEStep(v: nat, n: nat)
    ensures LE(v, 0) == []
    ensures LE(v, n + 1) == [v % 256] + LE(v / 256, n)
  {
  }

  lemma Quotients(v: nat)
    ensures v / 256 / 256 == v / 65536 && v / 65536 / 256 == v / 16777216
  {
  }

  /** The bytes of short fields, one by one. */
  lemma BEBytes(v: nat)
    ensures BE(v, 1) == [v % 256]
    ensures BE(v, 2) == [v / 256 % 256, v % 256]
  {
    hide BE;
    BEStep(v, 0);
    BEStep(v, 1);
    BEStep(v / 256, 0);
  }

  lemma BE4Bytes(v: nat)
    ensures BE(v, 4) == [v / 16777216 % 256, v / 65536 % 256, v / 256 % 256, v % 256]
  {
    hide BE;
    Quotients(v);
    BEBytes(v / 65536);
    BEStep(v / 256, 2);
    BEStep(v, 3);
  }

  lemma LEBytes(v: nat)
    ensures LE(v, 4) == [v % 256, v / 256 % 256, v / 65536 % 256, v / 16777216 % 256]
  {
    hide LE;
    Quotients(v);
    LEStep(v, 3);
    LEStep(v / 256, 2);
    LEStep(v / 65536, 1);
    LEStep(v / 16777216, 0);
  }

  /** Every byte string is the spelling of its number. */
  lemma {:induction false} BEInverse(bs: seq<byte>)
    ensures BE(FromBE(bs), |bs|) == bs
  {
    if bs != [] {
      var init, last: nat := bs[..|bs| - 1], bs[|bs| - 1];
      BEInverse(init);
      assert (256 * FromBE(init) + last) / 256 == FromBE(init) && (256 * FromBE(init) + last) % 256 == last;
      assert bs == init + [bs[|bs| - 1]];
    }
  }

  lemma Associate<T>(a: seq<T>, b: seq<T>, c: seq<T>)
    ensures (a + b) + c == a + (b + c)
  {
  }

  lemma TakeMore<T>(s: seq<T>, k: nat, n: nat)
    requires k + n <= |s|
    ensures s[..k] + s[k..][..n] == s[..k + n]
  {
  }

  /** All parts, one after the other. */
  function Flatten<T>(parts: seq<seq<T>>): seq<T> {
    if parts == [] then [] else Flatten(parts[..|parts| - 1]) + parts[|parts| - 1]
  }

  lemma FlattenSnoc<T>(parts: seq<seq<T>>, last: seq<T>)
    ensures Flatten(parts + [last]) == Flatten(parts) + last
  {
    assert (parts + [last])[..|parts|] == parts;
  }

  lemma FlattenNone<T>(s: seq<T>)
    ensures Flatten<T>([]) == [] && s + Flatten<T>([]) == s
  {
  }

  lemma {:induction false} FlattenConcat<T>(a: seq<seq<T>>, b: seq<seq<T>>)
    ensures Flatten(a + b) == Flatten(a) + Flatten(b)
  {
    hide Flatten;
    if b == [] {
      assert a + b == a;
      FlattenNone(Flatten(a));
    } else {
      var init, last := b[..|b| - 1], b[|b| - 1];
      FlattenConcat(a, init);
      assert a + b == (a + init) + [last] && b == init + [last];
      FlattenSnoc(a + init, last);
      FlattenSnoc(init, last);
      Associate(Flatten(a), Flatten(init), last);
    }
  }

  lemma FlattenHead<T>(parts: seq<seq<T>>)
    requires parts != []
    ensures Flatten(parts) == parts[0] + Flatten(parts[1..])
  {
    assert parts == [parts[0]] + parts[1..];
    FlattenConcat([parts[0]], parts[1..]);
    FlattenSnoc([], parts[0]);
    assert [] + [parts[0]] == [parts[0]];
  }

  /** Writes v over n bytes of a at off (binary.BigEndian.PutUintNN). */
  method PutBE(a: array<byte>, off: nat, v: nat, n: nat)
    requires off + n <= a.Length
    modifies a
    ensures a[off..off + n] == BE(v, n)
    ensures forall k :: (0 <= k < off || off + n <= k < a.Length) ==> a[k] == old(a[k])
  {
    var rest := v;
    var k := n;
    assert BE(rest, k) + [] == BE(v, n);
    ghost var done: seq<byte> := [];
    while k > 0
      invariant 0 <= k <= n
      invariant |done| == n - k
      invariant BE(rest, k) + done == BE(v, n)
      invariant forall j :: (0 <= j < off || off + n <= j < a.Length) ==> a[j] == old(a[j])
      invariant a[off + k..off + n] == done
    {
      k := k - 1;
      a[off + k] := rest % 256;
      assert BE(rest, k + 1) == BE(rest / 256, k) + [rest % 256];
      done := [rest % 256] + done;
      rest := rest / 256;
    }
    assert a[..] == a[..off] + a[off..off + n] + a[off + n..];
  }
}
