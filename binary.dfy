/**
 * The little-endian integer encoding of Go's encoding/binary package, as
 * the archive trailer uses it: `binary.LittleEndian.PutUint64` and its
 * inverse `binary.LittleEndian.Uint64`.
 */
module Binary {

  /** A Go `byte`. */
  type byte = b: int | 0 <= b < 256

  /** 256 to the power n: the number of distinct n-byte values. */
  function Pow256(n: nat): (r: nat)
    ensures r > 0
  {
    if n == 0 then 1 else 256 * Pow256(n - 1)
  }

  /** One more than the largest `uint64`. */
  const Uint64Limit: nat := 0x1_0000_0000_0000_0000

  /** One more than the largest `int64`, the type of Go's file offsets. */
  const Int64Limit: nat := 0x8000_0000_0000_0000

  lemma Pow256Eight()
    ensures Pow256(8) == Uint64Limit
  {
  }

  /** The value of a little-endian byte string: least significant byte first. */
  function Decode(s: seq<byte>): (v: nat)
    ensures v < Pow256(|s|)
  {
    if s == [] then 0 else s[0] + 256 * Decode(s[1..])
  }

  /** The n-byte little-endian encoding of v; decoding it gives v back. */
  function Encode(v: nat, n: nat): (r: seq<byte>)
    requires v < Pow256(n)
    ensures |r| == n
    ensures Decode(r) == v
  {
    if n == 0 then [] else
      var rest := Encode(v / 256, n - 1);
      assert ([v % 256] + rest)[1..] == rest;
      [v % 256] + rest
  }

  /** Every byte string is the encoding of its own value: Encode is onto. */
  lemma {:induction false} EncodeDecode(s: seq<byte>)
    ensures Encode(Decode(s), |s|) == s
  {
    if s != [] {
      var v := Decode(s);
      assert v % 256 == s[0] && v / 256 == Decode(s[1..]);
      EncodeDecode(s[1..]);
    }
  }

  lemma MulAtLeast(d: nat, k: nat)
    requires k >= 1
    ensures d * k >= d
  {
    assert d * k == d * (k - 1) + d;
  }

  lemma DivUnique(v: nat, d: nat, q: nat, r: nat)
    requires d > 0 && r < d && v == d * q + r
    ensures v / d == q
  {
    var q', r' := v / d, v % d;
    assert v == d * q' + r';
    if q' < q {
      assert d * q == d * q' + d * (q - q');
      MulAtLeast(d, q - q');
    } else if q < q' {
      assert d * q' == d * q + d * (q' - q);
      MulAtLeast(d, q' - q);
    }
  }

  lemma DivDiv(v: nat, p: nat)
    requires p > 0
    ensures v / 256 / p == v / (256 * p)
  {
    var q, r1, r0 := v / 256 / p, v / 256 % p, v % 256;
    assert v / 256 == p * q + r1;
    assert v == (256 * p) * q + (256 * r1 + r0);
    assert 256 * r1 + r0 < 256 * p;
    DivUnique(v, 256 * p, q, 256 * r1 + r0);
  }

  /** Byte i of the encoding holds bits 8i to 8i+7 of v (Go's `byte(v >> (8*i))`). */
  lemma {:induction false} EncodeBytes(v: nat, n: nat)
    requires v < Pow256(n)
    ensures forall i :: 0 <= i < n ==> Encode(v, n)[i] == v / Pow256(i) % 256
  {
    if n > 0 {
      var rest := Encode(v / 256, n - 1);
      assert Encode(v, n) == [v % 256] + rest;
      EncodeBytes(v / 256, n - 1);
      forall i | 0 <= i < n
        ensures Encode(v, n)[i] == v / Pow256(i) % 256
      {
        if i > 0 {
          assert rest[i - 1] == v / 256 / Pow256(i - 1) % 256;
          DivDiv(v, Pow256(i - 1));
        }
      }
    }
  }

  /**
   * `binary.LittleEndian.PutUint64`: the eight bytes of a `uint64`, least
   * significant first; `Uint64` (which is Decode on eight bytes) reads v back.
   */
  function PutUint64(v: nat): (r: seq<byte>)
    requires v < Uint64Limit
    ensures |r| == 8
    ensures Decode(r) == v
  {
    Pow256Eight();
    Encode(v, 8)
  }

  /** `binary.LittleEndian.Uint64`: the `uint64` held by eight little-endian bytes. */
  function Uint64(b: seq<byte>): (v: nat)
    requires |b| == 8
    ensures v < Uint64Limit
  {
    Pow256Eight();
    Decode(b)
  }

  /** Byte i of PutUint64's output is `byte(v >> (8*i))`, as Go's encoding/binary writes it. */
  lemma PutUint64Bytes(v: nat)
    requires v < Uint64Limit
    ensures forall i :: 0 <= i < 8 ==> PutUint64(v)[i] == v / Pow256(i) % 256
  {
    Pow256Eight();
    EncodeBytes(v, 8);
  }

  /** Re-encoding what Uint64 read gives the original eight bytes back. */
  lemma PutUint64Uint64(b: seq<byte>)
    requires |b| == 8
    ensures PutUint64(Uint64(b)) == b
  {
    EncodeDecode(b);
  }
}
