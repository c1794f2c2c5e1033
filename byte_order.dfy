/** Big-endian encoding of unsigned integers as bytes, shared by both
    interpreter APIs (`to_be_bytes` / `from_be_bytes`). */
module ByteOrder {

  /** An unsigned 8-bit integer (`u8`). */
  newtype Byte = x: int | 0 <= x < 0x100

  function BeBytes(x: nat, n: nat): (r: seq<Byte>)
    ensures |r| == n
    decreases n
  {
    if n == 0 then [] else BeBytes(x / 256, n - 1) + [(x % 256) as Byte]
  }

  /** `Word::from_be_bytes`. */
  function BeValue(b: seq<Byte>): nat
    decreases |b|
  {
    if b == [] then 0 else 256 * BeValue(b[..|b| - 1]) + b[|b| - 1] as nat
  }

  function Pow256(n: nat): (r: nat)
    ensures r >= 1
  {
    if n == 0 then 1 else 256 * Pow256(n - 1)
  }

  /** Encoding a value that fits `n` bytes and decoding it gives it back. */
  lemma {:induction false} BeRoundTrip(x: nat, n: nat)
    requires x < Pow256(n)
    ensures BeValue(BeBytes(x, n)) == x
    decreases n
  {
    if n > 0 {
      var q, d := x / 256, x % 256;
      var r := BeBytes(x, n);
      assert x == 256 * q + d && d < 256;
      assert r == BeBytes(q, n - 1) + [d as Byte];
      assert r[..n - 1] == BeBytes(q, n - 1);
      assert r[n - 1] as nat == d;
      assert Pow256(n) == 256 * Pow256(n - 1);
      assert q < Pow256(n - 1);
      BeRoundTrip(q, n - 1);
      assert BeValue(r) == 256 * BeValue(r[..n - 1]) + r[n - 1] as nat;
    }
  }

  /** A decoded value is below 256^n. */
  lemma {:induction false} BeValueBound(b: seq<Byte>)
    ensures BeValue(b) < Pow256(|b|)
    decreases |b|
  {
    if b != [] {
      var p := b[..|b| - 1];
      BeValueBound(p);
      assert BeValue(p) + 1 <= Pow256(|p|);
      assert 256 * BeValue(p) + 256 <= 256 * Pow256(|p|);
    }
  }
}
