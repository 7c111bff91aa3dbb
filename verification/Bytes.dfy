/** Bytes, and the big-endian numbers the wire uses. */
module Bytes {
  newtype Byte = x: int | 0 <= x < 256
  type ByteSeq = seq<Byte>

  function Power256(n: nat): nat {
    if n == 0 then 1 else 256 * Power256(n - 1)
  }

  /** The low `width` base-256 digits of `n`, most significant first. */
  function BigEndian(n: nat, width: nat): (b: ByteSeq)
    ensures |b| == width
    decreases width
  {
    if width == 0 then [] else BigEndian(n / 256, width - 1) + [(n % 256) as Byte]
  }

  function FromBigEndian(b: ByteSeq): nat
    decreases |b|
  {
    if b == [] then 0 else 256 * FromBigEndian(b[..|b| - 1]) + b[|b| - 1] as nat
  }

  lemma {:induction false} BigEndianRoundTrip(n: nat, width: nat)
    requires n < Power256(width)
    ensures FromBigEndian(BigEndian(n, width)) == n
    decreases width
  {
    if width > 0 {
      var b := BigEndian(n, width);
      assert b[..|b| - 1] == BigEndian(n / 256, width - 1);
      BigEndianRoundTrip(n / 256, width - 1);
    }
  }

  lemma {:induction false} FromBigEndianRoundTrip(b: ByteSeq)
    ensures FromBigEndian(b) < Power256(|b|) && BigEndian(FromBigEndian(b), |b|) == b
    decreases |b|
  {
    if b != [] {
      var front := b[..|b| - 1];
      FromBigEndianRoundTrip(front);
      assert FromBigEndian(b) / 256 == FromBigEndian(front) && FromBigEndian(b) % 256 == b[|b| - 1] as nat;
      assert b == front + [b[|b| - 1]];
    }
  }

  /** The first byte counts most. */
  lemma {:induction false} MostSignificantFirst(b: ByteSeq)
    requires b != []
    ensures FromBigEndian(b) == b[0] as nat * Power256(|b| - 1) + FromBigEndian(b[1..])
    decreases |b|
  {
    if |b| > 1 {
      var front := b[..|b| - 1];
      MostSignificantFirst(front);
      assert b[1..][..|b| - 2] == front[1..];
      Regroup(front[0] as nat, Power256(|front| - 1), FromBigEndian(front[1..]), b[|b| - 1] as nat);
    }
  }

  lemma Regroup(h: nat, p: nat, r: nat, l: nat)
    ensures 256 * (h * p + r) + l == h * (256 * p) + (256 * r + l)
  {
  }
}
