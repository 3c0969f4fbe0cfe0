/** Bytes and the big-endian integers of frame lengths and nonces. */
module Bytes {

  newtype byte = x: int | 0 <= x < 256

  type Bytes = seq<byte>

  /** A string as the UTF-8 bytes it is made of; lengths count bytes. */
  type Utf8 = Bytes

  type Key32 = b: Bytes | |b| == 32 witness seq(32, _ => 0)

  /** The bytes of an ASCII literal. */
  function Ascii(s: string): (b: Utf8)
    requires forall i :: 0 <= i < |s| ==> s[i] as int < 128
    ensures |b| == |s| && forall i :: 0 <= i < |s| ==> b[i] as int == s[i] as int
  {
    seq(|s|, i requires 0 <= i < |s| => (s[i] as int) as byte)
  }

  predicate IsAsciiAlphanumeric(b: byte) {
    48 <= b <= 57 || 65 <= b <= 90 || 97 <= b <= 122
  }

  const U32_MODULUS: nat := 0x1_0000_0000
  const U64_MODULUS: nat := 0x1_0000_0000_0000_0000

  /** The number of values that fit in `width` bytes. */
  function Capacity(width: nat): (c: nat)
    ensures c > 0
  {
    if width == 0 then 1 else 256 * Capacity(width - 1)
  }

  /** `n` as exactly `width` bytes, most significant first. */
  function ToBigEndian(n: nat, width: nat): (s: Bytes)
    ensures |s| == width
  {
    if width == 0 then [] else ToBigEndian(n / 256, width - 1) + [(n % 256) as byte]
  }

  function FromBigEndian(s: Bytes): (n: nat)
    ensures n < Capacity(|s|)
  {
    if s == [] then 0 else 256 * FromBigEndian(s[..|s| - 1]) + s[|s| - 1] as nat
  }

  lemma {:induction false} DecodeEncoded(n: nat, width: nat)
    requires n < Capacity(width)
    ensures FromBigEndian(ToBigEndian(n, width)) == n
  {
    if width <= 0 {
    } else {
      var high, low := ToBigEndian(n / 256, width - 1), (n % 256) as byte;
      DecodeEncoded(n / 256, width - 1);
      DecodeSnoc(high, low);
    }
  }

  lemma DecodeSnoc(high: Bytes, low: byte)
    ensures FromBigEndian(high + [low]) == 256 * FromBigEndian(high) + low as nat
  {
    assert (high + [low])[..|high|] == high;
  }

  lemma {:induction false} EncodeDecoded(s: Bytes)
    ensures ToBigEndian(FromBigEndian(s), |s|) == s
  {
    if s == [] {
    } else {
      EncodeDecoded(s[..|s| - 1]);
      assert s == s[..|s| - 1] + [s[|s| - 1]];
    }
  }

  /** The first byte counts most: reading a prefix leaves it to be shifted by what follows. */
  lemma {:induction false} MostSignificantFirst(high: Bytes, low: Bytes)
    ensures FromBigEndian(high + low) == FromBigEndian(high) * Capacity(|low|) + FromBigEndian(low)
  {
    if low == [] {
      assert high + low == high;
    } else {
      var front, last := low[..|low| - 1], low[|low| - 1];
      assert high + low == high + front + [last] && low == front + [last];
      MostSignificantFirst(high, front);
      DecodeSnoc(high + front, last);
      Shift(FromBigEndian(high), Capacity(|front|));
    }
  }

  lemma Shift(n: nat, c: nat)
    ensures n * (256 * c) == 256 * (n * c)
  {
  }

  lemma WordCapacities()
    ensures Capacity(4) == U32_MODULUS
    ensures Capacity(8) == U64_MODULUS
  {
    assert Capacity(2) == 0x1_0000;
    assert Capacity(4) == U32_MODULUS;
    assert Capacity(6) == 0x1_0000_0000_0000;
  }

  /** The bytes of a list of chunks. */
  function Flat(chunks: seq<Bytes>): Bytes {
    if chunks == [] then [] else Flat(chunks[..|chunks| - 1]) + chunks[|chunks| - 1]
  }

  lemma {:induction false} FlatGrows(chunks: seq<Bytes>, k: nat)
    requires k <= |chunks|
    ensures Flat(chunks[..k]) <= Flat(chunks)
  {
    if k == |chunks| {
      assert chunks[..k] == chunks;
    } else {
      assert chunks[..|chunks| - 1][..k] == chunks[..k];
      FlatGrows(chunks[..|chunks| - 1], k);
    }
  }

  lemma FlatAppend(chunks: seq<Bytes>, chunk: Bytes)
    ensures Flat(chunks + [chunk]) == Flat(chunks) + chunk
  {
    assert (chunks + [chunk])[..|chunks|] == chunks;
  }

  /** Chunks that follow the first ones of another list, the last one perhaps cut short. */
  lemma FlatPrefix(a: seq<Bytes>, b: seq<Bytes>)
    requires |a| <= |b| && forall i :: 0 <= i < |a| ==> a[i] <= b[i] && (i < |a| - 1 ==> a[i] == b[i])
    ensures Flat(a) <= Flat(b)
  {
    if a == [] {
    } else {
      var n := |a| - 1;
      assert a[..n] == b[..n];
      assert b[..n + 1][..n] == b[..n];
      FlatGrows(b, n + 1);
    }
  }
}
