/** Machine integers and their little-endian images, as `bytemuck` and
    `to_le_bytes` lay them out. */
module Bytes {

  type byte = b: int | 0 <= b < 256
  type u16 = x: int | 0 <= x < 0x1_0000
  type u32 = x: int | 0 <= x < 0x1_0000_0000
  type u64 = x: int | 0 <= x < 0x1_0000_0000_0000_0000
  type i64 = x: int | -0x8000_0000_0000_0000 <= x < 0x8000_0000_0000_0000

  /** A 32-byte value: a public key, a hash or a request id. */
  type Bytes32 = s: seq<byte> | |s| == 32 witness seq(32, i => 0)

  /** A 64-byte value: expanded key material. */
  type Bytes64 = s: seq<byte> | |s| == 64 witness seq(64, i => 0)

  const U32_MAX: u32 := 0xFFFF_FFFF
  const U64_MAX: u64 := 0xFFFF_FFFF_FFFF_FFFF

  datatype Option<+T> = None | Some(value: T)

  ghost function Pow256(n: nat): (r: nat)
    ensures r > 0
  {
    if n == 0 then 1 else 256 * Pow256(n - 1)
  }

  lemma Pow256Values()
    ensures Pow256(1) == 0x100
    ensures Pow256(2) == 0x1_0000
    ensures Pow256(4) == 0x1_0000_0000
    ensures Pow256(8) == 0x1_0000_0000_0000_0000
  {
    assert Pow256(1) == 256 * Pow256(0);
    assert Pow256(2) == 256 * Pow256(1);
    assert Pow256(3) == 256 * Pow256(2);
    assert Pow256(4) == 256 * Pow256(3);
    assert Pow256(5) == 256 * Pow256(4);
    assert Pow256(6) == 256 * Pow256(5);
    assert Pow256(7) == 256 * Pow256(6);
    assert Pow256(8) == 256 * Pow256(7);
  }

  /** The n low-order bytes of v, least significant first. */
  function LE(v: nat, n: nat): (r: seq<byte>)
    ensures |r| == n
  {
    if n == 0 then [] else [v % 256] + LE(v / 256, n - 1)
  }

  function UnLE(b: seq<byte>): (r: nat)
    ensures r < Pow256(|b|)
  {
    if b == [] then 0 else b[0] + 256 * UnLE(b[1..])
  }

  /** Byte i of the image is digit i of the number in base 256. */
  lemma {:induction false} LEDigits(v: nat, n: nat, i: nat)
    requires i < n
    ensures LE(v, n)[i] == v / Pow256(i) % 256
  {
    if i > 0 {
      LEDigits(v / 256, n - 1, i - 1);
      DivideTwice(v, Pow256(i - 1));
    }
  }

  lemma DivideTwice(v: nat, m: nat)
    requires m > 0
    ensures v / 256 / m == v / (256 * m)
  {
    var q, a := v / 256 / m, v / 256 % m;
    assert v / 256 == q * m + a;
    var b := v % 256;
    assert v == 256 * (q * m + a) + b;
    QuotientUnique(v, 256 * m, q, 256 * a + b) by {
      assert 256 * (q * m + a) + b == q * (256 * m) + (256 * a + b);
      assert 256 * a + b < 256 * m;
    }
  }

  lemma QuotientUnique(v: nat, d: nat, q: nat, a: nat)
    requires d > 0 && a < d && v == q * d + a
    ensures v / d == q
  {
    var k := v / d - q;
    var m: int := d;
    assert v == (v / d) * m + v % d;
    assert k * m == a - v % d;
    assert k >= 1 ==> k * m >= m;
    assert k <= -1 ==> k * m <= -m;
  }

  lemma {:induction false} UnLELE(v: nat, n: nat)
    requires v < Pow256(n)
    ensures UnLE(LE(v, n)) == v
  {
    if n > 0 {
      assert v / 256 < Pow256(n - 1) && v == v % 256 + 256 * (v / 256);
      UnLELE(v / 256, n - 1);
      assert LE(v, n)[1..] == LE(v / 256, n - 1);
    }
  }

  lemma LowByte(b: byte, v: nat)
    ensures (b + 256 * v) % 256 == b && (b + 256 * v) / 256 == v
  {
  }

  lemma {:induction false} LEUnLE(b: seq<byte>)
    ensures LE(UnLE(b), |b|) == b
  {
    if b != [] {
      LEUnLE(b[1..]);
      LowByte(b[0], UnLE(b[1..]));
      assert b == [b[0]] + b[1..];
    }
  }

  /** Equal-length little-endian images come from equal numbers. */
  lemma LEInjective(v: nat, w: nat, n: nat)
    requires v < Pow256(n) && w < Pow256(n)
    requires LE(v, n) == LE(w, n)
    ensures v == w
  {
    UnLELE(v, n);
    UnLELE(w, n);
  }

  function U16Of(b: seq<byte>): (r: u16)
    requires |b| == 2
  {
    Pow256Values();
    UnLE(b)
  }

  function U32Of(b: seq<byte>): (r: u32)
    requires |b| == 4
  {
    Pow256Values();
    UnLE(b)
  }

  function U64Of(b: seq<byte>): (r: u64)
    requires |b| == 8
  {
    Pow256Values();
    UnLE(b)
  }

  /** `i64::to_le_bytes`: two's complement. */
  function I64Bytes(v: i64): (r: seq<byte>)
    ensures |r| == 8
  {
    LE(if v < 0 then v + 0x1_0000_0000_0000_0000 else v, 8)
  }

  lemma I64BytesInjective(v: i64, w: i64)
    requires I64Bytes(v) == I64Bytes(w)
    ensures v == w
  {
    Pow256Values();
    LEInjective(if v < 0 then v + 0x1_0000_0000_0000_0000 else v,
                if w < 0 then w + 0x1_0000_0000_0000_0000 else w, 8);
  }

  /** s with the bytes at p replaced by b. */
  function Overwrite(s: seq<byte>, p: nat, b: seq<byte>): (r: seq<byte>)
    requires p + |b| <= |s|
    ensures |r| == |s|
    ensures r[p..p + |b|] == b
    ensures forall j :: 0 <= j < |s| && !(p <= j < p + |b|) ==> r[j] == s[j]
  {
    s[..p] + b + s[p + |b|..]
  }

  lemma SplitAt<T>(s: seq<T>, i: nat)
    requires i < |s|
    ensures s == s[..i] + [s[i]] + s[i + 1..]
  {
  }

  /** Where the parts of a concatenation stored at p are found. */
  lemma StoredConcat<T>(s: seq<T>, p: nat, x: seq<T>, y: seq<T>)
    requires p + |x| + |y| <= |s|
    requires s[p..p + |x| + |y|] == x + y
    ensures s[p..p + |x|] == x
    ensures s[p + |x|..p + |x| + |y|] == y
  {
    var z := s[p..p + |x| + |y|];
    assert z[..|x|] == x && z[|x|..] == y;
  }

  lemma ConcatAssociative<T>(a: seq<T>, b: seq<T>, c: seq<T>)
    ensures a + (b + c) == a + b + c
  {
  }

  /** Adjacent writes are one write. */
  lemma OverwriteAdjacent(s: seq<byte>, p: nat, x: seq<byte>, y: seq<byte>)
    requires p + |x| + |y| <= |s|
    ensures Overwrite(Overwrite(s, p, x), p + |x|, y) == Overwrite(s, p, x + y)
    ensures Overwrite(Overwrite(s, p + |x|, y), p, x) == Overwrite(s, p, x + y)
  {
  }

  lemma ConcatInjective<T>(a: seq<T>, b: seq<T>, c: seq<T>, d: seq<T>)
    requires a + b == c + d && |a| == |c|
    ensures a == c && b == d
  {
    assert (a + b)[..|a|] == a && (c + d)[..|c|] == c;
    assert (a + b)[|a|..] == b && (c + d)[|c|..] == d;
  }
}
