/** Byte strings, and the fixed-width integer layouts the ledger and the digest use. */
module ByteStrings {

  type byte = x: int | 0 <= x < 256
  type Bytes = seq<byte>

  function Zeros(n: nat): (r: Bytes)
    ensures |r| == n
    ensures forall i :: 0 <= i < n ==> r[i] == 0
  {
    seq(n, _ => 0)
  }

  /** The low n bytes of x, most significant first. */
  function BigEndian(x: nat, n: nat): (r: Bytes)
    ensures |r| == n
  {
    if n == 0 then [] else BigEndian(x / 256, n - 1) + [x % 256]
  }

  function Pow256(n: nat): (p: nat)
    ensures p > 0
  {
    if n == 0 then 1 else 256 * Pow256(n - 1)
  }

  const TWO64: nat := 0x1_0000_0000_0000_0000

  lemma DivideTwice(x: nat, p: nat)
    requires p > 0
    ensures x / 256 / p == x / (256 * p)
  {
    var q, r := x / 256, x % 256;
    var a, b := q / p, q % p;
    assert x == 256 * (p * a + b) + r;
    assert 256 * (p * a + b) + r == 256 * p * a + (256 * b + r);
    assert 0 <= 256 * b + r < 256 * p;
    QuotientIs(x, 256 * p, a, 256 * b + r);
  }

  lemma QuotientIs(x: nat, d: nat, q: nat, r: nat)
    requires r < d && x == d * q + r
    ensures x / d == q
  {
    var k: int := q - x / d;
    assert d * k == x % d - r;
    assert k >= 1 ==> d * k >= d;
    assert k <= -1 ==> d * k + d <= 0;
  }

  /** The byte at place i is that of weight 256 to the power n - 1 - i. */
  lemma {:induction false} BigEndianAt(x: nat, n: nat, i: nat)
    requires i < n
    ensures BigEndian(x, n)[i] == x / Pow256(n - 1 - i) % 256
    decreases n
  {
    if i < n - 1 {
      BigEndianAt(x / 256, n - 1, i);
      DivideTwice(x, Pow256(n - 2 - i));
    }
  }

  /** Bytes above the low n do not show. */
  lemma {:induction false} BigEndianWraps(x: nat, k: nat, n: nat)
    ensures BigEndian(x + k * Pow256(n), n) == BigEndian(x, n)
  {
    if n > 0 {
      var p := k * Pow256(n - 1);
      assert k * Pow256(n) == 256 * p;
      assert (x + 256 * p) / 256 == x / 256 + p && (x + 256 * p) % 256 == x % 256;
      BigEndianWraps(x / 256, k, n - 1);
    }
  }

  lemma Pow256Of8()
    ensures Pow256(8) == TWO64
  {
    assert Pow256(2) == 0x1_0000;
    assert Pow256(4) == 0x1_0000_0000;
    assert Pow256(6) == 0x1_0000_0000_0000;
  }

  lemma AddWraps(x: nat, y: nat)
    ensures (x % TWO64 + y) % TWO64 == (x + y) % TWO64
  {
    var q := x / TWO64;
    assert x + y == TWO64 * q + (x % TWO64 + y);
    assert (TWO64 * q + (x % TWO64 + y)) % TWO64 == (x % TWO64 + y) % TWO64;
  }

  lemma WrapsOnly64(x: nat)
    ensures BigEndian(x % TWO64, 8) == BigEndian(x, 8)
  {
    Pow256Of8();
    BigEndianWraps(x % TWO64, x / TWO64, 8);
    assert x == x % TWO64 + x / TWO64 * TWO64;
  }

  /** A 32-bit field as the ledger file stores it: least significant byte first. */
  function LittleEndian32(x: nat): (r: Bytes)
    requires x < 0x1_0000_0000
    ensures |r| == 4
  {
    [x % 256, x / 0x100 % 256, x / 0x1_0000 % 256, x / 0x100_0000]
  }

  function FromLittleEndian32(b: Bytes): (x: nat)
    requires |b| == 4
    ensures x < 0x1_0000_0000
  {
    (b[0] as int) + 0x100 * (b[1] as int) + 0x1_0000 * (b[2] as int) + 0x100_0000 * (b[3] as int)
  }

  lemma LittleEndianRoundTrip(x: nat)
    requires x < 0x1_0000_0000
    ensures FromLittleEndian32(LittleEndian32(x)) == x
  {
    assert x == x % 256 + 256 * (x / 0x100);
    assert x / 0x100 == x / 0x100 % 256 + 256 * (x / 0x1_0000);
    assert x / 0x1_0000 == x / 0x1_0000 % 256 + 256 * (x / 0x100_0000);
  }

  lemma LittleEndianOnto(b: Bytes)
    requires |b| == 4
    ensures LittleEndian32(FromLittleEndian32(b)) == b
  {
    var x := FromLittleEndian32(b);
    assert x / 0x100 == (b[1] as int) + 0x100 * (b[2] as int) + 0x1_0000 * (b[3] as int);
    assert x / 0x1_0000 == (b[2] as int) + 0x100 * (b[3] as int);
    assert x / 0x100_0000 == b[3];
  }

  /** Concatenations of equally long parts agree only part by part. */
  lemma SplitEqual(a: Bytes, b: Bytes, c: Bytes, d: Bytes)
    requires a + b == c + d
    requires |a| == |c| || |b| == |d|
    ensures a == c && b == d
  {
    assert |a| == |c|;
    assert a == (a + b)[..|a|] && c == (c + d)[..|c|];
    assert b == (a + b)[|a|..] && d == (c + d)[|c|..];
  }
}
