/**
 The streaming digest of src/fractalsql_hmac.h, over any block function. `Digest` states the hash
 on whole messages (FIPS 180-4, sections 5.1.1, 5.3 and 6.2.2); the class `Context` is the form
 the source runs, with a 64-byte buffer it fills and empties in place.
 */
module Sha256 {
  import opened ByteStrings

  type Digest32 = d: Bytes | |d| == 32 witness Zeros(32)

  /** The initial value, the block function (`fsql_sha256_transform`) and the big-endian output. */
  datatype Core<!S> = Core(init: S, compress: (S, Bytes) -> S, output: S -> Digest32)

  /** Section 6.2.2 over the whole blocks of m, in order. */
  function Fold<S>(c: Core<S>, s: S, m: Bytes): S
    decreases |m|
  {
    if |m| < 64 then s else Fold(c, c.compress(s, m[..64]), m[64..])
  }

  /** Section 5.1.1: a one bit, the fewest zero bits that leave room, and the length in bits. */
  function PadZeros(n: nat): (k: nat)
    ensures (n + 1 + k + 8) % 64 == 0
    ensures k < 64
  {
    (119 - n % 64) % 64
  }

  function Pad(m: Bytes, bits: Bytes): Bytes {
    m + [0x80] + Zeros(PadZeros(|m|)) + bits
  }

  function Digest<S>(c: Core<S>, m: Bytes): Digest32 {
    c.output(Fold(c, c.init, Pad(m, BigEndian(8 * |m|, 8))))
  }

  lemma {:induction false} FoldAppend<S>(c: Core<S>, s: S, m: Bytes, n: Bytes)
    requires |m| % 64 == 0
    ensures Fold(c, s, m + n) == Fold(c, Fold(c, s, m), n)
    decreases |m|
  {
    if |m| < 64 {
      assert m == [] && m + n == n;
    } else {
      assert (m + n)[..64] == m[..64] && (m + n)[64..] == m[64..] + n;
      FoldAppend(c, c.compress(s, m[..64]), m[64..], n);
    }
  }

  lemma FoldBlock<S>(c: Core<S>, s: S, m: Bytes, b: Bytes)
    requires |m| % 64 == 0 && |b| == 64
    ensures Fold(c, s, m + b) == c.compress(Fold(c, s, m), b)
  {
    FoldAppend(c, s, m, b);
    assert b[..64] == b;
  }

  /** What a context in the middle of a message knows of the whole blocks it has folded. */
  ghost predicate Tracks<S>(c: Core<S>, done: Bytes, bitlen: nat, state: S)
  {
    && |done| % 64 == 0
    && bitlen == 8 * |done| % TWO64
    && state == Fold(c, c.init, done)
  }

  lemma TrackBlock<S>(c: Core<S>, done: Bytes, bitlen: nat, state: S, block: Bytes)
    requires Tracks(c, done, bitlen, state) && |block| == 64
    ensures Tracks(c, done + block, (bitlen + 512) % TWO64, c.compress(state, block))
  {
    hide Fold;
    FoldBlock(c, c.init, done, block);
    var n := |done|;
    assert |done + block| == n + 64;
    CountBlock(n);
    NextMultiple(n);
  }

  lemma NextMultiple(n: nat)
    requires n % 64 == 0
    ensures (n + 64) % 64 == 0
  {
  }

  lemma CountBlock(n: nat)
    ensures (8 * n % TWO64 + 512) % TWO64 == 8 * (n + 64) % TWO64
  {
    AddWraps(8 * n, 512);
  }

  lemma PadZerosAfter(whole: nat, part: nat)
    requires whole % 64 == 0 && part < 64
    ensures PadZeros(whole + part) == if part < 56 then 55 - part else 119 - part
  {
  }

  /** `fsql_sha256_final` when the length still fits into the block that is being filled. */
  lemma PadOneBlock(done: Bytes, part: Bytes, bits: Bytes)
    requires |done| % 64 == 0 && |part| < 56
    ensures Pad(done + part, bits) == done + (part + [0x80] + Zeros(55 - |part|) + bits)
  {
    PadZerosAfter(|done|, |part|);
  }

  /** And when it does not: the rest of this block is zero and one more block carries the length. */
  lemma PadTwoBlocks(done: Bytes, part: Bytes, bits: Bytes)
    requires |done| % 64 == 0 && 56 <= |part| < 64
    ensures Pad(done + part, bits) == done + (part + [0x80] + Zeros(63 - |part|)) + (Zeros(56) + bits)
  {
    PadZerosAfter(|done|, |part|);
    assert Zeros(119 - |part|) == Zeros(63 - |part|) + Zeros(56);
  }

  lemma FoldTwoBlocks<S>(c: Core<S>, s: S, m: Bytes, a: Bytes, b: Bytes)
    requires |m| % 64 == 0 && |a| == |b| == 64
    ensures Fold(c, s, m + a + b) == c.compress(c.compress(Fold(c, s, m), a), b)
  {
    FoldBlock(c, Fold(c, s, m), a, b);
    assert a[..64] == a;
    FoldAppend(c, s, m, a + b);
    assert m + a + b == m + (a + b);
  }

  lemma CountWraps(n: nat, part: nat)
    ensures BigEndian((8 * n % TWO64 + part * 8) % TWO64, 8) == BigEndian(8 * (n + part), 8)
  {
    AddWraps(8 * n, 8 * part);
    WrapsOnly64(8 * (n + part));
  }

  /** What is stored at each of the eight places of the length field. */
  lemma EightBytes(x: nat)
    ensures BigEndian(x, 8)
         == [x / 0x100_0000_0000_0000 % 0x100, x / 0x1_0000_0000_0000 % 0x100,
             x / 0x100_0000_0000 % 0x100, x / 0x1_0000_0000 % 0x100,
             x / 0x100_0000 % 0x100, x / 0x1_0000 % 0x100, x / 0x100 % 0x100, x % 0x100]
  {
    hide BigEndian, Pow256;
    PowersOf256();
    BigEndianAt(x, 8, 0);
    BigEndianAt(x, 8, 1);
    BigEndianAt(x, 8, 2);
    BigEndianAt(x, 8, 3);
    BigEndianAt(x, 8, 4);
    BigEndianAt(x, 8, 5);
    BigEndianAt(x, 8, 6);
    BigEndianAt(x, 8, 7);
  }

  lemma PowersOf256()
    ensures Pow256(0) == 1 && Pow256(1) == 0x100 && Pow256(2) == 0x1_0000 && Pow256(3) == 0x100_0000
    ensures Pow256(4) == 0x1_0000_0000 && Pow256(5) == 0x100_0000_0000
    ensures Pow256(6) == 0x1_0000_0000_0000 && Pow256(7) == 0x100_0000_0000_0000
  {
  }

  /**
   The digest as the standard says it, without a name for the padded message: any text that is the message,
   the byte 0x80, fewer than 64 zero bytes and the length in bits, most significant byte first, and that
   fills whole blocks, folds to it.
   */
  lemma DigestIs<S>(c: Core<S>, m: Bytes, k: nat, len: Bytes, t: Bytes)
    requires t == m + [0x80] + Zeros(k) + len && |t| % 64 == 0 && k < 64
    requires |len| == 8 && forall i :: 0 <= i < 8 ==> len[i] == 8 * |m| / Pow256(7 - i) % 256
    ensures Digest(c, m) == c.output(Fold(c, c.init, t))
  {
    hide Fold, BigEndian;
    forall i | 0 <= i < 8
      ensures BigEndian(8 * |m|, 8)[i] == len[i]
    {
      BigEndianAt(8 * |m|, 8, i);
    }
    assert BigEndian(8 * |m|, 8) == len;
    SameZeros(|m|, k);
  }

  lemma SameZeros(n: nat, k: nat)
    requires (n + 1 + k + 8) % 64 == 0 && k < 64
    ensures k == PadZeros(n)
  {
  }

  /** The streaming context `fsql_sha256_ctx`. `done` is the message up to the last whole block. */
  class Context<S> {
    const core: Core<S>
    var data: array<byte>
    var datalen: nat
    var bitlen: nat
    var state: S
    ghost var done: Bytes

    ghost predicate Valid()
      reads this, data
    {
      && data.Length == 64
      && datalen < 64
      && Tracks(core, done, bitlen, state)
    }

    /** The message so far. */
    ghost function Fed(): Bytes
      requires Valid()
      reads this, data
    {
      done + data[..datalen]
    }

    constructor (c: Core<S>)
      ensures Valid() && fresh(data) && Fed() == [] && core == c
    {
      core := c;
      data := new byte[64];
      datalen, bitlen, state, done := 0, 0, c.init, [];
    }

    /** The counter is 32 bits wide in the source, so a longer message would never finish. */
    method Update(msg: Bytes)
      requires Valid() && |msg| < 0x1_0000_0000
      modifies this, data
      ensures Valid() && data == old(data)
      ensures Fed() == old(Fed()) + msg
    {
      ghost var before := Fed();
      for i := 0 to |msg|
        invariant Valid() && data == old(data)
        invariant Fed() == before + msg[..i]
      {
        assert before + msg[..i + 1] == before + msg[..i] + [msg[i]];
        Put(msg[i]);
      }
      assert msg[..|msg|] == msg;
    }

    /** One turn of the loop of `fsql_sha256_update`. */
    method Put(x: byte)
      requires Valid()
      modifies this, data
      ensures Valid() && data == old(data)
      ensures Fed() == old(Fed()) + [x]
    {
      data[datalen] := x;
      assert data[..datalen + 1] == old(data[..datalen]) + [x];
      datalen := datalen + 1;
      if datalen == 64 {
        assert data[..] == data[..datalen];
        TrackBlock(core, done, bitlen, state, data[..]);
        done := done + data[..];
        state := core.compress(state, data[..]);
        bitlen := (bitlen + 512) % TWO64;
        datalen := 0;
      }
    }

    /** Stores zero bytes at data[from..upto]. */
    method Clear(from: nat, upto: nat)
      requires from <= upto <= data.Length
      modifies data
      ensures data[..upto] == old(data[..from]) + Zeros(upto - from)
      ensures data[upto..] == old(data[upto..])
    {
      var i := from;
      while i < upto
        invariant from <= i <= upto
        invariant data[..from] == old(data[..from])
        invariant forall k :: from <= k < i ==> data[k] == 0
        invariant data[upto..] == old(data[upto..])
      {
        data[i] := 0;
        i := i + 1;
      }
    }

    /** The padding of `fsql_sha256_final`: one block when 8 length bytes still fit, two otherwise. */
    method PadZero(ghost bits: Bytes)
      requires Valid() && |bits| == 8
      modifies this`state, data
      ensures Fold(core, core.init, Pad(old(Fed()), bits)) == core.compress(state, data[..56] + bits)
    {
      hide Fold, Pad, Zeros;
      ghost var part := data[..datalen];
      data[datalen] := 0x80;
      assert data[..datalen + 1] == part + [0x80];
      if datalen < 56 {
        PadOneBlock(done, part, bits);
        FoldBlock(core, core.init, done, part + [0x80] + Zeros(55 - datalen) + bits);
        Clear(datalen + 1, 56);
      } else {
        PadTwoBlocks(done, part, bits);
        FoldTwoBlocks(core, core.init, done, part + [0x80] + Zeros(63 - datalen), Zeros(56) + bits);
        ghost var whole := part + [0x80] + Zeros(63 - datalen);
        Clear(datalen + 1, 64);
        assert data[..] == data[..64] == whole;
        state := core.compress(state, data[..]);
        Clear(0, 56);
        assert data[..56] == Zeros(56);
      }
    }

    /** `fsql_sha256_final`. */
    method Final() returns (hash: Digest32)
      requires Valid()
      modifies this, data
      ensures hash == Digest(core, old(Fed()))
    {
      hide Fold, Pad, BigEndian;
      ghost var fed := Fed();
      PadZero(BigEndian(8 * |fed|, 8));
      CountWraps(|done|, datalen);
      bitlen := (bitlen + datalen * 8) % TWO64;
      StoreLength();
      state := core.compress(state, data[..]);
      hash := core.output(state);
      assert Digest(core, fed) == core.output(Fold(core, core.init, Pad(fed, BigEndian(8 * |fed|, 8))));
    }

    /** The eight stores of the bit count at data[56..64], shifted a byte further each time. */
    method StoreLength()
      requires data.Length == 64
      modifies data
      ensures data[..] == old(data[..56]) + BigEndian(bitlen, 8)
    {
      hide BigEndian;
      EightBytes(bitlen);
      ghost var front := data[..56];
      data[63], data[62] := bitlen % 0x100, bitlen / 0x100 % 0x100;
      data[61], data[60] := bitlen / 0x1_0000 % 0x100, bitlen / 0x100_0000 % 0x100;
      data[59], data[58] := bitlen / 0x1_0000_0000 % 0x100, bitlen / 0x100_0000_0000 % 0x100;
      data[57], data[56] := bitlen / 0x1_0000_0000_0000 % 0x100, bitlen / 0x100_0000_0000_0000 % 0x100;
      assert data[..56] == front;
      assert data[56..] == BigEndian(bitlen, 8);
    }
  }

  /** `fsql_sha256`. */
  method Hash<S>(c: Core<S>, msg: Bytes) returns (hash: Digest32)
    requires |msg| < 0x1_0000_0000
    ensures hash == Digest(c, msg)
  {
    var ctx := new Context(c);
    ctx.Update(msg);
    assert [] + msg == msg;
    hash := ctx.Final();
  }

  function Xor(a: byte, b: byte): byte {
    ((a as bv8) ^ (b as bv8)) as byte
  }

  function XorAll(m: Bytes, x: byte): (r: Bytes)
    ensures |r| == |m|
  {
    seq(|m|, i requires 0 <= i < |m| => Xor(m[i], x))
  }

  /** RFC 2104 section 2: the key, hashed when it is longer than a block. */
  function ShortKey<S>(c: Core<S>, key: Bytes): (r: Bytes)
    ensures |r| <= 64
    ensures |key| <= 64 ==> r == key
    ensures |key| > 64 ==> r == Digest(c, key)
  {
    if |key| > 64 then Digest(c, key) else key
  }

  /** And filled up with zeros. */
  function BlockKey<S>(c: Core<S>, key: Bytes): (r: Bytes)
    ensures |r| == 64
  {
    var k := ShortKey(c, key);
    k + Zeros(64 - |k|)
  }

  /** RFC 2104 section 2: H(K xor opad, H(K xor ipad, text)). */
  function Hmac<S>(c: Core<S>, key: Bytes, msg: Bytes): Digest32 {
    var k := BlockKey(c, key);
    Digest(c, XorAll(k, 0x5c) + Digest(c, XorAll(k, 0x36) + msg))
  }

  /** The byte at place i of a key block: the key's own, or zero behind it. */
  function KeyByte(k: Bytes, i: nat): byte {
    if i < |k| then k[i] else 0
  }

  /**
   HMAC as RFC 2104 says it: for the two blocks that hold the key, or its digest when it is longer than a
   block, each byte xored with 0x36 and with 0x5c.
   */
  lemma HmacIs<S>(c: Core<S>, key: Bytes, msg: Bytes, ipad: Bytes, opad: Bytes)
    requires |ipad| == |opad| == 64
    requires forall i :: 0 <= i < 64 ==> ipad[i] == ((KeyByte(ShortKey(c, key), i) as bv8) ^ 0x36) as byte
    requires forall i :: 0 <= i < 64 ==> opad[i] == ((KeyByte(ShortKey(c, key), i) as bv8) ^ 0x5c) as byte
    ensures Hmac(c, key, msg) == Digest(c, opad + Digest(c, ipad + msg))
  {
    hide Digest, XorAll, Zeros, ShortKey, KeyByte;
    var k := ShortKey(c, key);
    XoredIs(k, 0x36, 0x36, ipad);
    XoredIs(k, 0x5c, 0x5c, opad);
  }

  lemma XoredIs(k: Bytes, x: byte, bits: bv8, pad: Bytes)
    requires |pad| == 64 && |k| <= 64 && x as bv8 == bits
    requires forall i :: 0 <= i < 64 ==> pad[i] == ((KeyByte(k, i) as bv8) ^ bits) as byte
    ensures pad == XorAll(k + Zeros(64 - |k|), x)
  {
    assert forall i :: 0 <= i < 64 ==> (k + Zeros(64 - |k|))[i] == KeyByte(k, i);
  }

  /** One of the two pads: the key copied into a zeroed block, every byte then changed in place. */
  method PadKey(key: Bytes, x: byte) returns (pad: array<byte>)
    requires |key| <= 64
    ensures fresh(pad) && pad[..] == XorAll(key + Zeros(64 - |key|), x)
  {
    pad := new byte[64](_ => 0);
    ghost var padded := key + Zeros(64 - |key|);
    for i := 0 to |key|
      invariant forall j :: 0 <= j < i ==> pad[j] == key[j]
      invariant forall j :: i <= j < 64 ==> pad[j] == 0
    {
      pad[i] := key[i];
    }
    for i := 0 to 64
      invariant forall j :: 0 <= j < i ==> pad[j] == Xor(padded[j], x)
      invariant forall j :: i <= j < 64 ==> pad[j] == padded[j]
    {
      pad[i] := Xor(pad[i], x);
    }
  }

  /** Two updates and a final, as both passes of `fsql_hmac_sha256` make them. */
  method HashTwo<S>(c: Core<S>, a: Bytes, b: Bytes) returns (hash: Digest32)
    requires |a| < 0x1_0000_0000 && |b| < 0x1_0000_0000
    ensures hash == Digest(c, a + b)
  {
    var ctx := new Context(c);
    ctx.Update(a);
    ctx.Update(b);
    assert [] + a + b == a + b;
    hash := ctx.Final();
  }

  /** `fsql_hmac_sha256`. */
  method HmacSha256<S>(c: Core<S>, key: Bytes, msg: Bytes) returns (tag: Digest32)
    requires |key| < 0x1_0000_0000 && |msg| < 0x1_0000_0000
    ensures tag == Hmac(c, key, msg)
  {
    hide Digest, XorAll, Zeros;
    var k := key;
    if |key| > 64 {
      k := Hash(c, key);
    }
    var ipad := PadKey(k, 0x36);
    var opad := PadKey(k, 0x5c);
    var inner := HashTwo(c, ipad[..], msg);
    tag := HashTwo(c, opad[..], inner);
  }
}
