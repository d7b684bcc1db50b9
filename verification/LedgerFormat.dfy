/**
 The ledger file as bytes: a 9-byte file header, then records of a 116-byte header and a blob.
 `Records` is what every reader sees, `Tail` is what it stops at.
 */
module LedgerFormat {
  import opened ByteStrings
  import opened Sha256
  import SeqFacts

  const HEADER_LEN: nat := 116
  const MAX_BLOB: nat := 67108864
  const MAX_KIND: nat := 16

  /** "FSQLLDGR" and the version byte. */
  const MAGIC: Bytes := [0x46, 0x53, 0x51, 0x4C, 0x4C, 0x44, 0x47, 0x52, 1]

  type Word32 = x: nat | x < 0x1_0000_0000
  type Reserved = b: Bytes | |b| == 2 witness Zeros(2)
  type Stamp = b: Bytes | |b| == 8 witness Zeros(8)
  type Blob = b: Bytes | |b| <= MAX_BLOB

  datatype Header = Header(kind: Word32, hasMac: byte, sealed: byte, reserved: Reserved,
                           mac: Digest32, prev: Digest32, hash: Digest32, updated: Stamp)
  datatype Record = Record(head: Header, blob: Blob)

  function EncodeHeader(h: Header, blen: Word32): (r: Bytes)
    ensures |r| == HEADER_LEN
  {
    LittleEndian32(h.kind) + LittleEndian32(blen) + [h.hasMac, h.sealed] + h.reserved
    + h.mac + h.prev + h.hash + h.updated
  }

  /** The header fields at offset p, and the length of the blob behind them. */
  function HeaderAt(d: Bytes, p: nat): Header
    requires p + HEADER_LEN <= |d|
  {
    Header(FromLittleEndian32(d[p..p + 4]), d[p + 8], d[p + 9], d[p + 10..p + 12], d[p + 12..p + 44],
           d[p + 44..p + 76], d[p + 76..p + 108], d[p + 108..p + 116])
  }

  function BlobLengthAt(d: Bytes, p: nat): Word32
    requires p + HEADER_LEN <= |d|
  {
    FromLittleEndian32(d[p + 4..p + 8])
  }

  function DecodeHeader(d: Bytes): Header
    requires |d| >= HEADER_LEN
  {
    HeaderAt(d, 0)
  }

  function BlobLength(d: Bytes): Word32
    requires |d| >= HEADER_LEN
  {
    BlobLengthAt(d, 0)
  }

  lemma HeaderShift(d: Bytes, p: nat)
    requires p + HEADER_LEN <= |d|
    ensures HeaderAt(d, p) == DecodeHeader(d[p..]) && BlobLengthAt(d, p) == BlobLength(d[p..])
  {
    assert forall i, j | 0 <= i <= j <= HEADER_LEN :: d[p..][i..j] == d[p + i..p + j];
    var e := d[p..];
    assert e[0..4] == d[p..p + 4] && e[4..8] == d[p + 4..p + 8];
    assert e[10..12] == d[p + 10..p + 12] && e[12..44] == d[p + 12..p + 44];
    assert e[44..76] == d[p + 44..p + 76] && e[76..108] == d[p + 76..p + 108];
    assert e[108..116] == d[p + 108..p + 116];
  }

  function Encode(r: Record): (e: Bytes)
    ensures |e| == HEADER_LEN + |r.blob|
  {
    EncodeHeader(r.head, |r.blob|) + r.blob
  }

  function EncodeAll(rs: seq<Record>): Bytes {
    if rs == [] then [] else Encode(rs[0]) + EncodeAll(rs[1..])
  }

  /** What one turn of a reading loop meets: fewer than four bytes count as the end of the file. */
  datatype Next = Eof | TornHeader | BadLength | TornBlob | Got(record: Record, rest: Bytes)

  function ReadNext(d: Bytes): (n: Next)
    ensures n.Got? ==> |n.rest| < |d|
  {
    if |d| < 4 then Eof
    else if |d| < HEADER_LEN then TornHeader
    else if BlobLength(d) > MAX_BLOB then BadLength
    else if |d| < HEADER_LEN + BlobLength(d) then TornBlob
    else Got(Record(DecodeHeader(d), d[HEADER_LEN..HEADER_LEN + BlobLength(d)]), d[HEADER_LEN + BlobLength(d)..])
  }

  function Records(d: Bytes): seq<Record>
    decreases |d|
  {
    match ReadNext(d)
    case Got(r, rest) => [r] + Records(rest)
    case _ => []
  }

  function Tail(d: Bytes): (t: Bytes)
    ensures |t| <= |d|
    decreases |d|
  {
    match ReadNext(d)
    case Got(_, rest) => Tail(rest)
    case _ => d
  }

  /** A scan of d reaches what it takes for the end of the file. */
  predicate Clean(d: Bytes) {
    |Tail(d)| < 4
  }

  lemma HeaderRoundTrip(h: Header, blen: Word32, d: Bytes)
    requires |d| >= HEADER_LEN && d[..HEADER_LEN] == EncodeHeader(h, blen)
    ensures DecodeHeader(d) == h && BlobLength(d) == blen
  {
    var e := EncodeHeader(h, blen);
    LittleEndianRoundTrip(h.kind);
    LittleEndianRoundTrip(blen);
    assert forall i, j | 0 <= i <= j <= HEADER_LEN :: d[i..j] == e[i..j];
    assert e[0..4] == LittleEndian32(h.kind);
    assert e[4..8] == LittleEndian32(blen);
    assert e[8] == h.hasMac && e[9] == h.sealed;
    assert e[10..12] == h.reserved;
    assert e[12..44] == h.mac;
    assert e[44..76] == h.prev;
    assert e[76..108] == h.hash;
    assert e[108..116] == h.updated;
  }

  lemma HeaderOnto(d: Bytes)
    requires |d| >= HEADER_LEN
    ensures EncodeHeader(DecodeHeader(d), BlobLength(d)) == d[..HEADER_LEN]
  {
    LittleEndianOnto(d[0..4]);
    LittleEndianOnto(d[4..8]);
    assert [d[8], d[9]] == d[8..10];
  }

  /** A complete record in front of anything is read back as it was written. */
  lemma ReadEncoded(r: Record, rest: Bytes)
    ensures ReadNext(Encode(r) + rest) == Got(r, rest)
  {
    var d := Encode(r) + rest;
    assert d[..HEADER_LEN] == EncodeHeader(r.head, |r.blob|);
    HeaderRoundTrip(r.head, |r.blob|, d);
    assert d[HEADER_LEN..HEADER_LEN + |r.blob|] == r.blob;
    assert d[HEADER_LEN + |r.blob|..] == rest;
  }

  /** Only a complete record is read as one. */
  lemma ReadOnto(d: Bytes)
    requires ReadNext(d).Got?
    ensures d == Encode(ReadNext(d).record) + ReadNext(d).rest
  {
    HeaderOnto(d);
    var n := HEADER_LEN + BlobLength(d);
    assert d == d[..HEADER_LEN] + d[HEADER_LEN..n] + d[n..];
  }

  lemma RecordsCons(r: Record, rest: Bytes, d: Bytes)
    requires d == Encode(r) + rest
    ensures Records(d) == [r] + Records(rest)
    ensures Tail(d) == Tail(rest)
  {
    ReadEncoded(r, rest);
  }

  lemma EncodeAllSplit(r: Record, rs: seq<Record>, t: Bytes)
    ensures EncodeAll([r] + rs) + t == Encode(r) + (EncodeAll(rs) + t)
  {
    assert ([r] + rs)[1..] == rs;
  }

  lemma {:induction false} ReadEncodedAll(rs: seq<Record>, t: Bytes)
    ensures Records(EncodeAll(rs) + t) == rs + Records(t)
    ensures Tail(EncodeAll(rs) + t) == Tail(t)
  {
    hide Records, Tail, ReadNext, Encode;
    if rs == [] {
      assert EncodeAll(rs) + t == t;
    } else {
      ReadEncodedAll(rs[1..], t);
      SeqFacts.HeadTail(rs);
      EncodeAllSplit(rs[0], rs[1..], t);
      RecordsCons(rs[0], EncodeAll(rs[1..]) + t, EncodeAll(rs) + t);
      SeqFacts.Prepend(rs, Records(EncodeAll(rs[1..]) + t), Records(t));
    }
  }

  /** Every file is its complete records followed by its tail, and the tail starts no record. */
  lemma {:induction false} Decompose(d: Bytes)
    ensures d == EncodeAll(Records(d)) + Tail(d)
    ensures Records(Tail(d)) == [] && Tail(Tail(d)) == Tail(d) && !ReadNext(Tail(d)).Got?
    decreases |d|
  {
    hide ReadNext, Encode;
    if ReadNext(d).Got? {
      var r, rest := ReadNext(d).record, ReadNext(d).rest;
      ReadOnto(d);
      Decompose(rest);
      EncodeAllSplit(r, Records(rest), Tail(rest));
    }
  }

  lemma TailIsSuffix(d: Bytes)
    ensures d[|d| - |Tail(d)|..] == Tail(d)
    ensures d[..|d| - |Tail(d)|] == EncodeAll(Records(d))
  {
    Decompose(d);
  }

  lemma {:induction false} EncodeAllAppend(rs: seq<Record>, r: Record)
    ensures EncodeAll(rs + [r]) == EncodeAll(rs) + Encode(r)
  {
    if rs == [] {
      assert [r][1..] == [];
    } else {
      assert (rs + [r])[1..] == rs[1..] + [r];
      EncodeAllAppend(rs[1..], r);
    }
  }

  /** A proper prefix of a record never reads as a record. */
  lemma PrefixIsTorn(r: Record, n: nat)
    requires n < |Encode(r)|
    ensures !ReadNext(Encode(r)[..n]).Got?
    ensures Records(Encode(r)[..n]) == [] && Tail(Encode(r)[..n]) == Encode(r)[..n]
  {
    var d := Encode(r)[..n];
    if n >= HEADER_LEN {
      assert d[..HEADER_LEN] == EncodeHeader(r.head, |r.blob|);
      HeaderRoundTrip(r.head, |r.blob|, d);
    }
  }

  /** The records of one kind, in file order. */
  function OfKind(rs: seq<Record>, kind: nat): (k: seq<Record>)
    ensures |k| <= |rs|
  {
    if rs == [] then []
    else if rs[0].head.kind == kind then [rs[0]] + OfKind(rs[1..], kind)
    else OfKind(rs[1..], kind)
  }

  lemma {:induction false} OfKindAppend(a: seq<Record>, b: seq<Record>, kind: nat)
    ensures OfKind(a + b, kind) == OfKind(a, kind) + OfKind(b, kind)
  {
    if a == [] {
      assert a + b == b;
    } else {
      assert (a + b)[1..] == a[1..] + b;
      OfKindAppend(a[1..], b, kind);
    }
  }
}
