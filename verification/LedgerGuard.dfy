/**
 What a verification guarantees, written out: which bytes every record carries and what its digests are
 taken over, and what the head file's MACs are worth once somebody has edited it.
 */
module LedgerGuard {
  import opened ByteStrings
  import opened Sha256
  import opened Wrappers
  import opened Texts
  import opened LedgerFormat
  import opened LedgerReader
  import opened LedgerChain
  import opened LedgerStore
  import opened LedgerRuns
  import JsonKeys
  import JsonSyntax
  import SeqFacts

  // ----- a chain, record by record -----

  /** What a verified record carries, given the hash of the one before it. */
  predicate Vouched(u: Suite, key: Key, r: Record, prev: Bytes) {
    && (key.Some? ==> r.head.hasMac != 0 && r.head.mac == u.hmac(key.value, r.blob))
    && r.head.prev == prev
    && r.head.hash == u.hash(prev + r.blob + (if r.head.hasMac != 0 then r.head.mac else []))
  }

  /** The hash of the record before the i-th. */
  function Before(rs: seq<Record>, start: Digest32, i: nat): Digest32
    requires i <= |rs|
  {
    if i == 0 then start else rs[i - 1].head.hash
  }

  /** A chain verifies exactly when every record vouches for the one before it, the first for the start. */
  lemma {:induction false} ChainOkIs(u: Suite, key: Key, rs: seq<Record>, start: Digest32)
    ensures ChainOk(u, key, rs, start) <==> forall i :: 0 <= i < |rs| ==> Vouched(u, key, rs[i], Before(rs, start, i))
  {
    hide Vouched, Fault;
    if rs != [] {
      var rest := rs[1..];
      ChainOkIs(u, key, rest, rs[0].head.hash);
      FaultIs(u, key, rs[0], start);
      assert Before(rs, start, 0) == start;
      forall i | 0 <= i < |rest|
        ensures rest[i] == rs[i + 1] && Before(rest, rs[0].head.hash, i) == Before(rs, start, i + 1)
      {
      }
      if forall i :: 0 <= i < |rest| ==> Vouched(u, key, rest[i], Before(rest, rs[0].head.hash, i)) {
        forall i | 0 < i < |rs|
          ensures Vouched(u, key, rs[i], Before(rs, start, i))
        {
          assert Vouched(u, key, rest[i - 1], Before(rest, rs[0].head.hash, i - 1));
        }
      }
    }
  }

  lemma FaultIs(u: Suite, key: Key, r: Record, prev: Digest32)
    ensures Fault(u, key, r, prev).None? <==> Vouched(u, key, r, prev)
  {
  }

  lemma GenesisIs()
    ensures |GENESIS| == 32 && forall i :: 0 <= i < 32 ==> GENESIS[i] == 0
  {
  }

  // ----- what a verification accepts -----

  /** What the MAC of a head record is taken over. */
  function CountText(kind: int, rows: nat): Bytes {
    Octets("kind=" + Decimal(kind) + " rows=" + Decimal(rows))
  }

  /** The head record that counts for a kind: the first one. */
  predicate Counts(head: HeadFile, kind: int, i: nat) {
    head.Head? && i < |head.recs| && head.recs[i].kind == kind && forall j :: 0 <= j < i ==> head.recs[j].kind != kind
  }

  lemma CountsIs(head: HeadFile, kind: int, i: nat)
    requires Counts(head, kind, i)
    ensures Slot(head.recs, kind) == i
  {
  }

  lemma NoneCounts(head: HeadFile, kind: int)
    requires forall i: nat :: !Counts(head, kind, i)
    ensures head.Head? ==> Slot(head.recs, kind) == |head.recs|
  {
    if head.Head? {
      var slot := Slot(head.recs, kind);
      assert slot < |head.recs| ==> Counts(head, kind, slot);
    }
  }

  /** The count authenticates, when there is a key to do it with. */
  predicate Authentic(c: Config, rec: HeadRec) {
    c.key.Some? ==> rec.mac == Some(c.suite.hmac(c.key.value, CountText(rec.kind, rec.rows)))
  }

  /**
   `fractal_ledger_verify` accepts a file exactly when its header is right, no record is torn, the kind's chain
   holds from the zero hash on, the head file parses, and the head record that counts for the kind, if there
   is one, authenticates and does not count more rows than the chain has. Without a ledger file only the
   count is looked at: it must not be above zero.
   */
  lemma VerifiedIff(c: Config, s: Disk, kind: nat)
    requires 1 <= kind <= 16
    ensures Verify(c, s, kind).Verified? <==>
      match s.file
      case None => forall i: nat :: Counts(s.head, kind, i) ==> s.head.recs[i].rows == 0
      case Some(f) =>
        && HasMagic(f) && |Tail(f[9..])| < 4
        && ChainOk(c.suite, c.key, OfKind(Records(f[9..]), kind), GENESIS)
        && !s.head.Unparsable?
        && (forall i: nat :: Counts(s.head, kind, i) ==>
              Authentic(c, s.head.recs[i]) && s.head.recs[i].rows <= |OfKind(Records(f[9..]), kind)|)
    ensures s.file.Some? && Verify(c, s, kind).Verified?
      ==> Verify(c, s, kind).rows == |OfKind(Records(s.file.value[9..]), kind)|
  {
    hide Walk, ChainOk, OfKind, Records, Tail, Authentic, Slot;
    assert |MAGIC| == 9;
    HeadPart(c, s.head, kind);
    if s.file.Some? && HasMagic(s.file.value) {
      WalkVerifies(c.suite, c.key, kind, s.file.value[9..]);
    }
  }

  lemma HeadPart(c: Config, head: HeadFile, kind: nat)
    requires 1 <= kind <= 16
    ensures HeadFault(c, head, kind).None?
       <==> !head.Unparsable? && forall i: nat :: Counts(head, kind, i) ==> Authentic(c, head.recs[i])
    ensures forall i: nat :: Counts(head, kind, i) ==> HeadRows(head, kind) == head.recs[i].rows
    ensures (forall i: nat :: !Counts(head, kind, i)) ==> HeadRows(head, kind) == 0
  {
    hide CountText, Octets, Decimal;
    if i: nat :| Counts(head, kind, i) {
      CountsIs(head, kind, i);
      assert forall j: nat :: Counts(head, kind, j) ==> j == i;
      MacIs(c, kind, head.recs[i].rows);
    } else {
      NoneCounts(head, kind);
    }
  }

  lemma MacIs(c: Config, kind: int, rows: nat)
    ensures c.key.Some? ==> HeadMac(c, kind, rows) == Some(c.suite.hmac(c.key.value, CountText(kind, rows)))
  {
  }

  // ----- a count says what it counts -----

  function FirstSpace(t: string): (n: nat)
    ensures n <= |t|
  {
    if t == "" || t[0] == ' ' then 0 else 1 + FirstSpace(t[1..])
  }

  lemma {:induction false} FirstSpaceIs(a: string, x: string)
    requires forall i :: 0 <= i < |a| ==> a[i] != ' '
    ensures FirstSpace(a + (" " + x)) == |a|
  {
    if a == "" {
      assert a + (" " + x) == " " + x;
    } else {
      SeqFacts.Uncons(a, " " + x);
      FirstSpaceIs(a[1..], x);
    }
  }

  lemma SpaceSplits(a: string, b: string, x: string, y: string)
    requires a + " " + x == b + " " + y
    requires (forall i :: 0 <= i < |a| ==> a[i] != ' ') && forall i :: 0 <= i < |b| ==> b[i] != ' '
    ensures a == b && x == y
  {
    SeqFacts.Assoc(a, " ", x);
    SeqFacts.Assoc(b, " ", y);
    FirstSpaceIs(a, x);
    FirstSpaceIs(b, y);
    var t := a + " " + x;
    assert t[..|a|] == a && t[..|b|] == b && t[|a| + 1..] == x && t[|b| + 1..] == y;
  }

  lemma OctetsTell(s: string, t: string)
    requires Octets(s) == Octets(t)
    requires (forall i :: 0 <= i < |s| ==> s[i] as int < 256) && forall i :: 0 <= i < |t| ==> t[i] as int < 256
    ensures s == t
  {
    forall i | 0 <= i < |s|
      ensures s[i] == t[i]
    {
      assert Octets(s)[i] == Octets(t)[i];
    }
  }

  lemma DecimalChars(n: int)
    ensures forall i :: 0 <= i < |Decimal(n)| ==> Decimal(n)[i] == '-' || '0' <= Decimal(n)[i] <= '9'
  {
  }

  lemma DecimalTells(a: int, b: int)
    requires Decimal(a) == Decimal(b)
    ensures a == b
  {
    hide DecimalNat;
    var x, y := if a < 0 then -a else a, if b < 0 then -b else b;
    JsonKeys.DecimalValue(x);
    JsonKeys.DecimalValue(y);
    if a < 0 {
      assert Decimal(a)[0] == '-' && Decimal(a)[1..] == DecimalNat(x);
    }
    if b < 0 {
      assert Decimal(b)[0] == '-' && Decimal(b)[1..] == DecimalNat(y);
    }
  }

  lemma CountPieces(kind: int, rows: nat) returns (a: string, x: string)
    ensures a == "kind=" + Decimal(kind) && x == "rows=" + Decimal(rows)
    ensures CountText(kind, rows) == Octets(a + " " + x)
    ensures forall i :: 0 <= i < |a| ==> a[i] != ' '
    ensures forall i :: 0 <= i < |a + " " + x| ==> (a + " " + x)[i] as int < 256
  {
    hide Decimal;
    DecimalChars(kind);
    DecimalChars(rows);
    a, x := "kind=" + Decimal(kind), "rows=" + Decimal(rows);
    assert " rows=" == " " + "rows=";
    assert "kind=" + Decimal(kind) + " rows=" + Decimal(rows) == a + " " + x;
  }

  /** The text a MAC is taken over names one kind and one count. */
  lemma CountTextTells(k1: int, r1: nat, k2: int, r2: nat)
    requires CountText(k1, r1) == CountText(k2, r2)
    ensures k1 == k2 && r1 == r2
  {
    hide CountText, Octets, Decimal;
    var a, x := CountPieces(k1, r1);
    var b, y := CountPieces(k2, r2);
    OctetsTell(a + " " + x, b + " " + y);
    SpaceSplits(a, b, x, y);
    assert a[5..] == Decimal(k1) && b[5..] == Decimal(k2) && x[5..] == Decimal(r1) && y[5..] == Decimal(r2);
    DecimalTells(k1, k2);
    DecimalTells(r1, r2);
  }

  // ----- edited head files -----

  /** Two different texts with one MAC. */
  predicate SameMac(c: Config, a: Bytes, b: Bytes) {
    c.key.Some? && a != b && c.suite.hmac(c.key.value, a) == c.suite.hmac(c.key.value, b)
  }

  /** Under a key, a head record without a MAC fails every verification of its kind. */
  lemma BareCountFails(c: Config, file: Bytes, head: HeadFile, kind: nat, i: nat)
    requires 1 <= kind <= 16 && c.key.Some? && Counts(head, kind, i) && head.recs[i].mac.None?
    ensures Verify(c, Disk(Some(file), head), kind).Failed?
  {
    hide Verify;
    VerifiedIff(c, Disk(Some(file), head), kind);
  }

  /**
   A MAC that was made for another kind or another count does not help: whatever the ledger file, the
   verification fails, unless the two texts, which differ, have one MAC.
   */
  lemma ForgedCountFails(c: Config, file: Bytes, head: HeadFile, kind: nat, i: nat, k: int, rows: nat)
    requires 1 <= kind <= 16 && c.key.Some? && Counts(head, kind, i)
    requires head.recs[i].mac == Some(c.suite.hmac(c.key.value, CountText(k, rows)))
    requires k != kind || rows != head.recs[i].rows
    ensures Verify(c, Disk(Some(file), head), kind).Failed?
         || SameMac(c, CountText(k, rows), CountText(kind, head.recs[i].rows))
  {
    hide Verify, CountText;
    VerifiedIff(c, Disk(Some(file), head), kind);
    if CountText(k, rows) == CountText(kind, head.recs[i].rows) {
      CountTextTells(k, rows, kind, head.recs[i].rows);
    }
  }

  /**
   Over every run under a key: give the count of a kind another value in the head file that the run has left,
   keep any MAC that stands in it or none, and no ledger file passes verify beside it any more, unless the HMAC gives
   two different head texts one MAC.
   */
  lemma EditedCountFails(c: Config, ops: seq<Op>, i: nat, rows: nat, from: nat, file: Bytes)
    requires c.key.Some? && SafeRun(c, EMPTY, ops)
    requires var head := Run(c, EMPTY, ops).head;
      head.Head? && i < |head.recs| && from < |head.recs| && rows != head.recs[i].rows
    ensures var recs := Run(c, EMPTY, ops).head.recs;
      var kind := recs[i].kind;
      && 1 <= kind <= 16
      && Verify(c, Disk(Some(file), Head(recs[i := HeadRec(kind, rows, None)])), kind).Failed?
      && (Verify(c, Disk(Some(file), Head(recs[i := HeadRec(kind, rows, recs[from].mac)])), kind).Failed?
          || (exists j :: 0 <= j < |recs| && SameMac(c, CountText(recs[j].kind, recs[j].rows), CountText(kind, rows)))
          || (recs[from].kind == kind && recs[from].rows == rows))
  {
    hide Run, SafeRun, Verify, CountText, Sound, SameMac;
    var recs := Run(c, EMPTY, ops).head.recs;
    EmptySound(c);
    RunSound(c, EMPTY, ops);
    SoundHead(c, Run(c, EMPTY, ops));
    var kind := recs[i].kind;
    var bare := Head(recs[i := HeadRec(kind, rows, None)]);
    var moved := Head(recs[i := HeadRec(kind, rows, recs[from].mac)]);
    BareCountFails(c, file, bare, kind, i);
    assert Counts(moved, kind, i);
    if !(recs[from].kind == kind && recs[from].rows == rows) {
      ForgedCountFails(c, file, moved, kind, i, recs[from].kind, recs[from].rows);
    }
  }

  /** On a sound disk the head has one record a kind, and each carries its own MAC. */
  lemma SoundHead(c: Config, s: Disk)
    requires Sound(c, s) && s.head.Head?
    ensures forall i :: 0 <= i < |s.head.recs| ==>
      1 <= s.head.recs[i].kind <= 16 && Counts(s.head, s.head.recs[i].kind, i)
    ensures c.key.Some? ==> forall i :: 0 <= i < |s.head.recs| ==>
      s.head.recs[i].mac == Some(c.suite.hmac(c.key.value, CountText(s.head.recs[i].kind, s.head.recs[i].rows)))
  {
    hide CountText;
    forall i | 0 <= i < |s.head.recs|
      ensures 1 <= s.head.recs[i].kind <= 16 && Counts(s.head, s.head.recs[i].kind, i)
      ensures c.key.Some? ==>
        s.head.recs[i].mac == Some(c.suite.hmac(c.key.value, CountText(s.head.recs[i].kind, s.head.recs[i].rows)))
    {
      assert HeadRecOk(c, Stored(s.file), s.head.recs[i]);
      MacIs(c, s.head.recs[i].kind, s.head.recs[i].rows);
    }
  }

  // ----- what an append writes -----

  /** The fields of a record on disk: two little-endian words, two flags, two spare bytes, four byte strings, the blob. */
  lemma RecordLayout(r: Record)
    ensures var e := Encode(r);
      && |e| == 116 + |r.blob|
      && (e[0] as int) + 0x100 * (e[1] as int) + 0x1_0000 * (e[2] as int) + 0x100_0000 * (e[3] as int) == r.head.kind
      && (e[4] as int) + 0x100 * (e[5] as int) + 0x1_0000 * (e[6] as int) + 0x100_0000 * (e[7] as int) == |r.blob|
      && e[8] == r.head.hasMac && e[9] == r.head.sealed && e[10..12] == r.head.reserved
      && e[12..44] == r.head.mac && e[44..76] == r.head.prev && e[76..108] == r.head.hash
      && e[108..116] == r.head.updated && e[116..] == r.blob
  {
    hide LittleEndian32;
    var e, h := Encode(r), EncodeHeader(r.head, |r.blob|);
    LittleEndianRoundTrip(r.head.kind);
    LittleEndianRoundTrip(|r.blob|);
    assert e[..116] == h && e[116..] == r.blob;
    assert h[..4] == LittleEndian32(r.head.kind) && h[4..8] == LittleEndian32(|r.blob|);
    HeaderPieces(r.head, |r.blob|);
    assert e[10..12] == h[10..12] && e[12..44] == h[12..44] && e[44..76] == h[44..76];
    assert e[76..108] == h[76..108] && e[108..116] == h[108..116];
  }

  lemma HeaderPieces(head: Header, blen: Word32)
    ensures var h := EncodeHeader(head, blen);
      && h[8] == head.hasMac && h[9] == head.sealed && h[10..12] == head.reserved
      && h[12..44] == head.mac && h[44..76] == head.prev && h[76..108] == head.hash && h[108..116] == head.updated
  {
    hide LittleEndian32;
  }

  lemma MagicIs()
    ensures MAGIC == Octets("FSQLLDGR") + [1]
  {
  }

  /**
   The record that a finished append puts behind the others, field by field: unsealed, with the MAC of its
   blob under the key or 32 zero bytes without one, and linked to the newest of its kind.
   */
  lemma AppendLeaves(c: Config, s: Disk, op: Op) returns (r: Record)
    requires Sound(c, s) && op.fate.Finishes? && !IsRefused(c, s.file, op.kind, op.payload)
    ensures Stored(Write(c, s, op.kind, op.payload, op.stamp, op.fate).1.file) == Stored(s.file) + [r]
    ensures r.head.kind == op.kind && r.blob == op.payload && r.head.updated == op.stamp
    ensures r.head.sealed == 0 && r.head.reserved == [0, 0]
    ensures c.key.Some? ==> r.head.hasMac == 1 && r.head.mac == c.suite.hmac(c.key.value, op.payload)
    ensures c.key.None? ==> r.head.hasMac == 0 && forall i :: 0 <= i < 32 ==> r.head.mac[i] == 0
    ensures var before := OfKind(Stored(s.file), op.kind);
      r.head.prev == if before == [] then GENESIS else before[|before| - 1].head.hash
    ensures r.head.hash == c.suite.hash(r.head.prev + op.payload + (if c.key.Some? then r.head.mac else []))
  {
    r := WriteReads(c, s, op);
    BaseIsWhole(c, s);
    hide Write, Records, OfKind, Encode, Sound;
  }

  /**
   A crash after w bytes leaves a new file with the first w bytes of its header and record, and any other file
   repaired and with the first w bytes of the record behind it. The head file is as it was.
   */
  lemma CrashLeaves(c: Config, s: Disk, op: Op)
    requires op.fate.Dies? && !IsRefused(c, s.file, op.kind, op.payload)
    ensures var s' := Write(c, s, op.kind, op.payload, op.stamp, op.fate).1;
      var bytes := Encode(NewRecord(c, Base(s.file), op.kind, op.payload, op.stamp));
      var w := op.fate.written;
      && s'.head == s.head && s'.file.Some?
      && (IsNew(s.file) ==> s'.file.value == if w < |MAGIC + bytes| then (MAGIC + bytes)[..w] else MAGIC + bytes)
      && (!IsNew(s.file) ==>
            s'.file.value == MAGIC + Repaired(s.file.value[9..]) + if w < |bytes| then bytes[..w] else bytes)
  {
    hide Records, OfKind, Encode, NewRecord, Repaired, HeadAfter;
    assert |MAGIC| == 9;
    var bytes := Encode(NewRecord(c, Base(s.file), op.kind, op.payload, op.stamp));
    var w := op.fate.written;
    if IsNew(s.file) {
      assert MAGIC + [] == MAGIC;
      assert w < 9 ==> (MAGIC + bytes)[..w] == MAGIC[..w];
      assert 9 <= w < 9 + |bytes| ==> (MAGIC + bytes)[..w] == MAGIC + bytes[..w - 9];
    }
  }

  /** When there is a record to read, and what it is told apart from. */
  lemma NextIs(d: Bytes)
    ensures ReadNext(d).Eof? <==> |d| <= 3
    ensures ReadNext(d).TornHeader? <==> 4 <= |d| <= 115
    ensures |d| >= 116 ==>
      var blen := (d[4] as int) + 0x100 * (d[5] as int) + 0x1_0000 * (d[6] as int) + 0x100_0000 * (d[7] as int);
      && (ReadNext(d).BadLength? <==> blen > 67108864)
      && (ReadNext(d).TornBlob? <==> blen <= 67108864 && |d| < 116 + blen)
      && (ReadNext(d).Got? <==> blen <= 67108864 && |d| >= 116 + blen)
      && (ReadNext(d).Got? ==> ReadNext(d).record.blob == d[116..116 + blen] && ReadNext(d).rest == d[116 + blen..])
  {
    hide DecodeHeader;
  }

  /** When an append is refused. */
  lemma RefusedIff(c: Config, file: Option<Bytes>, kind: int, payload: Bytes)
    ensures IsRefused(c, file, kind, payload) <==>
      || kind < 1 || kind > 16 || |payload| > 67108864
      || (file.Some? && c.cap > 0 && |file.value| >= c.cap)
      || (file.Some? && file.value != [] && (|file.value| < 9 || file.value[..9] != Octets("FSQLLDGR") + [1]))
  {
    MagicIs();
    assert |MAGIC| == 9;
  }

  /** The crash points that the run theorems leave out: one to three bytes of a record, and a partial file header. */
  lemma SafeFateIs(file: Option<Bytes>, w: nat)
    ensures SafeFate(file, Finishes)
    ensures file.Some? && file.value != [] ==> (SafeFate(file, Dies(w)) <==> !(1 <= w <= 3))
    ensures file.None? || file.value == [] ==> (SafeFate(file, Dies(w)) <==> !(1 <= w <= 8) && !(10 <= w <= 12))
  {
    assert |MAGIC| == 9;
  }
}
