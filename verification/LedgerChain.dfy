/**
 The hash chain of one record kind: what a verified chain is, the full walk, the O(1) tip check,
 and what the newest hash says about everything before it.
 */
module LedgerChain {
  import opened ByteStrings
  import opened Sha256
  import opened Wrappers
  import opened LedgerFormat
  import opened LedgerReader
  import SeqFacts

  /** SHA-256 and HMAC-SHA256. Nothing below depends on which functions they are. */
  datatype Suite = Suite(hash: Bytes -> Digest32, hmac: (Bytes, Bytes) -> Digest32)

  type Key = Option<Bytes>

  const GENESIS: Digest32 := Zeros(32)

  datatype Reason =
    | NoMac | HmacMismatch | HashMismatch | LinkBreak
    | TruncatedRecord | BlobTooLong | TruncatedBlob
    | LedgerMissing | BadFileHeader | FewerRows
    | HeadCorrupt | HeadNoMac | HeadMacMismatch

  function MacPart(r: Record): Bytes {
    if r.head.hasMac != 0 then r.head.mac else []
  }

  /** What `entry_hash` is taken over. */
  function HashInput(r: Record): Bytes {
    r.head.prev + r.blob + MacPart(r)
  }

  /** The checks one record has to pass, in the order the source makes them. */
  function Fault(u: Suite, key: Key, r: Record, prev: Digest32): Option<Reason> {
    if key.Some? && r.head.hasMac == 0 then Some(NoMac)
    else if key.Some? && u.hmac(key.value, r.blob) != r.head.mac then Some(HmacMismatch)
    else if u.hash(HashInput(r)) != r.head.hash then Some(HashMismatch)
    else if r.head.prev != prev then Some(LinkBreak)
    else None
  }

  predicate ChainOk(u: Suite, key: Key, rs: seq<Record>, prev: Digest32) {
    rs == [] || (Fault(u, key, rs[0], prev).None? && ChainOk(u, key, rs[1..], rs[0].head.hash))
  }

  /** The hash the next record has to link to. */
  function TipHash(rs: seq<Record>, start: Digest32): Digest32 {
    if rs == [] then start else rs[|rs| - 1].head.hash
  }

  lemma {:induction false} ChainAppend(u: Suite, key: Key, rs: seq<Record>, r: Record, prev: Digest32)
    ensures ChainOk(u, key, rs + [r], prev)
        <==> ChainOk(u, key, rs, prev) && Fault(u, key, r, TipHash(rs, prev)).None?
  {
    if rs == [] {
      assert rs + [r] == [r];
    } else {
      assert (rs + [r])[1..] == rs[1..] + [r];
      ChainAppend(u, key, rs[1..], r, rs[0].head.hash);
    }
  }

  /** The report of `fractal_ledger_verify`. */
  datatype Report = Verified(rows: nat) | Failed(firstFailure: nat, reason: Reason)

  /** The walk of one kind over the unread bytes, `rec` records and `n` of the kind already passed. */
  function Walk(u: Suite, key: Key, kind: nat, d: Bytes, rec: nat, n: nat, prev: Digest32): Report
    decreases |d|
  {
    match ReadNext(d)
    case Eof => Verified(n)
    case TornHeader => Failed(rec + 1, TruncatedRecord)
    case BadLength => Failed(rec + 1, BlobTooLong)
    case TornBlob => Failed(rec + 1, TruncatedBlob)
    case Got(r, rest) =>
      if r.head.kind != kind then Walk(u, key, kind, rest, rec + 1, n, prev)
      else match Fault(u, key, r, prev)
        case Some(reason) => Failed(rec + 1, reason)
        case None => Walk(u, key, kind, rest, rec + 1, n + 1, r.head.hash)
  }

  /** The loop of `fractal_ledger_verify`. */
  method WalkFile(u: Suite, key: Key, kind: nat, fp: File) returns (report: Report)
    requires fp.Valid()
    modifies fp
    ensures report == Walk(u, key, kind, old(fp.Rest()), 0, 0, GENESIS)
  {
    var prevExpected := GENESIS;
    var n, rec := 0, 0;
    ghost var d := fp.Rest();
    while true
      invariant fp.Valid()
      invariant Walk(u, key, kind, d, 0, 0, GENESIS) == Walk(u, key, kind, fp.Rest(), rec, n, prevExpected)
      decreases |fp.Rest()|
    {
      var next := ReadRecord(fp);
      match next {
        case Eof => return Verified(n);
        case TornHeader => return Failed(rec + 1, TruncatedRecord);
        case BadLength => return Failed(rec + 1, BlobTooLong);
        case TornBlob => return Failed(rec + 1, TruncatedBlob);
        case Got(r, _) =>
          rec := rec + 1;
          if r.head.kind == kind {
            n := n + 1;
            var fault := Fault(u, key, r, prevExpected);
            if fault.Some? {
              return Failed(rec, fault.value);
            }
            prevExpected := r.head.hash;
          }
      }
    }
  }

  /** Why a reading loop stops at the end of the records of d: None at an end of file. */
  function EndFault(d: Bytes): Option<Reason> {
    match ReadNext(Tail(d))
    case TornHeader => Some(TruncatedRecord)
    case BadLength => Some(BlobTooLong)
    case TornBlob => Some(TruncatedBlob)
    case _ => None
  }

  /** The same walk with the records already read. */
  function WalkRecords(u: Suite, key: Key, kind: nat, rs: seq<Record>, end: Option<Reason>,
                       rec: nat, n: nat, prev: Digest32): Report
  {
    if rs == [] then
      if end.Some? then Failed(rec + 1, end.value) else Verified(n)
    else if rs[0].head.kind != kind then WalkRecords(u, key, kind, rs[1..], end, rec + 1, n, prev)
    else match Fault(u, key, rs[0], prev)
      case Some(reason) => Failed(rec + 1, reason)
      case None => WalkRecords(u, key, kind, rs[1..], end, rec + 1, n + 1, rs[0].head.hash)
  }

  lemma {:induction false} WalkIsWalkRecords(u: Suite, key: Key, kind: nat, d: Bytes, rec: nat, n: nat, prev: Digest32)
    ensures Walk(u, key, kind, d, rec, n, prev)
         == WalkRecords(u, key, kind, Records(d), EndFault(d), rec, n, prev)
    decreases |d|
  {
    match ReadNext(d)
    case Got(r, rest) =>
      assert Records(d)[0] == r && Records(d)[1..] == Records(rest) && EndFault(d) == EndFault(rest);
      WalkIsWalkRecords(u, key, kind, rest, rec + 1, if r.head.kind == kind then n + 1 else n,
                        if r.head.kind == kind then r.head.hash else prev);
    case _ =>
  }

  lemma EndFaultIsUnclean(d: Bytes)
    ensures EndFault(d).None? <==> Clean(d)
  {
    Decompose(d);
  }

  lemma {:induction false} WalkRecordsVerifies(u: Suite, key: Key, kind: nat, rs: seq<Record>, end: Option<Reason>,
                                               rec: nat, n: nat, prev: Digest32)
    ensures var f := WalkRecords(u, key, kind, rs, end, rec, n, prev);
      && (f.Verified? <==> end.None? && ChainOk(u, key, OfKind(rs, kind), prev))
      && (f.Verified? ==> f.rows == n + |OfKind(rs, kind)|)
  {
    if rs != [] {
      var mine := rs[0].head.kind == kind;
      WalkRecordsVerifies(u, key, kind, rs[1..], end, rec + 1, if mine then n + 1 else n,
                          if mine then rs[0].head.hash else prev);
      if mine {
        assert OfKind(rs, kind)[1..] == OfKind(rs[1..], kind);
      }
    }
  }

  /** The walk succeeds exactly on a file that scans clean and whose records of the kind chain up. */
  lemma WalkVerifies(u: Suite, key: Key, kind: nat, d: Bytes)
    ensures Walk(u, key, kind, d, 0, 0, GENESIS).Verified?
        <==> Clean(d) && ChainOk(u, key, OfKind(Records(d), kind), GENESIS)
    ensures Walk(u, key, kind, d, 0, 0, GENESIS).Verified?
        ==> Walk(u, key, kind, d, 0, 0, GENESIS).rows == |OfKind(Records(d), kind)|
  {
    WalkIsWalkRecords(u, key, kind, d, 0, 0, GENESIS);
    WalkRecordsVerifies(u, key, kind, Records(d), EndFault(d), 0, 0, GENESIS);
    EndFaultIsUnclean(d);
  }

  lemma OfKindCons(r: Record, rs: seq<Record>, kind: nat)
    ensures OfKind([r] + rs, kind) == if r.head.kind == kind then [r] + OfKind(rs, kind) else OfKind(rs, kind)
  {
    assert ([r] + rs)[1..] == rs;
  }

  /**
   The records before position `at` chain up, and at it stands a record of the kind that does not
   (for the reason given), or bytes that are no record.
   */
  predicate FirstFault(u: Suite, key: Key, kind: nat, rs: seq<Record>, clean: bool, prev: Digest32,
                       at: int, reason: Reason)
  {
    && 0 <= at <= |rs|
    && ChainOk(u, key, OfKind(rs[..at], kind), prev)
    && (at == |rs| ==> !clean)
    && (at < |rs| ==> rs[at].head.kind == kind
                      && Fault(u, key, rs[at], TipHash(OfKind(rs[..at], kind), prev)) == Some(reason))
  }

  lemma FirstFaultCons(u: Suite, key: Key, kind: nat, r: Record, rs: seq<Record>, clean: bool, prev: Digest32,
                       at: int, reason: Reason)
    requires r.head.kind == kind ==> Fault(u, key, r, prev).None?
    requires FirstFault(u, key, kind, rs, clean, if r.head.kind == kind then r.head.hash else prev, at, reason)
    ensures FirstFault(u, key, kind, [r] + rs, clean, prev, at + 1, reason)
  {
    hide Fault, OfKind;
    var before := rs[..at];
    assert ([r] + rs)[..at + 1] == [r] + before;
    OfKindCons(r, before, kind);
    assert ([r] + OfKind(before, kind))[1..] == OfKind(before, kind);
  }

  lemma {:induction false} WalkRecordsNamesFault(u: Suite, key: Key, kind: nat, rs: seq<Record>, end: Option<Reason>,
                                                 rec: nat, n: nat, prev: Digest32)
    requires WalkRecords(u, key, kind, rs, end, rec, n, prev).Failed?
    ensures var f := WalkRecords(u, key, kind, rs, end, rec, n, prev);
      FirstFault(u, key, kind, rs, end.None?, prev, f.firstFailure - rec - 1, f.reason)
  {
    hide OfKind, HashInput;
    var f := WalkRecords(u, key, kind, rs, end, rec, n, prev);
    assert rs[..0] == [] && OfKind([], kind) == [];
    if rs != [] && !(rs[0].head.kind == kind && Fault(u, key, rs[0], prev).Some?) {
      var mine := rs[0].head.kind == kind;
      WalkRecordsNamesFault(u, key, kind, rs[1..], end, rec + 1, if mine then n + 1 else n,
                            if mine then rs[0].head.hash else prev);
      FirstFaultCons(u, key, kind, rs[0], rs[1..], end.None?, prev, f.firstFailure - rec - 2, f.reason);
      SeqFacts.HeadTail(rs);
    }
  }

  /** A failing walk names the first bad place. */
  lemma WalkNamesFirstFault(u: Suite, key: Key, kind: nat, d: Bytes)
    requires Walk(u, key, kind, d, 0, 0, GENESIS).Failed?
    ensures var f := Walk(u, key, kind, d, 0, 0, GENESIS);
      FirstFault(u, key, kind, Records(d), Clean(d), GENESIS, f.firstFailure - 1, f.reason)
  {
    WalkIsWalkRecords(u, key, kind, d, 0, 0, GENESIS);
    WalkRecordsNamesFault(u, key, kind, Records(d), EndFault(d), 0, 0, GENESIS);
    EndFaultIsUnclean(d);
  }

  /** `ledger_verify_latest_file` on an open file. */
  method VerifyLatest(u: Suite, key: Key, kind: nat, fp: File) returns (ok: bool)
    requires fp.Valid()
    modifies fp
    ensures ok <==> TipOk(u, key, kind, old(fp.Rest()))
  {
    hide OfKind, Records, Clean, HashInput;
    var clean, latest, prior, _, _ := ScanLatestTwo(fp, kind);
    if !clean { return false; }
    if latest.None? { return true; }
    var r := latest.value;
    if key.Some? && r.head.hasMac == 0 { return false; }
    if key.Some? && u.hmac(key.value, r.blob) != r.head.mac { return false; }
    if u.hash(HashInput(r)) != r.head.hash { return false; }
    ok := r.head.prev == (if prior.Some? then prior.value.head.hash else GENESIS);
  }

  /** What the O(1) check looks at: the newest record of the kind and the one before it. */
  predicate TipOk(u: Suite, key: Key, kind: nat, d: Bytes) {
    var rs := OfKind(Records(d), kind);
    && Clean(d)
    && (rs == [] || Fault(u, key, rs[|rs| - 1], TipHash(rs[..|rs| - 1], GENESIS)).None?)
  }

  lemma ChainTip(u: Suite, key: Key, rs: seq<Record>)
    requires rs != [] && ChainOk(u, key, rs, GENESIS)
    ensures ChainOk(u, key, rs[..|rs| - 1], GENESIS)
    ensures Fault(u, key, rs[|rs| - 1], TipHash(rs[..|rs| - 1], GENESIS)).None?
  {
    assert rs == rs[..|rs| - 1] + [rs[|rs| - 1]];
    ChainAppend(u, key, rs[..|rs| - 1], rs[|rs| - 1], GENESIS);
  }

  /** Whatever the full walk accepts, the tip check accepts. */
  lemma FullImpliesTip(u: Suite, key: Key, kind: nat, d: Bytes)
    requires Walk(u, key, kind, d, 0, 0, GENESIS).Verified?
    ensures TipOk(u, key, kind, d)
  {
    WalkVerifies(u, key, kind, d);
    var rs := OfKind(Records(d), kind);
    if rs != [] {
      ChainTip(u, key, rs);
    }
  }

  // ----- the tip fixes the chain -----

  /** Where a hash function fails: two different inputs with one digest, or an all-zero digest. */
  datatype Breach = Collision(i: nat, j: nat) | ZeroLeft(i: nat) | ZeroRight(j: nat)

  predicate IsBreach(u: Suite, a: seq<Record>, b: seq<Record>, x: Breach) {
    match x
    case Collision(i, j) =>
      i < |a| && j < |b| && HashInput(a[i]) != HashInput(b[j]) && u.hash(HashInput(a[i])) == u.hash(HashInput(b[j]))
    case ZeroLeft(i) => i < |a| && u.hash(HashInput(a[i])) == GENESIS
    case ZeroRight(j) => j < |b| && u.hash(HashInput(b[j])) == GENESIS
  }

  /** The hash function fails on inputs that these very records hold. */
  ghost predicate HashBroken(u: Suite, a: seq<Record>, b: seq<Record>) {
    exists x :: IsBreach(u, a, b, x)
  }

  /** What the chain protects of a record: the blob, and the MAC that is hashed behind it. */
  function Bodies(rs: seq<Record>): (b: seq<Bytes>)
    ensures |b| == |rs|
    ensures forall i :: 0 <= i < |rs| ==> b[i] == rs[i].blob + MacPart(rs[i])
  {
    seq(|rs|, i requires 0 <= i < |rs| => rs[i].blob + MacPart(rs[i]))
  }

  function Contents(rs: seq<Record>): (c: seq<(Bytes, Bytes)>)
    ensures |c| == |rs|
    ensures forall i :: 0 <= i < |rs| ==> c[i] == (rs[i].blob, rs[i].head.mac)
  {
    seq(|rs|, i requires 0 <= i < |rs| => (rs[i].blob, rs[i].head.mac))
  }

  /**
   Two verified chains with the same newest hash hold the same bodies in the same order, or the
   place where the hash function fails is returned.
   */
  lemma {:induction false} TipFixesBodies(u: Suite, key: Key, a: seq<Record>, b: seq<Record>)
    returns (breach: Option<Breach>)
    requires ChainOk(u, key, a, GENESIS) && ChainOk(u, key, b, GENESIS)
    requires TipHash(a, GENESIS) == TipHash(b, GENESIS)
    ensures breach.None? ==> Bodies(a) == Bodies(b)
    ensures breach.Some? ==> IsBreach(u, a, b, breach.value)
    decreases |a|
  {
    hide ChainOk, Fault, TipHash, HashInput, MacPart, Bodies;
    NoRecords(a);
    NoRecords(b);
    if a == [] && b == [] {
      return None;
    }
    if b == [] {
      TipLinks(u, key, a);
      return Some(ZeroLeft(|a| - 1));
    }
    if a == [] {
      TipLinks(u, key, b);
      return Some(ZeroRight(|b| - 1));
    }
    var a1, r := a[..|a| - 1], a[|a| - 1];
    var b1, s := b[..|b| - 1], b[|b| - 1];
    TipLinks(u, key, a);
    TipLinks(u, key, b);
    if HashInput(r) != HashInput(s) {
      return Some(Collision(|a| - 1, |b| - 1));
    }
    LinkAndBody(r, s);
    breach := TipFixesBodies(u, key, a1, b1);
    BodiesSplit(a);
    BodiesSplit(b);
  }

  lemma NoRecords(a: seq<Record>)
    ensures a == [] ==> TipHash(a, GENESIS) == GENESIS && Bodies(a) == []
  {
  }

  /** The newest record's hash is that of its input, which begins with the hash of the one before. */
  lemma TipLinks(u: Suite, key: Key, a: seq<Record>)
    requires a != [] && ChainOk(u, key, a, GENESIS)
    ensures ChainOk(u, key, a[..|a| - 1], GENESIS)
    ensures a[|a| - 1].head.prev == TipHash(a[..|a| - 1], GENESIS)
    ensures u.hash(HashInput(a[|a| - 1])) == TipHash(a, GENESIS)
  {
    hide ChainOk, HashInput;
    ChainTip(u, key, a);
  }

  lemma LinkAndBody(r: Record, s: Record)
    requires HashInput(r) == HashInput(s)
    ensures r.head.prev == s.head.prev
    ensures r.blob + MacPart(r) == s.blob + MacPart(s)
  {
    SeqFacts.Assoc(r.head.prev, r.blob, MacPart(r));
    SeqFacts.Assoc(s.head.prev, s.blob, MacPart(s));
    SplitEqual(r.head.prev, r.blob + MacPart(r), s.head.prev, s.blob + MacPart(s));
  }

  lemma BodiesSplit(a: seq<Record>)
    requires a != []
    ensures Bodies(a) == Bodies(a[..|a| - 1]) + [a[|a| - 1].blob + MacPart(a[|a| - 1])]
  {
  }

  /** With a key every record carries its MAC, and then blob and MAC are fixed one by one. */
  lemma TipFixesContents(u: Suite, key: Key, a: seq<Record>, b: seq<Record>)
    requires key.Some?
    requires ChainOk(u, key, a, GENESIS) && ChainOk(u, key, b, GENESIS)
    requires TipHash(a, GENESIS) == TipHash(b, GENESIS)
    ensures Contents(a) == Contents(b) || HashBroken(u, a, b)
  {
    var breach := TipFixesBodies(u, key, a, b);
    KeyForcesMac(u, key, a, GENESIS);
    KeyForcesMac(u, key, b, GENESIS);
    if breach.None? {
      assert |a| == |Bodies(a)| == |b|;
      forall i | 0 <= i < |a|
        ensures Contents(a)[i] == Contents(b)[i]
      {
        assert Bodies(a)[i] == Bodies(b)[i];
        SplitEqual(a[i].blob, a[i].head.mac, b[i].blob, b[i].head.mac);
      }
    }
  }

  lemma {:induction false} KeyForcesMac(u: Suite, key: Key, a: seq<Record>, prev: Digest32)
    requires key.Some? && ChainOk(u, key, a, prev)
    ensures forall i :: 0 <= i < |a| ==> a[i].head.hasMac != 0 && u.hmac(key.value, a[i].blob) == a[i].head.mac
  {
    if a != [] {
      KeyForcesMac(u, key, a[1..], a[0].head.hash);
      forall i | 0 < i < |a|
        ensures a[i].head.hasMac != 0 && u.hmac(key.value, a[i].blob) == a[i].head.mac
      {
        assert a[i] == a[1..][i - 1];
      }
    }
  }

  /**
   Any edit, deletion, insertion or reordering that leaves the newest record of the kind alone
   makes the full walk fail (or breaks the hash function).
   */
  lemma TamperIsSeen(u: Suite, key: Key, kind: nat, d: Bytes, tampered: Bytes)
    requires key.Some?
    requires Walk(u, key, kind, d, 0, 0, GENESIS).Verified?
    requires TipHash(OfKind(Records(d), kind), GENESIS) == TipHash(OfKind(Records(tampered), kind), GENESIS)
    requires Contents(OfKind(Records(d), kind)) != Contents(OfKind(Records(tampered), kind))
    ensures Walk(u, key, kind, tampered, 0, 0, GENESIS).Failed?
         || HashBroken(u, OfKind(Records(d), kind), OfKind(Records(tampered), kind))
  {
    WalkVerifies(u, key, kind, d);
    WalkVerifies(u, key, kind, tampered);
    if Walk(u, key, kind, tampered, 0, 0, GENESIS).Verified? {
      TipFixesContents(u, key, OfKind(Records(d), kind), OfKind(Records(tampered), kind));
    }
  }
}
