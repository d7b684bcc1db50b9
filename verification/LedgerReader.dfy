/** The reading side of the ledger: the file cursor, the shared record reader and the tip scan. */
module LedgerReader {
  import opened ByteStrings
  import opened Sha256
  import opened Wrappers
  import opened LedgerFormat
  import SeqFacts

  /** An open stream. A read that comes up short leaves the stream at its end, as fread does. */
  class File {
    const data: Bytes
    var pos: nat

    ghost predicate Valid()
      reads this
    {
      pos <= |data|
    }

    /** What is still unread. */
    ghost function Rest(): Bytes
      requires Valid()
      reads this
    {
      data[pos..]
    }

    constructor (bytes: Bytes)
      ensures data == bytes && pos == 0 && Valid()
    {
      data, pos := bytes, 0;
    }

    method Read(n: nat) returns (ok: bool, b: Bytes)
      requires Valid()
      modifies this
      ensures Valid()
      ensures ok == (n <= |data| - old(pos))
      ensures ok ==> pos == old(pos) + n && b == data[old(pos)..pos]
      ensures !ok ==> pos == |data|
    {
      ok := n <= |data| - pos;
      if ok {
        b := data[pos..pos + n];
        pos := pos + n;
      } else {
        b := data[pos..];
        pos := |data|;
      }
    }
  }

  datatype HeaderRead = CleanEof | Short | Read(head: Header, blen: Word32)

  /** `ledger_read_record_header`, field by field. A kind field that reads short is an end of file. */
  method ReadRecordHeader(fp: File) returns (r: HeaderRead)
    requires fp.Valid()
    modifies fp
    ensures fp.Valid()
    ensures r.CleanEof? <==> |fp.data| - old(fp.pos) < 4
    ensures r.Read? <==> |fp.data| - old(fp.pos) >= HEADER_LEN
    ensures r.Read? ==>
      r.head == HeaderAt(fp.data, old(fp.pos)) && r.blen == BlobLengthAt(fp.data, old(fp.pos))
    ensures r.Read? ==> fp.pos == old(fp.pos) + HEADER_LEN
  {
    hide FromLittleEndian32;
    var ok, kind := fp.Read(4);
    if !ok { return CleanEof; }
    var blen, hasMac, sealed, reserved, mac, prev, hash, updated;
    ok, blen := fp.Read(4);
    if !ok { return Short; }
    ok, hasMac := fp.Read(1);
    if !ok { return Short; }
    ok, sealed := fp.Read(1);
    if !ok { return Short; }
    ok, reserved := fp.Read(2);
    if !ok { return Short; }
    ok, mac := fp.Read(32);
    if !ok { return Short; }
    ok, prev := fp.Read(32);
    if !ok { return Short; }
    ok, hash := fp.Read(32);
    if !ok { return Short; }
    ok, updated := fp.Read(8);
    if !ok { return Short; }
    r := Read(Header(FromLittleEndian32(kind), hasMac[0], sealed[0], reserved, mac, prev, hash, updated),
              FromLittleEndian32(blen));
  }

  /** Header, length check and blob, the body every reading loop of the source opens with. */
  method ReadRecord(fp: File) returns (n: Next)
    requires fp.Valid()
    modifies fp
    ensures fp.Valid()
    ensures n == ReadNext(old(fp.Rest()))
    ensures n.Got? ==> n.rest == fp.Rest()
  {
    var h := ReadRecordHeader(fp);
    match h
    case CleanEof => return Eof;
    case Short => return TornHeader;
    case Read(head, blen) =>
      HeaderShift(fp.data, old(fp.pos));
      var blob: Bytes := [];
      if blen > 0 {
        if blen > MAX_BLOB { return BadLength; }
        var ok;
        ok, blob := fp.Read(blen);
        if !ok { return TornBlob; }
      }
      n := Got(Record(head, blob), fp.data[fp.pos..]);
      ghost var d := old(fp.Rest());
      assert d[HEADER_LEN..HEADER_LEN + blen] == blob;
      assert d[HEADER_LEN + blen..] == n.rest;
  }

  function Last<T>(s: seq<T>): Option<T> {
    if |s| > 0 then Some(s[|s| - 1]) else None
  }

  function BeforeLast<T>(s: seq<T>): Option<T> {
    if |s| > 1 then Some(s[|s| - 2]) else None
  }

  /** A loop that has walked over `seen` and reads one more record. */
  lemma SeenOneMore(d: Bytes, seen: seq<Record>, rest: Bytes)
    requires Records(d) == seen + Records(rest) && Tail(d) == Tail(rest)
    requires ReadNext(rest).Got?
    ensures Records(d) == seen + [ReadNext(rest).record] + Records(ReadNext(rest).rest)
    ensures Tail(d) == Tail(ReadNext(rest).rest)
  {
    SeqFacts.Assoc(seen, [ReadNext(rest).record], Records(ReadNext(rest).rest));
  }

  /** Where a scan stops is the end of the file or a tear. */
  lemma ScanEnds(rest: Bytes)
    ensures !ReadNext(rest).Got? ==> Records(rest) == [] && Tail(rest) == rest
    ensures ReadNext(rest).Eof? <==> |rest| < 4
  {
  }

  lemma NoneSeen(kind: nat)
    ensures OfKind([], kind) == [] && Last<Record>([]) == None && BeforeLast<Record>([]) == None
  {
  }

  /** How the last two of a kind move on. */
  lemma LatestOneMore(seen: seq<Record>, r: Record, kind: nat)
    ensures var k, k' := OfKind(seen, kind), OfKind(seen + [r], kind);
      if r.head.kind == kind
      then |k'| == |k| + 1 && Last(k') == Some(r) && BeforeLast(k') == Last(k)
      else k' == k
  {
    OfKindAppend(seen, [r], kind);
    assert OfKind([r], kind) == if r.head.kind == kind then [r] else [];
  }

  /** `ledger_scan_latest_two`. */
  method ScanLatestTwo(fp: File, kind: nat)
    returns (ok: bool, latest: Option<Record>, prior: Option<Record>, records: nat, kindRecords: nat)
    requires fp.Valid()
    modifies fp
    ensures ok <==> Clean(old(fp.Rest()))
    ensures ok ==> latest == Last(OfKind(Records(old(fp.Rest())), kind))
    ensures ok ==> prior == BeforeLast(OfKind(Records(old(fp.Rest())), kind))
    ensures ok ==> records == |Records(old(fp.Rest()))|
    ensures ok ==> kindRecords == |OfKind(Records(old(fp.Rest())), kind)|
    ensures !ok ==> latest.None? && prior.None?
  {
    hide Records, Tail, ReadNext, OfKind, Last, BeforeLast;
    NoneSeen(kind);
    latest, prior, records, kindRecords := None, None, 0, 0;
    ghost var d := fp.Rest();
    ghost var seen: seq<Record> := [];
    while true
      invariant fp.Valid()
      invariant Records(d) == seen + Records(fp.Rest()) && Tail(d) == Tail(fp.Rest())
      invariant records == |seen| && kindRecords == |OfKind(seen, kind)|
      invariant latest == Last(OfKind(seen, kind)) && prior == BeforeLast(OfKind(seen, kind))
      decreases |fp.Rest()|
    {
      ghost var rest := fp.Rest();
      var n := ReadRecord(fp);
      ScanEnds(rest);
      match n {
        case Got(r, _) =>
          records := records + 1;
          SeenOneMore(d, seen, rest);
          LatestOneMore(seen, r, kind);
          seen := seen + [r];
          if r.head.kind == kind {
            kindRecords := kindRecords + 1;
            prior := latest;
            latest := Some(r);
          }
        case Eof =>
          assert seen + [] == seen;
          return true, latest, prior, records, kindRecords;
        case _ =>
          return false, None, None, records, kindRecords;
      }
    }
  }
}
