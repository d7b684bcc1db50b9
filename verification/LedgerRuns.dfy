/**
 Whole histories of the ledger: any appends of any kinds, each finishing or crashing after any
 number of bytes.
 */
module LedgerRuns {
  import opened ByteStrings
  import opened Sha256
  import opened Wrappers
  import opened LedgerFormat
  import opened LedgerReader
  import opened LedgerChain
  import opened LedgerStore
  import SeqFacts

  datatype Op = Op(kind: int, payload: Bytes, stamp: Stamp, fate: Fate)

  function Run(c: Config, s: Disk, ops: seq<Op>): Disk
    decreases |ops|
  {
    if ops == [] then s
    else Run(c, Write(c, s, ops[0].kind, ops[0].payload, ops[0].stamp, ops[0].fate).1, ops[1..])
  }

  /** How many bytes of its record a dying append leaves behind. */
  function RecordBytes(file: Option<Bytes>, fate: Fate): nat
    requires fate.Dies?
  {
    if !IsNew(file) then fate.written
    else if fate.written < |MAGIC| then 0
    else fate.written - |MAGIC|
  }

  /** A crash the repair copes with: not inside the 9-byte file header, not 1 to 3 bytes into a record. */
  predicate SafeFate(file: Option<Bytes>, fate: Fate) {
    fate.Dies? ==>
      && (IsNew(file) && fate.written < |MAGIC| ==> fate.written == 0)
      && (RecordBytes(file, fate) == 0 || RecordBytes(file, fate) >= 4)
  }

  predicate SafeRun(c: Config, s: Disk, ops: seq<Op>)
    decreases |ops|
  {
    ops == [] ||
    (SafeFate(s.file, ops[0].fate)
     && SafeRun(c, Write(c, s, ops[0].kind, ops[0].payload, ops[0].stamp, ops[0].fate).1, ops[1..]))
  }

  /** The records behind the file header. */
  function Stored(file: Option<Bytes>): seq<Record> {
    if IsNew(file) || !HasMagic(file.value) then [] else Records(file.value[|MAGIC|..])
  }

  function Entries(rs: seq<Record>): (e: seq<(int, Bytes)>)
    ensures |e| == |rs|
    ensures forall i :: 0 <= i < |rs| ==> e[i] == (rs[i].head.kind, rs[i].blob)
  {
    seq(|rs|, i requires 0 <= i < |rs| => (rs[i].head.kind, rs[i].blob))
  }

  /** Whether the whole record of an append reaches the disk. */
  predicate Survives(c: Config, s: Disk, op: Op) {
    && !IsRefused(c, s.file, op.kind, op.payload)
    && (op.fate.Dies? ==>
          && (IsNew(s.file) ==> op.fate.written >= |MAGIC|)
          && RecordBytes(s.file, op.fate) >= HEADER_LEN + |op.payload|)
  }

  /** Kind and payload of every append whose record reached the disk, in order. */
  function Surviving(c: Config, s: Disk, ops: seq<Op>): seq<(int, Bytes)>
    decreases |ops|
  {
    if ops == [] then []
    else (if Survives(c, s, ops[0]) then [(ops[0].kind, ops[0].payload)] else [])
         + Surviving(c, Write(c, s, ops[0].kind, ops[0].payload, ops[0].stamp, ops[0].fate).1, ops[1..])
  }

  // ----- the invariant -----

  predicate HeadRecOk(c: Config, rs: seq<Record>, rec: HeadRec) {
    && 1 <= rec.kind <= MAX_KIND
    && rec.rows <= |OfKind(rs, rec.kind)|
    && rec.mac == HeadMac(c, rec.kind, rec.rows)
  }

  /** The head file never runs ahead of the chain, and every record in it authenticates. */
  predicate HeadOk(c: Config, rs: seq<Record>, h: HeadFile) {
    && !h.Unparsable?
    && (h.Head? ==>
          && (forall i :: 0 <= i < |h.recs| ==> HeadRecOk(c, rs, h.recs[i]))
          && (forall i, j :: 0 <= i < j < |h.recs| ==> h.recs[i].kind != h.recs[j].kind))
  }

  predicate Chained(c: Config, rs: seq<Record>) {
    forall kind :: 0 <= kind <= MAX_KIND ==> ChainOk(c.suite, c.key, OfKind(rs, kind), GENESIS)
  }

  /** The records behind the header and the head file beside them. */
  predicate Consistent(c: Config, rs: seq<Record>, h: HeadFile) {
    && Chained(c, rs)
    && (forall i :: 0 <= i < |rs| ==> 1 <= rs[i].head.kind <= MAX_KIND)
    && HeadOk(c, rs, h)
  }

  /** Behind a good header stand records, then nothing or a tear that a scan notices. */
  predicate Sound(c: Config, s: Disk) {
    && (IsNew(s.file) || HasMagic(s.file.value))
    && (!IsNew(s.file) ==> var t := Tail(s.file.value[|MAGIC|..]); t == [] || |t| >= 4)
    && Consistent(c, Stored(s.file), s.head)
  }

  // ----- one append -----

  /** The bytes behind the header when the record is written are whole records and nothing else. */
  lemma BaseIsWhole(c: Config, s: Disk)
    requires Sound(c, s)
    ensures Base(s.file) == EncodeAll(Stored(s.file))
    ensures Records(Base(s.file)) == Stored(s.file) && Tail(Base(s.file)) == []
  {
    if !IsNew(s.file) {
      var d := s.file.value[|MAGIC|..];
      RepairedIsClean(d);
      TailIsSuffix(d);
      if Clean(d) {
        assert d[..|d| - 0] == d;
      }
    }
  }

  lemma NewRecordLinks(c: Config, d: Bytes, kind: int, payload: Bytes, stamp: Stamp)
    requires 1 <= kind <= MAX_KIND && |payload| <= MAX_BLOB
    ensures var r := NewRecord(c, d, kind, payload, stamp);
      && r.head.kind == kind && r.blob == payload
      && Fault(c.suite, c.key, r, TipHash(OfKind(Records(d), kind), GENESIS)).None?
  {
  }

  /** Appending a record that links to its kind's tip keeps every kind chained. */
  lemma ChainedAppend(c: Config, rs: seq<Record>, r: Record)
    requires Chained(c, rs)
    requires Fault(c.suite, c.key, r, TipHash(OfKind(rs, r.head.kind), GENESIS)).None?
    ensures Chained(c, rs + [r])
  {
    forall kind | 0 <= kind <= MAX_KIND
      ensures ChainOk(c.suite, c.key, OfKind(rs + [r], kind), GENESIS)
    {
      OfKindSnoc(rs, r, kind);
      ChainAppend(c.suite, c.key, OfKind(rs, kind), r, GENESIS);
    }
  }

  lemma OfKindSnoc(rs: seq<Record>, r: Record, kind: nat)
    ensures OfKind(rs + [r], kind) == if r.head.kind == kind then OfKind(rs, kind) + [r] else OfKind(rs, kind)
  {
    OfKindAppend(rs, [r], kind);
  }

  /** What a file of whole records and any prefix of one more record reads as. */
  lemma ReadAppended(rs: seq<Record>, r: Record, fate: Fate)
    ensures var d := EncodeAll(rs) + Survivors(Encode(r), fate);
            var whole := fate.Finishes? || fate.written >= |Encode(r)|;
      && Records(d) == (if whole then rs + [r] else rs)
      && Tail(d) == (if whole then [] else Encode(r)[..fate.written])
  {
    var t := Survivors(Encode(r), fate);
    ReadEncodedAll(rs, t);
    if fate.Finishes? || fate.written >= |Encode(r)| {
      assert t == Encode(r) + [];
      ReadEncoded(r, []);
      assert Records([]) == [] && Tail([]) == [];
    } else {
      PrefixIsTorn(r, fate.written);
      assert rs + [] == rs;
    }
  }

  // ----- the head file -----

  /** Different kinds between 1 and MAX_KIND: there are at most MAX_KIND of them. */
  lemma {:induction false} Pigeonhole(recs: seq<HeadRec>, kinds: set<int>)
    requires forall i :: 0 <= i < |recs| ==> recs[i].kind in kinds
    requires forall i, j :: 0 <= i < j < |recs| ==> recs[i].kind != recs[j].kind
    ensures |recs| <= |kinds|
  {
    if recs != [] {
      Pigeonhole(recs[1..], kinds - {recs[0].kind});
    }
  }

  function KindsUpTo(n: nat): (ks: set<int>)
    ensures |ks| == n && forall k {:trigger k in ks} :: k in ks <==> 1 <= k <= n
  {
    if n == 0 then {} else KindsUpTo(n - 1) + {n}
  }

  lemma HeadHasRoom(c: Config, rs: seq<Record>, h: HeadFile)
    requires HeadOk(c, rs, h)
    ensures h.Head? ==> |h.recs| < HEAD_MAX_RECS
  {
    if h.Head? {
      Pigeonhole(h.recs, KindsUpTo(MAX_KIND));
    }
  }

  lemma HeadRecKept(c: Config, rs: seq<Record>, r: Record, rec: HeadRec)
    requires HeadRecOk(c, rs, rec)
    ensures HeadRecOk(c, rs + [r], rec)
  {
    OfKindSnoc(rs, r, rec.kind);
  }

  lemma HeadKept(c: Config, rs: seq<Record>, r: Record, h: HeadFile)
    requires HeadOk(c, rs, h)
    ensures HeadOk(c, rs + [r], h)
  {
    if h.Head? {
      forall i | 0 <= i < |h.recs|
        ensures HeadRecOk(c, rs + [r], h.recs[i])
      {
        HeadRecKept(c, rs, r, h.recs[i]);
      }
    }
  }

  /** The counter moves up to the new length of its chain, and no further. */
  lemma HeadCounts(c: Config, rs: seq<Record>, r: Record, h: HeadFile)
    requires HeadOk(c, rs, h) && 1 <= r.head.kind <= MAX_KIND
    ensures var h' := HeadAfter(c, h, r.head.kind, |OfKind(rs, r.head.kind)|);
      && HeadOk(c, rs + [r], h')
      && HeadRows(h', r.head.kind) == |OfKind(rs + [r], r.head.kind)|
  {
    hide OfKind, HeadMac;
    var kind := r.head.kind;
    var recs := if h.Head? then h.recs else [];
    var slot := Slot(recs, kind);
    var h' := HeadAfter(c, h, kind, |OfKind(rs, kind)|);
    HeadHasRoom(c, rs, h);
    HeadKept(c, rs, r, h);
    OfKindSnoc(rs, r, kind);
    var rec := HeadRec(kind, |OfKind(rs, kind)| + 1, HeadMac(c, kind, |OfKind(rs, kind)| + 1));
    assert h' == Head(if slot < |recs| then recs[slot := rec] else recs + [rec]);
    SlotIs(h'.recs, kind, slot);
  }

  lemma SlotIs(recs: seq<HeadRec>, kind: int, slot: nat)
    requires slot < |recs| && recs[slot].kind == kind
    requires forall j :: 0 <= j < slot ==> recs[j].kind != kind
    ensures Slot(recs, kind) == slot
  {
  }

  // ----- every step keeps the disk sound -----

  /** One append, cut short or not: the invariant holds again, and exactly the surviving record is new. */
  lemma StepSound(c: Config, s: Disk, op: Op)
    requires Sound(c, s) && SafeFate(s.file, op.fate)
    ensures var s' := Write(c, s, op.kind, op.payload, op.stamp, op.fate).1;
      && Sound(c, s')
      && Entries(Stored(s'.file))
         == Entries(Stored(s.file)) + (if Survives(c, s, op) then [(op.kind, op.payload)] else [])
  {
    var s' := Write(c, s, op.kind, op.payload, op.stamp, op.fate).1;
    var e := Entries(Stored(s.file));
    assert e + [] == e;
    if !IsRefused(c, s.file, op.kind, op.payload)
       && !(IsNew(s.file) && op.fate.Dies? && op.fate.written < |MAGIC|)
    {
      StepWrites(c, s, op);
    }
  }

  /** How an append that gets past the file header leaves the disk, with r the record it makes. */
  lemma WriteReads(c: Config, s: Disk, op: Op) returns (r: Record)
    requires Sound(c, s) && SafeFate(s.file, op.fate)
    requires !IsRefused(c, s.file, op.kind, op.payload)
    requires !(IsNew(s.file) && op.fate.Dies? && op.fate.written < |MAGIC|)
    ensures r == NewRecord(c, Base(s.file), op.kind, op.payload, op.stamp)
    ensures r.head.kind == op.kind && r.blob == op.payload
    ensures Fault(c.suite, c.key, r, TipHash(OfKind(Stored(s.file), op.kind), GENESIS)).None?
    ensures Grown(c, s, Write(c, s, op.kind, op.payload, op.stamp, op.fate).1, r, Survives(c, s, op), op.fate.Finishes?)
  {
    BaseIsWhole(c, s);
    r := NewRecord(c, Base(s.file), op.kind, op.payload, op.stamp);
    NewRecordLinks(c, Base(s.file), op.kind, op.payload, op.stamp);
    var left := if IsNew(s.file) then Remaining(op.fate, |MAGIC|) else op.fate;
    ReadAppended(Stored(s.file), r, left);
    BehindMagic(EncodeAll(Stored(s.file)), Survivors(Encode(r), left));
  }

  /** s' holds the records of s and, if it survived, r; only a finished append touches the head. */
  predicate Grown(c: Config, s: Disk, s': Disk, r: Record, survived: bool, finished: bool) {
    && s'.file.Some? && HasMagic(s'.file.value)
    && Records(s'.file.value[|MAGIC|..]) == (if survived then Stored(s.file) + [r] else Stored(s.file))
    && (Tail(s'.file.value[|MAGIC|..]) == [] || |Tail(s'.file.value[|MAGIC|..])| >= 4)
    && (finished ==> survived && Tail(s'.file.value[|MAGIC|..]) == [])
    && s'.head == (if finished then HeadAfter(c, s.head, r.head.kind, |OfKind(Stored(s.file), r.head.kind)|)
                   else s.head)
  }

  lemma ConsistentAppend(c: Config, rs: seq<Record>, r: Record, h: HeadFile)
    requires Consistent(c, rs, h) && 1 <= r.head.kind <= MAX_KIND
    requires Fault(c.suite, c.key, r, TipHash(OfKind(rs, r.head.kind), GENESIS)).None?
    ensures Consistent(c, rs + [r], h)
    ensures var h' := HeadAfter(c, h, r.head.kind, |OfKind(rs, r.head.kind)|);
      Consistent(c, rs + [r], h') && HeadRows(h', r.head.kind) == |OfKind(rs + [r], r.head.kind)|
  {
    ChainedAppend(c, rs, r);
    HeadKept(c, rs, r, h);
    HeadCounts(c, rs, r, h);
  }

  lemma GrownSound(c: Config, s: Disk, s': Disk, r: Record, survived: bool, finished: bool)
    requires Sound(c, s) && 1 <= r.head.kind <= MAX_KIND
    requires Fault(c.suite, c.key, r, TipHash(OfKind(Stored(s.file), r.head.kind), GENESIS)).None?
    requires Grown(c, s, s', r, survived, finished)
    ensures Sound(c, s')
    ensures Entries(Stored(s'.file))
         == Entries(Stored(s.file)) + (if survived then [(r.head.kind, r.blob)] else [])
    ensures finished ==> HeadRows(s'.head, r.head.kind) == |OfKind(Stored(s'.file), r.head.kind)|
  {
    hide Consistent, HeadAfter, Records, Tail, Entries, Fault, TipHash, OfKind;
    ConsistentAppend(c, Stored(s.file), r, s.head);
    EntriesAppend(Stored(s.file), r);
  }

  lemma StepWrites(c: Config, s: Disk, op: Op)
    requires Sound(c, s) && SafeFate(s.file, op.fate)
    requires !IsRefused(c, s.file, op.kind, op.payload)
    requires !(IsNew(s.file) && op.fate.Dies? && op.fate.written < |MAGIC|)
    ensures var s' := Write(c, s, op.kind, op.payload, op.stamp, op.fate).1;
      && Sound(c, s')
      && Entries(Stored(s'.file))
         == Entries(Stored(s.file)) + (if Survives(c, s, op) then [(op.kind, op.payload)] else [])
      && (op.fate.Finishes? ==>
            && HeadRows(s'.head, op.kind) == |OfKind(Stored(s'.file), op.kind)|
            && HasMagic(s'.file.value) && Tail(s'.file.value[|MAGIC|..]) == [])
  {
    var r := WriteReads(c, s, op);
    GrownSound(c, s, Write(c, s, op.kind, op.payload, op.stamp, op.fate).1, r, Survives(c, s, op), op.fate.Finishes?);
  }

  lemma BehindMagic(a: Bytes, b: Bytes)
    ensures HasMagic(MAGIC + a + b) && (MAGIC + a + b)[|MAGIC|..] == a + b
  {
  }

  lemma EntriesAppend(rs: seq<Record>, r: Record)
    ensures Entries(rs + [r]) == Entries(rs) + [(r.head.kind, r.blob)]
    ensures Entries(rs) + [] == Entries(rs)
  {
  }

  // ----- whole runs -----

  /** Nothing has been written yet. */
  const EMPTY := Disk(None, NoHead)

  lemma EmptySound(c: Config)
    ensures Sound(c, EMPTY)
  {
  }

  lemma {:induction false} RunSound(c: Config, s: Disk, ops: seq<Op>)
    requires Sound(c, s) && SafeRun(c, s, ops)
    ensures Sound(c, Run(c, s, ops))
    ensures Entries(Stored(Run(c, s, ops).file)) == Entries(Stored(s.file)) + Surviving(c, s, ops)
    decreases |ops|
  {
    if ops == [] {
      assert Entries(Stored(s.file)) + [] == Entries(Stored(s.file));
    } else {
      var s' := Write(c, s, ops[0].kind, ops[0].payload, ops[0].stamp, ops[0].fate).1;
      StepSound(c, s, ops[0]);
      RunSound(c, s', ops[1..]);
      SeqFacts.Assoc(Entries(Stored(s.file)), if Survives(c, s, ops[0]) then [(ops[0].kind, ops[0].payload)] else [],
                     Surviving(c, s', ops[1..]));
    }
  }

  /** On a sound disk the verifier of every kind accepts exactly when no tear is waiting for repair. */
  lemma SoundVerifies(c: Config, s: Disk, kind: nat)
    requires Sound(c, s) && 1 <= kind <= MAX_KIND && !IsNew(s.file)
    ensures Verify(c, s, kind).Verified? <==> Tail(s.file.value[|MAGIC|..]) == []
    ensures Verify(c, s, kind).Verified? ==> Verify(c, s, kind).rows == |OfKind(Stored(s.file), kind)|
  {
    var d := s.file.value[|MAGIC|..];
    WalkVerifies(c.suite, c.key, kind, d);
    HeadNeverAhead(c, Stored(s.file), s.head, kind);
  }

  lemma HeadNeverAhead(c: Config, rs: seq<Record>, h: HeadFile, kind: int)
    requires HeadOk(c, rs, h)
    ensures HeadFault(c, h, kind).None?
    ensures kind >= 0 ==> HeadRows(h, kind) <= |OfKind(rs, kind)|
  {
    if h.Head? && Slot(h.recs, kind) < |h.recs| {
      assert HeadRecOk(c, rs, h.recs[Slot(h.recs, kind)]);
    }
  }

  /** What a caller can see to: a known kind, a blob of bearable size, and a file that is not full. */
  predicate Admissible(c: Config, file: Option<Bytes>, op: Op) {
    && 1 <= op.kind <= MAX_KIND && |op.payload| <= MAX_BLOB
    && (c.cap == 0 || file.None? || |file.value| < c.cap)
  }

  /** On a sound disk nothing else makes an append be refused. */
  lemma AdmissibleIffAccepted(c: Config, s: Disk, op: Op)
    requires Sound(c, s)
    ensures Admissible(c, s.file, op) <==> !IsRefused(c, s.file, op.kind, op.payload)
  {
  }

  /**
   Crash safety over every run. Whatever appends of whatever kinds came before, each finishing or
   crashing at a safe point: the next admissible append that finishes leaves a file whose
   records are exactly the ones that survived, in order, and every kind verifies with its count.
   */
  lemma CrashSafety(c: Config, ops: seq<Op>, op: Op)
    requires SafeRun(c, EMPTY, ops) && op.fate.Finishes?
    requires Admissible(c, Run(c, EMPTY, ops).file, op)
    ensures var end := Write(c, Run(c, EMPTY, ops), op.kind, op.payload, op.stamp, op.fate);
      && end.0 == Appended
      && end.1.file == Some(MAGIC + EncodeAll(Stored(end.1.file)))
      && Entries(Stored(end.1.file)) == Surviving(c, EMPTY, ops) + [(op.kind, op.payload)]
      && HeadRows(end.1.head, op.kind) == |OfKind(Stored(end.1.file), op.kind)|
      && (forall kind :: 1 <= kind <= MAX_KIND ==>
            && Verify(c, end.1, kind) == Verified(|OfKind(Stored(end.1.file), kind)|)
            && HeadRows(end.1.head, kind) <= |OfKind(Stored(end.1.file), kind)|)
  {
    var s := Run(c, EMPTY, ops);
    var end := Write(c, s, op.kind, op.payload, op.stamp, op.fate).1;
    EmptySound(c);
    RunSound(c, EMPTY, ops);
    AdmissibleIffAccepted(c, s, op);
    StepWrites(c, s, op);
    assert [] + Surviving(c, EMPTY, ops) == Surviving(c, EMPTY, ops);
    WholeFile(end.file.value);
    forall kind | 1 <= kind <= MAX_KIND
      ensures Verify(c, end, kind) == Verified(|OfKind(Stored(end.file), kind)|)
      ensures HeadRows(end.head, kind) <= |OfKind(Stored(end.file), kind)|
    {
      SoundVerifies(c, end, kind);
      HeadNeverAhead(c, Stored(end.file), end.head, kind);
    }
  }

  /** Whatever becomes of the ledger file: with fewer records of a kind in it than the head has counted, verify fails. */
  lemma TruncationIsSeen(c: Config, file: Option<Bytes>, head: HeadFile, kind: nat)
    requires 1 <= kind <= MAX_KIND && |OfKind(Stored(file), kind)| < HeadRows(head, kind)
    ensures Verify(c, Disk(file, head), kind).Failed?
  {
    if file.Some? && HasMagic(file.value) {
      WalkVerifies(c.suite, c.key, kind, file.value[|MAGIC|..]);
    }
  }

  /** So once an append has finished, no file with a record of its kind less passes for the ledger beside that head. */
  lemma AcknowledgedIsGuarded(c: Config, ops: seq<Op>, op: Op, file: Option<Bytes>)
    requires SafeRun(c, EMPTY, ops) && op.fate.Finishes?
    requires Admissible(c, Run(c, EMPTY, ops).file, op)
    ensures var end := Write(c, Run(c, EMPTY, ops), op.kind, op.payload, op.stamp, op.fate).1;
      Verify(c, Disk(file, end.head), op.kind).Verified? ==>
        |OfKind(Stored(file), op.kind)| >= |OfKind(Stored(end.file), op.kind)|
  {
    hide Write, Verify, Stored, Run, SafeRun;
    var end := Write(c, Run(c, EMPTY, ops), op.kind, op.payload, op.stamp, op.fate).1;
    CrashSafety(c, ops, op);
    if |OfKind(Stored(file), op.kind)| < HeadRows(end.head, op.kind) {
      TruncationIsSeen(c, file, end.head, op.kind);
    }
  }

  lemma WholeFile(f: Bytes)
    requires HasMagic(f) && Tail(f[|MAGIC|..]) == []
    ensures f == MAGIC + EncodeAll(Records(f[|MAGIC|..]))
  {
    Decompose(f[|MAGIC|..]);
    assert f == f[..|MAGIC|] + f[|MAGIC|..];
  }

  // ----- where the repair does not reach -----

  /** A record behind one to three stray bytes is not read as that record. */
  lemma StrayHidesRecord(t: Bytes, r: Record)
    requires 1 <= |t| <= 3 && 1 <= r.head.kind <= MAX_KIND
    ensures Records(t + Encode(r)) != [r]
  {
    var d, e := t + Encode(r), Encode(r);
    KindBytes(r);
    assert d[|t|] == e[0];
    OneRecordInFront(r, d, |t|);
  }

  lemma OneRecordInFront(r: Record, d: Bytes, i: nat)
    requires i < 4
    ensures Records(d) == [r] ==> i < |d| && d[i] == Encode(r)[i]
  {
    Decompose(d);
    assert EncodeAll([r]) == Encode(r) + [];
  }

  lemma KindBytes(r: Record)
    requires 1 <= r.head.kind <= MAX_KIND
    ensures Encode(r)[0] == r.head.kind && Encode(r)[1] == 0 && Encode(r)[2] == 0 && Encode(r)[3] == 0
  {
    var k := LittleEndian32(r.head.kind);
    assert k == [r.head.kind, 0, 0, 0];
    assert forall i | 0 <= i < 4 :: EncodeHeader(r.head, |r.blob|)[i] == k[i];
  }

  /**
   An acknowledged append is read back behind everything that was readable before it exactly when
   the file did not end in one to three stray bytes. This holds for any content of the file.
   */
  lemma AppendReadBack(c: Config, s: Disk, op: Op)
    requires s.file.Some? && HasMagic(s.file.value) && op.fate.Finishes?
    requires !IsRefused(c, s.file, op.kind, op.payload)
    ensures var d := s.file.value[|MAGIC|..];
            var file := Write(c, s, op.kind, op.payload, op.stamp, op.fate).1.file.value;
            var r := NewRecord(c, Repaired(d), op.kind, op.payload, op.stamp);
      HasMagic(file) && (Records(file[|MAGIC|..]) == Records(d) + [r] <==> !(1 <= |Tail(d)| <= 3))
  {
    var d := s.file.value[|MAGIC|..];
    var r := NewRecord(c, Repaired(d), op.kind, op.payload, op.stamp);
    NewRecordLinks(c, Repaired(d), op.kind, op.payload, op.stamp);
    BehindMagic(Repaired(d), Encode(r));
    RepairedIsClean(d);
    Decompose(d);
    if 1 <= |Tail(d)| <= 3 {
      AfterStray(Records(d), Tail(d), r);
    } else {
      ReadAppended(Records(d), r, Finishes);
      assert Tail(d) == [] ==> d == EncodeAll(Records(d));
    }
  }

  lemma AfterStray(rs: seq<Record>, t: Bytes, r: Record)
    requires 1 <= |t| <= 3 && 1 <= r.head.kind <= MAX_KIND
    ensures Records(EncodeAll(rs) + t + Encode(r)) != rs + [r]
  {
    StrayHidesRecord(t, r);
    ReadEncodedAll(rs, t + Encode(r));
    SeqFacts.Assoc(EncodeAll(rs), t, Encode(r));
    var q := Records(t + Encode(r));
    assert (rs + q)[|rs|..] == q && (rs + [r])[|rs|..] == [r];
  }

  /** A crash inside the file header of a new ledger shuts out every later append, unless nothing survived. */
  lemma HeaderCrash(c: Config, s: Disk, op: Op, next: Op)
    requires !IsRefused(c, s.file, op.kind, op.payload)
    requires IsNew(s.file) && op.fate.Dies? && op.fate.written < |MAGIC|
    requires 1 <= next.kind <= MAX_KIND && |next.payload| <= MAX_BLOB
    ensures var s' := Write(c, s, op.kind, op.payload, op.stamp, op.fate).1;
      Write(c, s', next.kind, next.payload, next.stamp, next.fate).0.Refused? <==> op.fate.written != 0
  {
  }

  // ----- kinds do not interfere -----

  lemma {:induction false} WalkPastOther(u: Suite, key: Key, kind: nat, rs: seq<Record>, r: Record,
                                         rec: nat, n: nat, prev: Digest32)
    requires r.head.kind != kind
    ensures WalkRecords(u, key, kind, rs + [r], None, rec, n, prev) == WalkRecords(u, key, kind, rs, None, rec, n, prev)
  {
    if rs == [] {
      assert rs + [r] == [r] && [r][1..] == [];
    } else {
      assert (rs + [r])[0] == rs[0] && (rs + [r])[1..] == rs[1..] + [r];
      if rs[0].head.kind != kind {
        WalkPastOther(u, key, kind, rs[1..], r, rec + 1, n, prev);
      } else {
        WalkPastOther(u, key, kind, rs[1..], r, rec + 1, n + 1, rs[0].head.hash);
      }
    }
  }

  /** The head file keeps the other kinds' records as they are, as long as it parses. */
  lemma HeadOthers(c: Config, h: HeadFile, kind: int, chainRows: nat, other: int)
    requires !h.Unparsable? && other != kind
    ensures var h' := HeadAfter(c, h, kind, chainRows);
      HeadRows(h', other) == HeadRows(h, other) && HeadFault(c, h', other) == HeadFault(c, h, other)
  {
    var recs := if h.Head? then h.recs else [];
    var h' := HeadAfter(c, h, kind, chainRows);
    if h' != h {
      var at := Slot(recs, other);
      if at < |recs| {
        assert h'.recs[at] == recs[at];
        SlotIs(h'.recs, other, at);
      } else {
        NoSlot(h'.recs, other);
      }
    }
  }

  lemma NoSlot(recs: seq<HeadRec>, kind: int)
    requires forall j :: 0 <= j < |recs| ==> recs[j].kind != kind
    ensures Slot(recs, kind) == |recs|
  {
  }

  /** The recorded count of a kind never goes down while the head file parses. */
  lemma HeadMonotone(c: Config, h: HeadFile, kind: int, chainRows: nat, any: int)
    requires !h.Unparsable?
    ensures HeadRows(HeadAfter(c, h, kind, chainRows), any) >= HeadRows(h, any)
  {
    if any != kind {
      HeadOthers(c, h, kind, chainRows, any);
    } else if h.Head? && Slot(h.recs, kind) < |h.recs| {
      SlotIs(HeadAfter(c, h, kind, chainRows).recs, kind, Slot(h.recs, kind));
    }
  }

  /** Appending one kind leaves the whole report of every other kind as it was, failures included. */
  lemma KindsIndependent(c: Config, s: Disk, op: Op, other: nat)
    requires s.file.Some? && HasMagic(s.file.value) && Tail(s.file.value[|MAGIC|..]) == []
    requires !s.head.Unparsable? && op.fate.Finishes?
    requires !IsRefused(c, s.file, op.kind, op.payload)
    requires other != op.kind && other < 0x1_0000_0000
    ensures Verify(c, Write(c, s, op.kind, op.payload, op.stamp, op.fate).1, other) == Verify(c, s, other)
  {
    hide Walk, Records, Tail, NewRecord, HeadAfter, OfKind;
    var d := s.file.value[|MAGIC|..];
    var s' := Write(c, s, op.kind, op.payload, op.stamp, op.fate).1;
    NewRecordLinks(c, d, op.kind, op.payload, op.stamp);
    WalkOther(c, d, NewRecord(c, d, op.kind, op.payload, op.stamp), other);
    BehindMagic(d, Encode(NewRecord(c, d, op.kind, op.payload, op.stamp)));
    HeadOthers(c, s.head, op.kind, |OfKind(Records(d), op.kind)|, other);
  }

  lemma WalkOther(c: Config, d: Bytes, r: Record, other: nat)
    requires Tail(d) == [] && r.head.kind != other
    ensures Walk(c.suite, c.key, other, d + Encode(r), 0, 0, GENESIS) == Walk(c.suite, c.key, other, d, 0, 0, GENESIS)
  {
    var d' := d + Encode(r);
    Decompose(d);
    assert d == EncodeAll(Records(d));
    ReadAppended(Records(d), r, Finishes);
    WalkIsWalkRecords(c.suite, c.key, other, d, 0, 0, GENESIS);
    WalkIsWalkRecords(c.suite, c.key, other, d', 0, 0, GENESIS);
    EndFaultIsUnclean(d);
    EndFaultIsUnclean(d');
    WalkPastOther(c.suite, c.key, other, Records(d), r, 0, 0, GENESIS);
  }

  /**
   A damaged head file is reported by every verify, but only until the next append of any kind:
   that append starts a new head file, and the other kinds' counts are gone.
   */
  lemma DamagedHeadForgotten(c: Config, s: Disk, op: Op, other: nat)
    requires s.file.Some? && HasMagic(s.file.value) && Tail(s.file.value[|MAGIC|..]) == []
    requires Chained(c, Stored(s.file)) && s.head.Unparsable? && op.fate.Finishes?
    requires !IsRefused(c, s.file, op.kind, op.payload)
    requires other != op.kind && 1 <= other <= MAX_KIND
    ensures Verify(c, s, other) == Failed(0, HeadCorrupt)
    ensures var s' := Write(c, s, op.kind, op.payload, op.stamp, op.fate).1;
      HeadRows(s'.head, other) == 0 && Verify(c, s', other) == Verified(|OfKind(Stored(s.file), other)|)
  {
    var d := s.file.value[|MAGIC|..];
    NewRecordLinks(c, d, op.kind, op.payload, op.stamp);
    WalkOther(c, d, NewRecord(c, d, op.kind, op.payload, op.stamp), other);
    BehindMagic(d, Encode(NewRecord(c, d, op.kind, op.payload, op.stamp)));
    WalkVerifies(c.suite, c.key, other, d);
    NoSlot(HeadAfter(c, s.head, op.kind, |OfKind(Records(d), op.kind)|).recs, other);
  }
}
