/**
 The ledger and its head file as the daemon keeps them on disk: appending (with the torn-tail
 repair it starts with and the crashes it may end in), the high-water head file, and verifying.
 */
module LedgerStore {
  import opened ByteStrings
  import opened Sha256
  import opened Wrappers
  import opened Texts
  import opened LedgerFormat
  import opened LedgerReader
  import opened LedgerChain

  datatype HeadRec = HeadRec(kind: int, rows: nat, mac: Option<Digest32>)

  /** "<ledger>.head" as `ledger_head_read` sees it: at most 17 records, or a file that does not parse. */
  datatype HeadFile = NoHead | Unparsable | Head(recs: seq<HeadRec>)

  const HEAD_MAX_RECS: nat := 17

  /** The files on disk. */
  datatype Disk = Disk(file: Option<Bytes>, head: HeadFile)

  /** The ledger key and FRACTALSQL_LEDGER_MAX_BYTES (0 when unbounded). */
  datatype Config = Config(suite: Suite, key: Key, cap: nat)

  /** How an append ends: it finishes, or stops once `written` of its bytes have reached the disk. */
  datatype Fate = Finishes | Dies(written: nat)

  datatype Outcome = Appended | Refused | Died

  // ----- the head file -----

  /** `ledger_head_mac`. */
  function HeadMac(c: Config, kind: int, rows: nat): Option<Digest32> {
    if c.key.None? then None
    else Some(c.suite.hmac(c.key.value, Octets("kind=" + Decimal(kind) + " rows=" + Decimal(rows))))
  }

  function SlotFrom(recs: seq<HeadRec>, kind: int, i: nat): (slot: nat)
    requires i <= |recs|
    ensures i <= slot <= |recs|
    ensures slot < |recs| ==> recs[slot].kind == kind
    ensures forall j :: i <= j < slot ==> recs[j].kind != kind
    decreases |recs| - i
  {
    if i < |recs| && recs[i].kind != kind then SlotFrom(recs, kind, i + 1) else i
  }

  /** The first record of the kind, or the length when there is none. */
  function Slot(recs: seq<HeadRec>, kind: int): nat {
    SlotFrom(recs, kind, 0)
  }

  /** `ledger_head_get`: an unreadable head counts as no head. */
  function HeadRows(h: HeadFile, kind: int): nat {
    if kind < 1 || kind > MAX_KIND || !h.Head? || Slot(h.recs, kind) == |h.recs| then 0
    else h.recs[Slot(h.recs, kind)].rows
  }

  /** `ledger_head_check`. */
  function HeadFault(c: Config, h: HeadFile, kind: int): Option<Reason> {
    match h
    case NoHead => None
    case Unparsable => Some(HeadCorrupt)
    case Head(recs) =>
      if Slot(recs, kind) == |recs| || c.key.None? then None
      else
        var rec := recs[Slot(recs, kind)];
        if rec.mac.None? then Some(HeadNoMac)
        else if HeadMac(c, rec.kind, rec.rows) != rec.mac then Some(HeadMacMismatch)
        else None
  }

  /** The head file after a successful append to a chain that held `chainRows` records before. */
  function HeadAfter(c: Config, h: HeadFile, kind: int, chainRows: nat): HeadFile {
    var recs := if h.Head? then h.recs else [];
    var slot := Slot(recs, kind);
    if slot == |recs| && |recs| >= HEAD_MAX_RECS then h
    else
      var before := if slot < |recs| then recs[slot].rows else 0;
      var rows := if chainRows + 1 > before then chainRows + 1 else before;
      var rec := HeadRec(kind, rows, HeadMac(c, kind, rows));
      Head(if slot < |recs| then recs[slot := rec] else recs + [rec])
  }

  // ----- appending -----

  predicate HasMagic(f: Bytes) {
    |f| >= |MAGIC| && f[..|MAGIC|] == MAGIC
  }

  /** A file that does not exist, or was created and never got its header. */
  predicate IsNew(file: Option<Bytes>) {
    file.None? || file.value == []
  }

  /** The records a torn file keeps. Fewer than four stray bytes are not seen as a tear. */
  function Repaired(d: Bytes): Bytes {
    if Clean(d) then d else d[..|d| - |Tail(d)|]
  }

  predicate IsRefused(c: Config, file: Option<Bytes>, kind: int, payload: Bytes) {
    || kind < 1 || kind > MAX_KIND
    || |payload| > MAX_BLOB
    || (file.Some? && c.cap > 0 && |file.value| >= c.cap)
    || (!IsNew(file) && !HasMagic(file.value))
  }

  /** What stands behind the file header when the new record is written. */
  function Base(file: Option<Bytes>): Bytes
    requires IsNew(file) || HasMagic(file.value)
  {
    if IsNew(file) then [] else Repaired(file.value[|MAGIC|..])
  }

  function NewRecord(c: Config, d: Bytes, kind: int, payload: Bytes, stamp: Stamp): Record
    requires 1 <= kind <= MAX_KIND && |payload| <= MAX_BLOB
  {
    var prev := TipHash(OfKind(Records(d), kind), GENESIS);
    var hasMac := if c.key.Some? then 1 else 0;
    var mac := if c.key.Some? then c.suite.hmac(c.key.value, payload) else Zeros(32);
    var hash := c.suite.hash(prev + payload + (if c.key.Some? then mac else []));
    Record(Header(kind, hasMac, 0, [0, 0], mac, prev, hash, stamp), payload)
  }

  /** What is left of a crash point once n more bytes have been written. */
  function Remaining(fate: Fate, n: nat): Fate {
    if fate.Dies? && fate.written >= n then Dies(fate.written - n) else fate
  }

  /** Of the bytes being written, those that reach the disk: any prefix, when the write is cut short. */
  function Survivors(bytes: Bytes, fate: Fate): Bytes {
    if fate.Dies? && fate.written < |bytes| then bytes[..fate.written] else bytes
  }

  /** One append. A new file gets its header first, and that write too may be the one cut short. */
  function Write(c: Config, s: Disk, kind: int, payload: Bytes, stamp: Stamp, fate: Fate): (Outcome, Disk) {
    if IsRefused(c, s.file, kind, payload) then (Refused, s)
    else if IsNew(s.file) && fate.Dies? && fate.written < |MAGIC| then
      (Died, Disk(Some(MAGIC[..fate.written]), s.head))
    else
      var d := Base(s.file);
      var left := if IsNew(s.file) then Remaining(fate, |MAGIC|) else fate;
      var file := Some(MAGIC + d + Survivors(Encode(NewRecord(c, d, kind, payload, stamp)), left));
      if fate.Dies? then (Died, Disk(file, s.head))
      else (Appended, Disk(file, HeadAfter(c, s.head, kind, |OfKind(Records(d), kind)|)))
  }

  /** `fractal_ledger_verify`. */
  function Verify(c: Config, s: Disk, kind: int): Report
    requires 0 <= kind < 0x1_0000_0000
  {
    if s.file.None? then
      if HeadRows(s.head, kind) > 0 then Failed(0, LedgerMissing) else Verified(0)
    else if !HasMagic(s.file.value) then Failed(0, BadFileHeader)
    else
      var walk := Walk(c.suite, c.key, kind, s.file.value[|MAGIC|..], 0, 0, GENESIS);
      if walk.Failed? then walk
      else if HeadFault(c, s.head, kind).Some? then Failed(0, HeadFault(c, s.head, kind).value)
      else if walk.rows < HeadRows(s.head, kind) then Failed(walk.rows + 1, FewerRows)
      else walk
  }

  /** What `ledger_verify_latest_file` accepts. It does not look at the head file. */
  predicate LatestOk(c: Config, s: Disk, kind: nat) {
    s.file.None? || (HasMagic(s.file.value) && TipOk(c.suite, c.key, kind, s.file.value[|MAGIC|..]))
  }

  /** What the full verification accepts, the O(1) check accepts. */
  lemma VerifiedIsLatestOk(c: Config, s: Disk, kind: nat)
    requires kind < 0x1_0000_0000 && Verify(c, s, kind).Verified?
    ensures LatestOk(c, s, kind)
  {
    hide Walk, TipOk;
    if s.file.Some? {
      FullImpliesTip(c.suite, c.key, kind, s.file.value[|MAGIC|..]);
    }
  }

  // ----- the code -----

  class Ledger {
    const config: Config
    var file: Option<Bytes>
    var head: HeadFile

    ghost function State(): Disk
      reads this
    {
      Disk(file, head)
    }

    constructor (c: Config, s: Disk)
      ensures config == c && State() == s
    {
      config, file, head := c, s.file, s.head;
    }

    /** `ledger_open_for_read`: the magic and the version are checked, the rest is left unread. */
    method OpenForRead() returns (fp: File?, badHeader: bool)
      ensures fp == null ==> (badHeader <==> file.Some?) && (file.Some? ==> !HasMagic(file.value))
      ensures fp != null ==> file.Some? && HasMagic(file.value) && fresh(fp) && fp.Valid()
                             && fp.data == file.value && fp.pos == |MAGIC| && !badHeader
    {
      if file.None? { return null, false; }
      fp := new File(file.value);
      var ok, magic := fp.Read(|MAGIC|);
      if !ok || magic != MAGIC { return null, true; }
      badHeader := false;
    }

    /** The walk of `ledger_repair_torn_tail`: where the first record fails to read, or -1. */
    method FindTear(fp: File) returns (tornAt: int)
      requires fp.Valid()
      modifies fp
      ensures tornAt == if Clean(old(fp.Rest())) then -1 else |fp.data| - |Tail(old(fp.Rest()))|
    {
      ghost var d := fp.Rest();
      while true
        invariant fp.Valid()
        invariant Tail(d) == Tail(fp.Rest())
        decreases |fp.Rest()|
      {
        var recStart := fp.pos;
        ghost var rest := fp.Rest();
        var n := ReadRecord(fp);
        match n {
          case Eof => return -1;
          case Got(_, _) =>
          case _ => return recStart;
        }
      }
    }

    /** `ledger_repair_torn_tail`: the file is cut in place where the first record fails to read. */
    method RepairTornTail() returns (ok: bool)
      modifies this`file
      ensures ok <==> old(file.None? || HasMagic(file.value))
      ensures !ok || old(file.None?) ==> file == old(file)
      ensures ok && old(file.Some?) ==> file == Some(MAGIC + Repaired(old(file.value)[|MAGIC|..]))
    {
      var fp, badHeader := OpenForRead();
      if fp == null { return !badHeader; }
      ghost var d := file.value[|MAGIC|..];
      assert file.value == MAGIC + d && fp.Rest() == d;
      var tornAt := FindTear(fp);
      if tornAt >= 0 {
        assert file.value[..tornAt] == MAGIC + d[..|d| - |Tail(d)|];
        file := Some(file.value[..tornAt]);
      }
      return true;
    }

    /** `ledger_head_update`. */
    method HeadUpdate(kind: int, chainRows: nat)
      modifies this`head
      ensures head == HeadAfter(config, old(head), kind, chainRows)
    {
      var recs := if head.Head? then head.recs else [];
      var slot := 0;
      while slot < |recs| && recs[slot].kind != kind
        invariant slot <= |recs| && Slot(recs, kind) == SlotFrom(recs, kind, slot)
      {
        slot := slot + 1;
      }
      if slot == |recs| {
        if |recs| >= HEAD_MAX_RECS { return; }
        recs := recs + [HeadRec(kind, 0, None)];
      }
      var rows := recs[slot].rows;
      if chainRows + 1 > rows { rows := chainRows + 1; }
      recs := recs[slot := HeadRec(kind, rows, HeadMac(config, kind, rows))];
      head := Head(recs);
    }

    /** The first half of `ledger_write_entry`: scan, and on a failed scan repair and scan once more. */
    method ScanForAppend(kind: nat) returns (latest: Option<Record>, kindRecords: nat)
      requires file.Some? && HasMagic(file.value)
      modifies this`file
      ensures file == Some(MAGIC + Repaired(old(file.value)[|MAGIC|..]))
      ensures latest == Last(OfKind(Records(file.value[|MAGIC|..]), kind))
      ensures kindRecords == |OfKind(Records(file.value[|MAGIC|..]), kind)|
    {
      var fp, bad := OpenForRead();
      assert file.value == MAGIC + file.value[|MAGIC|..];
      var ok, prior, records;
      ok, latest, prior, records, kindRecords := ScanLatestTwo(fp, kind);
      if !ok {
        var repaired := RepairTornTail();
        RepairedIsClean(old(file.value)[|MAGIC|..]);
        assert file.value[|MAGIC|..] == Repaired(old(file.value)[|MAGIC|..]);
        fp, bad := OpenForRead();
        ok, latest, prior, records, kindRecords := ScanLatestTwo(fp, kind);
      }
    }

    /** The MAC and the entry hash of a new record that links to `latest`. */
    method BuildRecord(kind: nat, payload: Bytes, stamp: Stamp, latest: Option<Record>) returns (r: Record)
      requires 1 <= kind <= MAX_KIND && |payload| <= MAX_BLOB
      ensures forall d :: latest == Last(OfKind(Records(d), kind)) ==> r == NewRecord(config, d, kind, payload, stamp)
    {
      var prev := if latest.Some? then latest.value.head.hash else GENESIS;
      var mac: Digest32 := Zeros(32);
      var buf := prev + payload;
      if config.key.Some? {
        mac := config.suite.hmac(config.key.value, payload);
        buf := buf + mac;
      } else {
        assert prev + payload + [] == prev + payload;
      }
      var hash := config.suite.hash(buf);
      r := Record(Header(kind, if config.key.Some? then 1 else 0, 0, [0, 0], mac, prev, hash, stamp), payload);
    }

    /** `ledger_write_entry` up to its scan: refusals, and the header of a new file. */
    method OpenForAppend(kind: int, payload: Bytes, fate: Fate) returns (ended: Option<Outcome>, left: Fate)
      modifies this`file
      ensures IsRefused(config, old(file), kind, payload) ==> ended == Some(Refused) && file == old(file)
      ensures !IsRefused(config, old(file), kind, payload) ==>
        if IsNew(old(file)) then
          if fate.Dies? && fate.written < |MAGIC| then ended == Some(Died) && file == Some(MAGIC[..fate.written])
          else ended == None && file == Some(MAGIC) && left == Remaining(fate, |MAGIC|)
        else ended == None && file == old(file) && left == fate
    {
      left := fate;
      if kind < 1 || kind > MAX_KIND { return Some(Refused), left; }
      if |payload| > MAX_BLOB { return Some(Refused), left; }
      var isNew := file.None? || |file.value| == 0;
      if file.Some? && config.cap > 0 && |file.value| >= config.cap { return Some(Refused), left; }
      if isNew {
        if fate.Dies? && fate.written < |MAGIC| {
          file := Some(MAGIC[..fate.written]);
          return Some(Died), left;
        }
        file := Some(MAGIC);
        left := Remaining(fate, |MAGIC|);
      } else if |file.value| < |MAGIC| || file.value[..|MAGIC|] != MAGIC {
        return Some(Refused), left;
      }
      return None, left;
    }

    /** The rest of it: link the record to the newest of its kind, append it, and update the head. */
    method AppendRecord(kind: nat, payload: Bytes, stamp: Stamp, fate: Fate) returns (outcome: Outcome)
      requires file.Some? && HasMagic(file.value) && 1 <= kind <= MAX_KIND && |payload| <= MAX_BLOB
      modifies this
      ensures var d := Repaired(old(file.value)[|MAGIC|..]);
              var bytes := Encode(NewRecord(config, d, kind, payload, stamp));
        && outcome == (if fate.Dies? then Died else Appended)
        && file == Some(MAGIC + d + Survivors(bytes, fate))
        && head == (if fate.Dies? then old(head) else HeadAfter(config, old(head), kind, |OfKind(Records(d), kind)|))
    {
      var latest, kindRecords := ScanForAppend(kind);
      ghost var d := Repaired(old(file.value)[|MAGIC|..]);
      assert file.value[|MAGIC|..] == d;
      var record := BuildRecord(kind, payload, stamp, latest);
      var bytes := Encode(record);
      file := Some(file.value + Survivors(bytes, fate));
      if fate.Dies? { return Died; }
      HeadUpdate(kind, kindRecords);
      return Appended;
    }

    /** `ledger_write_entry`. */
    method WriteEntry(kind: int, payload: Bytes, stamp: Stamp, fate: Fate) returns (outcome: Outcome)
      modifies this
      ensures (outcome, State()) == Write(config, old(State()), kind, payload, stamp, fate)
    {
      var ended, left := OpenForAppend(kind, payload, fate);
      if ended.Some? {
        return ended.value;
      }
      ghost var d := Base(old(file));
      NewFileIsEmpty();
      outcome := AppendRecord(kind, payload, stamp, left);
    }

    /** `ledger_verify_latest_file`. */
    method VerifyLatestFile(kind: nat) returns (ok: bool)
      requires kind < 0x1_0000_0000
      ensures ok <==> LatestOk(config, State(), kind)
    {
      hide TipOk;
      var fp, badHeader := OpenForRead();
      if fp == null {
        return !badHeader;
      }
      ok := VerifyLatest(config.suite, config.key, kind, fp);
    }

    /** `fractal_ledger_verify`. */
    method VerifyKind(kind: nat) returns (report: Report)
      requires kind < 0x1_0000_0000
      ensures report == Verify(config, State(), kind)
    {
      var fp, badHeader := OpenForRead();
      if fp == null {
        if badHeader { return Failed(0, BadFileHeader); }
        return if HeadRows(head, kind) > 0 then Failed(0, LedgerMissing) else Verified(0);
      }
      report := WalkFile(config.suite, config.key, kind, fp);
      if report.Verified? {
        var headFault := HeadFault(config, head, kind);
        if headFault.Some? {
          report := Failed(0, headFault.value);
        } else if report.rows < HeadRows(head, kind) {
          report := Failed(report.rows + 1, FewerRows);
        }
      }
    }
  }

  lemma NewFileIsEmpty()
    ensures MAGIC[|MAGIC|..] == [] && Repaired([]) == []
  {
  }

  lemma RepairedIsClean(d: Bytes)
    ensures Clean(Repaired(d)) && Records(Repaired(d)) == Records(d)
    ensures !Clean(d) ==> Tail(Repaired(d)) == [] && Repaired(d) == EncodeAll(Records(d))
  {
    if !Clean(d) {
      TailIsSuffix(d);
      ReadEncodedAll(Records(d), []);
      assert EncodeAll(Records(d)) + [] == EncodeAll(Records(d));
      assert Records([]) == [] && Tail([]) == [];
    }
  }
}
