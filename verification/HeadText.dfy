/**
 The head file as text: what `ledger_head_write` prints and what `ledger_head_read` makes of any
 text, so that the records of module LedgerStore survive the way through the file.
 */
module HeadText {
  import opened ByteStrings
  import opened Sha256
  import opened Wrappers
  import opened Texts
  import opened JsonSyntax
  import opened JsonEscapes
  import opened LedgerStore
  import ConfigKeys
  import JsonKeys
  import JsonRedactor
  import LedgerFormat
  import LedgerRuns
  import SeqFacts

  const LONG_MAX: int := 0x7FFF_FFFF_FFFF_FFFF
  const INT_MAX: int := 0x7FFF_FFFF

  /** The line buffer of fgets, without its NUL. */
  const LINE_MAX: nat := 511

  // ----- one line -----

  predicate IsBlank(c: char) {
    c == ' ' || c == '\t'
  }

  predicate EndsLine(t: string) {
    t == "" || t[0] == '\n' || t[0] == '\r'
  }

  function SkipBlanks(t: string): (r: string)
    ensures |r| <= |t| && (r != "" ==> !IsBlank(r[0]))
    decreases |t|
  {
    if t != "" && IsBlank(t[0]) then SkipBlanks(t[1..]) else t
  }

  function Clamped(n: int): (r: int)
    ensures -0x8000_0000_0000_0000 <= r <= 0x7FFF_FFFF_FFFF_FFFF
    ensures -0x8000_0000_0000_0000 <= n <= 0x7FFF_FFFF_FFFF_FFFF ==> r == n
    ensures n > 0x7FFF_FFFF_FFFF_FFFF ==> r == 0x7FFF_FFFF_FFFF_FFFF
    ensures n < -0x8000_0000_0000_0000 ==> r == -0x8000_0000_0000_0000
  {
    if n > LONG_MAX then LONG_MAX else if n < -LONG_MAX - 1 then -LONG_MAX - 1 else n
  }

  /** What a cast to int keeps of a long. */
  function AsInt(n: int): (r: int)
    ensures -0x8000_0000 <= r <= 0x7FFF_FFFF && (n - r) % 0x1_0000_0000 == 0
  {
    var low := n % 0x1_0000_0000;
    if low > INT_MAX then low - 0x1_0000_0000 else low
  }

  /** strtol and strtoll, and what stands behind the digits; None when there are none. */
  function ReadLong(t: string): (r: Option<(int, string)>)
    ensures r.Some? ==> |r.value.1| < |t|
    ensures r.Some? && t != "" && IsDigit(t[0]) ==> r.value.0 >= 0
  {
    SkipSpaceShorter(t);
    var u := ConfigKeys.SkipSpace(t);
    var digits := if u != "" && (u[0] == '-' || u[0] == '+') then u[1..] else u;
    var n := JsonKeys.Lead(digits);
    if n == 0 then None
    else
      var value: int := DigitsValue(digits[..n]);
      Some((Clamped(if u[0] == '-' then -value else value), digits[n..]))
  }

  lemma {:induction false} SkipSpaceShorter(t: string)
    ensures |ConfigKeys.SkipSpace(t)| <= |t|
    decreases |t|
  {
    if t != "" && ConfigKeys.IsSpace(t[0]) {
      SkipSpaceShorter(t[1..]);
    }
  }

  /** Pairs of hexadecimal digits. */
  function ReadHex(t: string): (b: Option<Bytes>)
    ensures b.Some? ==> 2 * |b.value| == |t|
    decreases |t|
  {
    if t == "" then Some([])
    else if |t| == 1 || HexValue(t[0]).None? || HexValue(t[1]).None? then None
    else
      match ReadHex(t[2..])
      case None => None
      case Some(more) => Some([HexValue(t[0]).value * 16 + HexValue(t[1]).value] + more)
  }

  /** The record while its fields are read, -1 for a number that has not been there yet. */
  datatype Draft = Draft(kind: int, rows: int, mac: Option<Digest32>)

  function Finished(d: Draft): Option<HeadRec> {
    if d.kind >= 0 && d.rows >= 0 then Some(HeadRec(d.kind, d.rows, d.mac)) else None
  }

  const KIND: string := "kind="
  const ROWS: string := "rows="
  const MAC: string := "mac="

  /** The field at the head of t. */
  function Field(d: Draft, t: string): (r: Option<(Draft, string)>)
    ensures r.Some? ==> |r.value.1| < |t|
  {
    if KIND <= t then
      match ReadLong(t[|KIND|..])
      case None => None
      case Some((n, rest)) => Some((d.(kind := AsInt(n)), rest))
    else if ROWS <= t then
      match ReadLong(t[|ROWS|..])
      case None => None
      case Some((n, rest)) => Some((d.(rows := n), rest))
    else if MAC <= t then
      if |t| < |MAC| + 64 then None
      else
        match ReadHex(t[|MAC|..][..64])
        case None => None
        case Some(mac) => Some((d.(mac := Some(mac)), t[|MAC|..][64..]))
    else None
  }

  function Fields(d: Draft, t: string): Option<HeadRec>
    decreases |t|
  {
    var u := SkipBlanks(t);
    if EndsLine(u) then Finished(d)
    else
      match Field(d, u)
      case None => None
      case Some((d', rest)) => Fields(d', rest)
  }

  /** The bare pair of a head file from before there were MACs. */
  function Pair(t: string): Option<HeadRec> {
    match ReadLong(t)
    case None => None
    case Some((k, rest)) =>
      var u := SkipBlanks(rest);
      if u == "" || !IsDigit(u[0]) then None
      else
        match ReadLong(u)
        case None => None
        case Some((rows, end)) =>
          if !EndsLine(SkipBlanks(end)) then None else Some(HeadRec(AsInt(k), rows, None))
  }

  /** `ledger_head_parse`. */
  function ParseLine(line: string): Option<HeadRec> {
    var t := SkipBlanks(line);
    if t != "" && IsDigit(t[0]) then Pair(t) else Fields(Draft(-1, -1, None), t)
  }

  // ----- the file -----

  /** How much fgets takes: up to a line feed and with it, or as much as its buffer holds. */
  function Taken(text: string, room: nat): (n: nat)
    ensures n <= |text| && n <= room && (text != "" && room > 0 ==> n > 0)
    decreases |text|
  {
    if text == "" || room == 0 then 0 else if text[0] == '\n' then 1 else 1 + Taken(text[1..], room - 1)
  }

  predicate Skipped(line: string) {
    var t := SkipBlanks(line);
    EndsLine(t) || t[0] == '#'
  }

  /** The records of the rest of the file; None when a line does not parse. */
  function RecsFrom(text: string, max: nat): Option<seq<HeadRec>>
    decreases |text|
  {
    if text == "" || max == 0 then Some([])
    else
      var n := Taken(text, LINE_MAX);
      var line := CString(text[..n]);
      if Skipped(line) then RecsFrom(text[n..], max)
      else
        match ParseLine(line)
        case None => None
        case Some(rec) =>
          match RecsFrom(text[n..], max - 1)
          case None => None
          case Some(more) => Some([rec] + more)
  }

  /** `ledger_head_read` on what stands on disk. */
  function ReadHead(file: Option<string>): HeadFile {
    match file
    case None => NoHead
    case Some(text) =>
      match RecsFrom(text, HEAD_MAX_RECS)
      case None => Unparsable
      case Some(recs) => Head(recs)
  }

  function MacText(mac: Option<Digest32>): string {
    match mac
    case None => "\n"
    case Some(m) => " mac=" + (JsonRedactor.HexBytes(m) + "\n")
  }

  /** One record as `ledger_head_write` prints it. */
  function RecText(r: HeadRec): string {
    "kind=" + (Decimal(r.kind) + (" rows=" + (DecimalNat(r.rows) + MacText(r.mac))))
  }

  function HeadFileText(recs: seq<HeadRec>): string
    decreases |recs|
  {
    if recs == [] then "" else RecText(recs[0]) + HeadFileText(recs[1..])
  }

  // ----- the loops; a pointer into a line is the text from there on -----

  method SkipBlanksFrom(line: string) returns (p: string)
    ensures p == SkipBlanks(line)
  {
    p := line;
    while p != "" && IsBlank(p[0])
      invariant SkipBlanks(p) == SkipBlanks(line)
      decreases |p|
    {
      p := p[1..];
    }
  }

  /** The digits behind "mac=". */
  method MacFrom(p: string) returns (mac: Option<Bytes>)
    requires |p| == 64
    ensures mac == ReadHex(p)
  {
    var m: Bytes := [];
    JoinedMore(m, 0, ReadHex(p));
    assert p[2 * 0..] == p;
    for i := 0 to 32
      invariant |m| == i
      invariant ReadHex(p) == Joined(m, ReadHex(p[2 * i..]))
    {
      var q := p[2 * i..];
      var hi, lo := HexValue(q[0]), HexValue(q[1]);
      assert p[2 * (i + 1)..] == q[2..];
      if hi.None? || lo.None? { return None; }
      JoinedMore(m, hi.value * 16 + lo.value, ReadHex(q[2..]));
      m := m + [hi.value * 16 + lo.value];
    }
    JoinedMore(m, 0, None);
    mac := Some(m);
  }

  function Joined<T>(seen: seq<T>, more: Option<seq<T>>): Option<seq<T>> {
    if more.None? then None else Some(seen + more.value)
  }

  lemma JoinedMore<T>(seen: seq<T>, x: T, more: Option<seq<T>>)
    ensures Joined(seen, Joined([x], more)) == Joined(seen + [x], more)
    ensures Joined(seen, Some([])) == Some(seen) && Joined([], more) == more
  {
    assert seen + [] == seen;
    if more.Some? {
      SeqFacts.Assoc(seen, [x], more.value);
      assert [] + more.value == more.value;
    }
  }

  /** One turn of the loop of `ledger_head_parse`. */
  method FieldAt(d: Draft, p: string) returns (ok: bool, d': Draft, rest: string)
    ensures ok == Field(d, p).Some?
    ensures ok ==> Field(d, p) == Some((d', rest))
  {
    d', rest := d, p;
    if KIND <= p {
      var n := ReadLong(p[|KIND|..]);
      if n.None? { return false, d', rest; }
      d', rest := d.(kind := AsInt(n.value.0)), n.value.1;
    } else if ROWS <= p {
      var n := ReadLong(p[|ROWS|..]);
      if n.None? { return false, d', rest; }
      d', rest := d.(rows := n.value.0), n.value.1;
    } else if MAC <= p && |p| >= |MAC| + 64 {
      var mac := MacFrom(p[|MAC|..][..64]);
      if mac.None? { return false, d', rest; }
      d', rest := d.(mac := Some(mac.value)), p[|MAC|..][64..];
    } else {
      return false, d', rest;
    }
    ok := true;
  }

  /** The old form of a line. */
  method PairAt(line: string) returns (rec: Option<HeadRec>)
    ensures rec == Pair(line)
  {
    var k := ReadLong(line);
    if k.None? { return None; }
    var p := SkipBlanksFrom(k.value.1);
    if p == "" || !IsDigit(p[0]) { return None; }
    var rows := ReadLong(p);
    if rows.None? { return None; }
    p := SkipBlanksFrom(rows.value.1);
    rec := if EndsLine(p) then Some(HeadRec(AsInt(k.value.0), rows.value.0, None)) else None;
  }

  /** `ledger_head_parse`. */
  method HeadParse(line: string) returns (rec: Option<HeadRec>)
    ensures rec == ParseLine(line)
  {
    var p := SkipBlanksFrom(line);
    if p != "" && IsDigit(p[0]) {
      rec := PairAt(p);
      return;
    }
    var d := Draft(-1, -1, None);
    ghost var start := p;
    while true
      invariant Fields(d, p) == Fields(Draft(-1, -1, None), start)
      decreases |p|
    {
      var u := SkipBlanksFrom(p);
      if EndsLine(u) { return Finished(d); }
      var ok;
      ok, d, p := FieldAt(d, u);
      if !ok { return None; }
    }
  }

  /** `ledger_head_read`: None for a file that does not parse. */
  method HeadRead(text: string) returns (recs: Option<seq<HeadRec>>)
    ensures recs == RecsFrom(text, HEAD_MAX_RECS)
  {
    hide ParseLine, Skipped, Taken, CString;
    var p, read := text, [];
    JoinedMore(read, HeadRec(0, 0, None), RecsFrom(p, HEAD_MAX_RECS));
    while |read| < HEAD_MAX_RECS && p != ""
      invariant |read| <= HEAD_MAX_RECS
      invariant RecsFrom(text, HEAD_MAX_RECS) == Joined(read, RecsFrom(p, HEAD_MAX_RECS - |read|))
      decreases |p|
    {
      var n := Taken(p, LINE_MAX);
      var line := CString(p[..n]);
      if !Skipped(line) {
        var rec := HeadParse(line);
        if rec.None? { return None; }
        JoinedMore(read, rec.value, RecsFrom(p[n..], HEAD_MAX_RECS - |read| - 1));
        read := read + [rec.value];
      }
      p := p[n..];
    }
    JoinedMore(read, HeadRec(0, 0, None), None);
    recs := Some(read);
  }

  /** `ledger_head_write` up to the rename. */
  method HeadWrite(recs: seq<HeadRec>) returns (text: string)
    ensures text == HeadFileText(recs)
  {
    text := "";
    for i := 0 to |recs|
      invariant HeadFileText(recs) == text + HeadFileText(recs[i..])
    {
      TextStep(recs[i..]);
      assert recs[i..][1..] == recs[i + 1..];
      SeqFacts.Assoc(text, RecText(recs[i]), HeadFileText(recs[i + 1..]));
      text := text + RecText(recs[i]);
    }
    assert text + "" == text;
  }

  // ----- what was printed is read back -----

  predicate Fits(r: HeadRec) {
    0 <= r.kind <= INT_MAX && r.rows <= LONG_MAX
  }

  lemma NumberReadsBack(n: nat, rest: string)
    requires n <= LONG_MAX && (rest == "" || !IsDigit(rest[0]))
    ensures ReadLong(DecimalNat(n) + rest) == Some((n, rest))
  {
    var t := DecimalNat(n) + rest;
    JsonKeys.DecimalValue(n);
    assert t[0] == DecimalNat(n)[0];
    JsonKeys.LeadPrinted(DecimalNat(n), rest);
  }

  /** A sign in front is read, either one. */
  lemma SignReadsBack(n: nat, minus: bool, rest: string)
    requires n <= LONG_MAX && (rest == "" || !IsDigit(rest[0]))
    ensures ReadLong((if minus then "-" else "+") + (DecimalNat(n) + rest)) == Some((if minus then -(n as int) else n, rest))
  {
    var t := (if minus then "-" else "+") + (DecimalNat(n) + rest);
    JsonKeys.DecimalValue(n);
    assert t[0] == (if minus then '-' else '+') && t[1..] == DecimalNat(n) + rest;
    JsonKeys.LeadPrinted(DecimalNat(n), rest);
    hide DecimalNat;
    assert ConfigKeys.SkipSpace(t) == t;
    assert (DecimalNat(n) + rest)[..|DecimalNat(n)|] == DecimalNat(n);
    assert (DecimalNat(n) + rest)[|DecimalNat(n)|..] == rest;
  }

  lemma {:induction false} HexReadsBack(b: Bytes)
    ensures ReadHex(JsonRedactor.HexBytes(b)) == Some(b)
    decreases |b|
  {
    if b != [] {
      var t := JsonRedactor.HexBytes(b);
      HexReadsBack(b[1..]);
      HexOfDigit(b[0] / 16);
      HexOfDigit(b[0] % 16);
      assert t[2..] == JsonRedactor.HexBytes(b[1..]);
      assert [b[0]] + b[1..] == b;
    }
  }

  lemma FieldsStep(d: Draft, t: string, u: string, d': Draft, rest: string)
    requires SkipBlanks(t) == u && !EndsLine(u) && Field(d, u) == Some((d', rest))
    ensures Fields(d, t) == Fields(d', rest)
  {
  }

  lemma KindField(d: Draft, n: nat, rest: string)
    requires n <= INT_MAX && (rest == "" || !IsDigit(rest[0]))
    ensures Field(d, "kind=" + (DecimalNat(n) + rest)) == Some((d.(kind := n), rest))
  {
    hide ReadLong, DecimalNat, ReadHex, AsInt;
    SeqFacts.Skip("kind=", DecimalNat(n) + rest);
    NumberReadsBack(n, rest);
    assert AsInt(n) == n by {
      IntStays(n);
    }
  }

  lemma IntStays(n: nat)
    requires n <= INT_MAX
    ensures AsInt(n) == n
  {
  }

  lemma RowsField(d: Draft, n: nat, rest: string)
    requires n <= LONG_MAX && (rest == "" || !IsDigit(rest[0]))
    ensures Field(d, "rows=" + (DecimalNat(n) + rest)) == Some((d.(rows := n), rest))
  {
    SeqFacts.Skip("rows=", DecimalNat(n) + rest);
    NumberReadsBack(n, rest);
    hide ReadLong, DecimalNat;
    assert ("rows=" + (DecimalNat(n) + rest))[0] == 'r';
  }

  lemma MacField(d: Draft, m: Digest32, rest: string)
    ensures Field(d, "mac=" + (JsonRedactor.HexBytes(m) + rest)) == Some((d.(mac := Some(m)), rest))
  {
    var hex := JsonRedactor.HexBytes(m);
    SeqFacts.Skip("mac=", hex + rest);
    SeqFacts.Skip(hex, rest);
    HexReadsBack(m);
    hide ReadLong, ReadHex, JsonRedactor.HexBytes;
    assert ("mac=" + (hex + rest))[0] == 'm';
  }

  /** One field, the blank in front of it included, and the rest. */
  lemma FieldReadsBack(d: Draft, blank: string, name: string, text: string, d': Draft, rest: string)
    requires name != "" && 'a' <= name[0] <= 'z' && (blank == "" || blank == " ")
    requires Field(d, name + text) == Some((d', rest))
    ensures Fields(d, blank + name + text) == Fields(d', rest)
  {
    hide Fields, Field;
    var u := name + text;
    assert u[0] == name[0];
    BlankInFront(u);
    assert blank + name + text == if blank == "" then u else " " + u;
    hide SkipBlanks;
    FieldsStep(d, blank + name + text, u, d', rest);
  }

  lemma BlankInFront(u: string)
    requires u != "" && !IsBlank(u[0])
    ensures SkipBlanks(" " + u) == u && SkipBlanks(u) == u
  {
    assert (" " + u)[1..] == u;
  }

  lemma LineEnds(d: Draft)
    ensures Fields(d, "\n") == Finished(d)
  {
  }

  /** A printed record is read back. */
  lemma RecReadsBack(r: HeadRec)
    requires Fits(r)
    ensures ParseLine(RecText(r)) == Some(r)
  {
    hide Fields, Field, DecimalNat, SkipBlanks, JsonRedactor.HexBytes;
    var d := Draft(-1, -1, None);
    var mac := MacText(r.mac);
    var rows := " rows=" + (DecimalNat(r.rows) + mac);
    var t := RecText(r);
    assert t == "kind=" + (DecimalNat(r.kind) + rows) && t[0] == 'k';
    BlankInFront(t);
    KindField(d, r.kind, rows);
    FieldReadsBack(d, "", "kind=", DecimalNat(r.kind) + rows, d.(kind := r.kind), rows);
    RowsField(d.(kind := r.kind), r.rows, mac);
    FieldReadsBack(d.(kind := r.kind), " ", "rows=", DecimalNat(r.rows) + mac, Draft(r.kind, r.rows, None), mac);
    if r.mac.Some? {
      var hex := JsonRedactor.HexBytes(r.mac.value);
      MacField(Draft(r.kind, r.rows, None), r.mac.value, "\n");
      FieldReadsBack(Draft(r.kind, r.rows, None), " ", "mac=", hex + "\n", Draft(r.kind, r.rows, r.mac), "\n");
      Pieces(hex + "\n");
    }
    LineEnds(Draft(r.kind, r.rows, r.mac));
    Pieces(DecimalNat(r.kind) + rows);
    Pieces(DecimalNat(r.rows) + mac);
  }

  lemma Pieces(x: string)
    ensures "" + "kind=" + x == "kind=" + x && " " + "rows=" + x == " rows=" + x && " " + "mac=" + x == " mac=" + x
  {
    assert "" + "kind=" == "kind=" && " " + "rows=" == " rows=" && " " + "mac=" == " mac=";
  }

  /** Characters that end neither a line nor a C string. */
  predicate Inline(s: string) {
    forall i :: 0 <= i < |s| ==> s[i] != '\n' && s[i] != '\0'
  }

  lemma {:induction false} HexIsInline(b: Bytes)
    ensures Inline(JsonRedactor.HexBytes(b))
    decreases |b|
  {
    if b != [] {
      HexIsInline(b[1..]);
      HexIsPlain(b[0] / 16);
      HexIsPlain(b[0] % 16);
    }
  }

  lemma {:induction false} TakenLine(line: string, rest: string, room: nat)
    requires Inline(line) && |line| < room
    ensures Taken(line + "\n" + rest, room) == |line| + 1
    decreases |line|
  {
    var t := line + "\n" + rest;
    if line == "" {
      assert t[0] == '\n';
    } else {
      TakenLine(line[1..], rest, room - 1);
      assert t[0] == line[0] && t[1..] == line[1..] + "\n" + rest;
    }
  }

  /** A printed record is one line, short enough for the buffer. */
  lemma RecIsLine(r: HeadRec) returns (line: string)
    requires Fits(r)
    ensures RecText(r) == line + "\n" && Inline(line) && |line| < LINE_MAX
  {
    WordLength(r.kind);
    WordLength(r.rows);
    var k, n := DecimalNat(r.kind), DecimalNat(r.rows);
    assert Inline(k) && Inline(n);
    var head := "kind=" + (k + (" rows=" + n));
    if r.mac.Some? {
      var hex := JsonRedactor.HexBytes(r.mac.value);
      HexIsInline(r.mac.value);
      line := head + (" mac=" + hex);
    } else {
      line := head;
    }
  }

  lemma RecIsNotSkipped(r: HeadRec)
    ensures RecText(r) != "" && !Skipped(RecText(r))
  {
    assert RecText(r)[0] == 'k';
  }

  /** Every list of records the file has room for is read back as it was written. */
  lemma {:induction false} HeadReadsBack(recs: seq<HeadRec>, max: nat)
    requires |recs| <= max && forall i :: 0 <= i < |recs| ==> Fits(recs[i])
    ensures RecsFrom(HeadFileText(recs), max) == Some(recs)
    decreases |recs|
  {
    hide *;
    if recs == [] {
      NoRecs(recs, max);
    } else {
      assert Fits(recs[0]);
      assert forall i :: 0 <= i < |recs| - 1 ==> Fits(recs[1..][i]);
      HeadReadsBack(recs[1..], max - 1);
      FirstRec(recs[0], HeadFileText(recs[1..]), max, recs[1..]);
      TextStep(recs);
      SeqFacts.HeadTail(recs);
    }
  }

  lemma NoRecs(recs: seq<HeadRec>, max: nat)
    requires recs == []
    ensures RecsFrom(HeadFileText(recs), max) == Some(recs)
  {
  }

  lemma TextStep(recs: seq<HeadRec>)
    requires recs != []
    ensures HeadFileText(recs) == RecText(recs[0]) + HeadFileText(recs[1..])
  {
  }

  lemma FirstRec(r: HeadRec, rest: string, max: nat, more: seq<HeadRec>)
    requires Fits(r) && max > 0 && RecsFrom(rest, max - 1) == Some(more)
    ensures RecsFrom(RecText(r) + rest, max) == Some([r] + more)
  {
    hide RecText, ParseLine, RecsFrom, Taken, Skipped, CString;
    var line := RecIsLine(r);
    TakenLine(line, rest, LINE_MAX);
    SeqFacts.Skip(RecText(r), rest);
    CStringWhole(RecText(r));
    RecReadsBack(r);
    RecIsNotSkipped(r);
    FirstLine(RecText(r) + rest, max, RecText(r), rest, r, more);
  }

  lemma FirstLine(text: string, max: nat, line: string, rest: string, rec: HeadRec, more: seq<HeadRec>)
    requires max > 0 && text != "" && Taken(text, LINE_MAX) == |line| <= |text| && text[..|line|] == line && text[|line|..] == rest
    requires CString(line) == line && !Skipped(line) && ParseLine(line) == Some(rec)
    requires RecsFrom(rest, max - 1) == Some(more)
    ensures RecsFrom(text, max) == Some([rec] + more)
  {
  }

  /** A comment line, of less than the reader's buffer, counts for nothing. */
  lemma CommentIsSkipped(comment: string, rest: string, max: nat)
    requires |comment| <= 509 && max > 0
    requires forall i :: 0 <= i < |comment| ==> comment[i] != '\n' && comment[i] != '\0'
    ensures RecsFrom("#" + comment + "\n" + rest, max) == RecsFrom(rest, max)
  {
    hide RecsFrom, Taken, CString;
    var line := "#" + comment;
    var text := line + "\n" + rest;
    assert Inline(line);
    TakenLine(line, rest, LINE_MAX);
    SeqFacts.Skip(line + "\n", rest);
    CStringWhole(line + "\n");
    assert (line + "\n")[0] == '#' && SkipBlanks(line + "\n") == line + "\n";
    SkippedStep(text, max, line + "\n", rest);
  }

  lemma SkippedStep(text: string, max: nat, line: string, rest: string)
    requires max > 0 && text != "" && Taken(text, LINE_MAX) == |line| <= |text| && text[..|line|] == line && text[|line|..] == rest
    requires CString(line) == line && Skipped(line)
    ensures RecsFrom(text, max) == RecsFrom(rest, max)
  {
  }

  /** A line longer than 511 characters is read in pieces of that length. */
  lemma LongLine(text: string)
    requires |text| >= 511 && forall i :: 0 <= i < 511 ==> text[i] != '\n'
    ensures Taken(text, LINE_MAX) == 511
  {
    TakenWhole(text, 511);
  }

  lemma {:induction false} TakenWhole(text: string, room: nat)
    requires |text| >= room && forall i :: 0 <= i < room ==> text[i] != '\n'
    ensures Taken(text, room) == room
    decreases room
  {
    if room > 0 {
      TakenWhole(text[1..], room - 1);
    }
  }

  lemma {:induction false} RecsAtMost(text: string, max: nat)
    ensures RecsFrom(text, max).Some? ==> |RecsFrom(text, max).value| <= max
    decreases |text|
  {
    if text != "" && max > 0 {
      var n := Taken(text, LINE_MAX);
      RecsAtMost(text[n..], max);
      RecsAtMost(text[n..], max - 1);
    }
  }

  /** The file has room for 17 records of 32-bit kinds and 64-bit counts, and never gives more. */
  lemma FileHolds17(recs: seq<HeadRec>, file: Option<string>)
    ensures |recs| <= 17
      && (forall i :: 0 <= i < |recs| ==> 0 <= recs[i].kind <= 0x7FFF_FFFF && recs[i].rows <= 0x7FFF_FFFF_FFFF_FFFF)
      ==> ReadHead(Some(HeadFileText(recs))) == Head(recs)
    ensures ReadHead(file).Head? ==> |ReadHead(file).recs| <= 17
    ensures ReadHead(file).NoHead? <==> file.None?
  {
    hide RecsFrom, HeadFileText;
    if |recs| <= 17 && forall i :: 0 <= i < |recs| ==> Fits(recs[i]) {
      HeadReadsBack(recs, HEAD_MAX_RECS);
    }
    if file.Some? {
      RecsAtMost(file.value, HEAD_MAX_RECS);
    }
  }

  /** A bare pair is read as a record without a MAC. */
  lemma PairReadsBack(kind: nat, rows: nat)
    requires kind <= INT_MAX && rows <= LONG_MAX
    ensures ParseLine(DecimalNat(kind) + (" " + (DecimalNat(rows) + "\n"))) == Some(HeadRec(kind, rows, None))
  {
    var u := DecimalNat(rows) + "\n";
    var t := DecimalNat(kind) + (" " + u);
    assert t[0] == DecimalNat(kind)[0] && u[0] == DecimalNat(rows)[0];
    hide ReadLong, DecimalNat;
    NumberReadsBack(kind, " " + u);
    NumberReadsBack(rows, "\n");
    BlankInFront(t);
    BlankInFront(u);
    hide SkipBlanks;
    PairIs(t, kind, " " + u, u, rows);
  }

  lemma PairIs(t: string, kind: nat, rest: string, u: string, rows: nat)
    requires kind <= INT_MAX && SkipBlanks(t) == t && t != "" && IsDigit(t[0])
    requires ReadLong(t) == Some((kind, rest)) && SkipBlanks(rest) == u && u != "" && IsDigit(u[0])
    requires ReadLong(u) == Some((rows, "\n"))
    ensures ParseLine(t) == Some(HeadRec(kind, rows, None))
  {
    hide ReadLong;
    assert SkipBlanks("\n") == "\n";
  }

  /**
   In every run of the ledger the head file that an append leaves is the one the next reader parses,
   as long as no chain is longer than a 64-bit counter can say.
   */
  lemma RunHeadReadsBack(c: Config, ops: seq<LedgerRuns.Op>)
    requires LedgerRuns.SafeRun(c, EMPTY_DISK, ops)
    requires |LedgerRuns.Stored(LedgerRuns.Run(c, EMPTY_DISK, ops).file)| <= LONG_MAX
    ensures var h := LedgerRuns.Run(c, EMPTY_DISK, ops).head;
      h.Head? ==> ReadHead(Some(HeadFileText(h.recs))) == h
  {
    hide HeadFileText, RecsFrom;
    var s := LedgerRuns.Run(c, EMPTY_DISK, ops);
    LedgerRuns.EmptySound(c);
    LedgerRuns.RunSound(c, EMPTY_DISK, ops);
    LedgerRuns.HeadHasRoom(c, LedgerRuns.Stored(s.file), s.head);
    if s.head.Head? {
      forall i | 0 <= i < |s.head.recs|
        ensures Fits(s.head.recs[i])
      {
        assert LedgerRuns.HeadRecOk(c, LedgerRuns.Stored(s.file), s.head.recs[i]);
      }
      HeadReadsBack(s.head.recs, HEAD_MAX_RECS);
    }
  }

  const EMPTY_DISK: Disk := LedgerRuns.EMPTY
}
