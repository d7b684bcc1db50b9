/**
 `fractal_audit_log`: the record it assembles around a validated payload, as text and as a document.
 */
module AuditRecord {
  import opened Wrappers
  import opened JsonSyntax
  import opened JsonEscapes
  import opened JsonScan
  import opened JsonValidator
  import opened Texts
  import JsonKeys
  import JsonRedactor
  import SeqFacts

  const TYPE_MAX: nat := 256
  const BLOCK_MAX: nat := 1024
  const PAYLOAD_MAX: nat := 67108864
  const RESERVED: string := "\"_actor\""

  /** Who the record is attributed to: the session id when one was given, and the named actor. */
  datatype Caller = Caller(session: Option<int>, actor: Option<string>)

  // ----- the text, as the format strings write it -----

  /** The attribution block. */
  function Block(c: Caller): string {
    "{\"session\":" + Decimal(if c.session.Some? then c.session.value else 0)
    + (",\"attested\":" + (if c.session.Some? then "true" else "false"))
    + (if c.actor.Some? then ",\"actor\":\"" + Escape(c.actor.value) + "\"" else "") + "}"
  }

  function Trim(s: string): string {
    TrimEnd(SkipWs(s))
  }

  predicate IsObject(v: string) {
    v != "" && v[0] == '{' && v[|v| - 1] == '}'
  }

  /** An object with nothing but white space in it. */
  predicate IsEmptyObject(v: string) {
    IsObject(v) && |v| >= 2 && Blank(v[1..|v| - 1])
  }

  /** "%.*s": a C string, so it ends at a NUL. */
  function Formatted(s: string): string {
    CString(s)
  }

  /** The value of the record's "entry" member and what closes the record. */
  function Entry(payload: string, block: string): string {
    var v := Trim(payload);
    if IsObject(v) && !IsEmptyObject(v) then Formatted(v[..|v| - 1]) + (",\"_actor\":" + block + "}}")
    else if IsObject(v) then "{\"_actor\":" + block + "}}"
    else "{\"value\":" + Formatted(v) + (",\"_actor\":" + block + "}}")
  }

  function Assemble(kind: string, payload: string, block: string): string {
    "{\"type\":\"" + Formatted(Escape(kind)) + ("\",\"entry\":" + Entry(payload, block))
  }

  predicate StandsAt(s: string, needle: string, i: int) {
    0 <= i && i + |needle| <= |s| && s[i..i + |needle|] == needle
  }

  ghost predicate Contains(s: string, needle: string) {
    exists i :: StandsAt(s, needle, i)
  }

  /** The answer of the session's destructive latch, and FRACTALSQL_AUDIT_REQUIRE_ACTOR. */
  datatype Gate = Gate(latched: bool, requireActor: bool)

  /** What the function checks before it writes anything. */
  ghost predicate Acceptable(kind: string, payload: string, c: Caller, g: Gate) {
    && (if c.session.Some? then !g.latched else !g.requireActor)
    && |kind| <= TYPE_MAX && |payload| <= PAYLOAD_MAX
    && InGrammar(payload) && !Contains(payload, RESERVED)
    && (c.actor.Some? ==> |c.actor.value| <= TYPE_MAX)
    && |Block(c)| < BLOCK_MAX
  }

  /** The buffer is sized before the text is formatted; it is always large enough. */
  lemma RecordFits(kind: string, payload: string, block: string)
    ensures |Assemble(kind, payload, block)| < |Escape(kind)| + |payload| + |block| + 64
  {
    FormattedShorter(Escape(kind));
    FormattedShorter(Trim(payload));
    if Trim(payload) != "" {
      FormattedShorter(Trim(payload)[..|Trim(payload)| - 1]);
    }
  }

  lemma {:induction false} FormattedShorter(s: string)
    ensures |Formatted(s)| <= |s|
    decreases |s|
  {
    if s != "" && s[0] != '\0' {
      FormattedShorter(s[1..]);
    }
  }

  lemma FormattedWhole(s: string)
    requires NoNul(s)
    ensures Formatted(s) == s
  {
    CStringWhole(s);
  }

  lemma {:induction false} EscapeHasNoNul(s: string)
    ensures NoNul(Escape(s))
    decreases |s|
  {
    if s != "" {
      EscapeHasNoNul(s[1..]);
      assert NoNul(EscapeChar(s[0])) by {
        if |EscapeChar(s[0])| == 6 {
          HexIsPlain(s[0] as int / 4096);
          HexIsPlain(s[0] as int / 256 % 16);
          HexIsPlain(s[0] as int / 16 % 16);
          HexIsPlain(s[0] as int % 16);
        }
      }
    }
  }

  // ----- the loops -----

  /** `ent_memmem`. */
  method Memmem(s: string, needle: string) returns (found: bool)
    requires needle != ""
    ensures found <==> Contains(s, needle)
  {
    var i := 0;
    while i + |needle| <= |s|
      invariant forall j :: j < i ==> !StandsAt(s, needle, j)
    {
      assert s[i..i + |needle|][0] == s[i];
      if s[i] == needle[0] && s[i..i + |needle|] == needle {
        assert StandsAt(s, needle, i);
        return true;
      }
      i := i + 1;
    }
    return false;
  }

  lemma TrimEndStep(s: string)
    requires s != "" && IsWs(s[|s| - 1])
    ensures TrimEnd(s) == TrimEnd(s[..|s| - 1])
  {
  }

  /** The two loops that find the payload's first and last character that is not white space. */
  method TrimAt(s: string) returns (pb: nat, pe: nat)
    ensures pb <= pe <= |s| && s[pb..pe] == Trim(s)
  {
    assert s[0..] == s;
    pb := SkipWsAt(s, 0);
    pe := |s|;
    assert s[pb..pe] == s[pb..];
    while pe > pb && IsWs(s[pe - 1])
      invariant pb <= pe <= |s| && TrimEnd(s[pb..pe]) == Trim(s)
    {
      TrimEndStep(s[pb..pe]);
      assert s[pb..pe][..pe - pb - 1] == s[pb..pe - 1];
      pe := pe - 1;
    }
  }

  method IsBlankBetween(s: string, from: nat, upto: nat) returns (blank: bool)
    requires from <= upto <= |s|
    ensures blank == Blank(s[from..upto])
  {
    var q := from;
    while q < upto && IsWs(s[q])
      invariant from <= q <= upto && forall j :: from <= j < q ==> IsWs(s[j])
    {
      q := q + 1;
    }
    blank := q == upto;
    assert !blank ==> s[from..upto][q - from] == s[q];
  }

  /** The splice: the entry's value text, and what closes the record. */
  method Splice(payload: string, block: string) returns (entry: string)
    ensures entry == Entry(payload, block)
  {
    hide Blank, Formatted, Trim;
    var pb, pe := TrimAt(payload);
    ghost var v := Trim(payload);
    var isObj := pb < pe && payload[pb] == '{' && payload[pe - 1] == '}';
    var empty := false;
    if isObj {
      JsonRedactor.Inside(payload, pb, pe);
      empty := IsBlankBetween(payload, pb + 1, pe - 1);
    }
    if isObj && !empty {
      assert payload[pb..pe - 1] == v[..|v| - 1];
      entry := Formatted(payload[pb..pe - 1]) + (",\"_actor\":" + block + "}}");
    } else if isObj {
      entry := "{\"_actor\":" + block + "}}";
    } else {
      entry := "{\"value\":" + Formatted(payload[pb..pe]) + (",\"_actor\":" + block + "}}");
    }
  }

  /** The checks of `fractal_audit_log` and the record it hands to the ledger; None is its error return. */
  method AuditLog(kind: string, payload: string, c: Caller, g: Gate) returns (record: Option<string>)
    ensures record.Some? <==> Acceptable(kind, payload, c, g)
    ensures record.Some? ==> record.value == Assemble(kind, payload, Block(c))
  {
    hide InGrammar, Contains, Escape, Entry, Block, Formatted;
    if c.session.Some? && g.latched { return None; }
    if c.session.None? && g.requireActor { return None; }
    if |kind| > TYPE_MAX { return None; }
    if |payload| > PAYLOAD_MAX { return None; }
    var good := WellFormed(payload);
    if !good { return None; }
    var reserved := Memmem(payload, RESERVED);
    if reserved { return None; }
    if c.actor.Some? && |c.actor.value| > TYPE_MAX { return None; }
    var block := Block(c);
    if |block| >= BLOCK_MAX { return None; }
    var entry := Splice(payload, block);
    record := Some("{\"type\":\"" + Formatted(Escape(kind)) + ("\",\"entry\":" + entry));
  }
}
