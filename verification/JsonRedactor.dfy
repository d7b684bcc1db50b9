/**
 The audit redactor of src/fsql_audit_redact.h. The functions say what its pointer walks compute on
 the rest of the text; the theorem says that on a JSON document the walk is a rewriting of the tree.
 */
module JsonRedactor {
  import opened ByteStrings
  import opened Wrappers
  import opened JsonSyntax
  import opened JsonEscapes
  import opened JsonScan
  import Sha256
  import SeqFacts
  import Texts

  // ----- the redacted form of one text -----

  datatype Mode = Keep | Hash | Truncate

  /** The configured mode, and the digest of the hash mode. */
  datatype Policy = Policy(mode: Mode, digest: Bytes -> Sha256.Digest32)

  const REDACT_MAX: nat := 128
  const TRUNCATE_CHARS: nat := 64

  /** printf's "%02x" over a byte string. */
  function HexBytes(b: Bytes): (s: string)
    ensures |s| == 2 * |b|
    decreases |b|
  {
    if b == [] then "" else [HexDigit(b[0] / 16), HexDigit(b[0] % 16)] + HexBytes(b[1..])
  }

  /** `fsql_audit_redact_bytes` before its length check. */
  function Fingerprint(p: Policy, text: string): string {
    match p.mode
    case Keep => text
    case Truncate => if |text| > TRUNCATE_CHARS then text[..TRUNCATE_CHARS] else text
    case Hash => "sha256:" + HexBytes(p.digest(Texts.Octets(text))) + (" len=" + Texts.DecimalNat(|text|))
  }

  /** A fingerprint that does not fit its buffer leaves the text as it is. */
  function Substitute(p: Policy, text: string): string {
    if |Fingerprint(p, text)| < REDACT_MAX then Fingerprint(p, text) else text
  }

  /** The buffer is large enough for every text that memory can hold, so nothing slips through. */
  lemma FingerprintFits(p: Policy, text: string)
    requires p.mode != Keep && |text| < TWO64
    ensures Substitute(p, text) == Fingerprint(p, text)
  {
    if p.mode == Hash {
      Texts.WordLength(|text|);
    }
  }

  // ----- the pointer walks, on what is left of the text -----

  /** What follows the bracket that brings the depth back to zero; brackets of the other kind are not counted. */
  function Balance(t: string, curly: bool, depth: int): (r: Option<string>)
    ensures r.Some? ==> |r.value| < |t|
    decreases |t|
  {
    if t == "" then None
    else if t[0] == '"' then
      match StringSpan(t)
      case None => None
      case Some((_, rest)) => Balance(rest, curly, depth)
    else if t[0] == OpenOf(curly) then Balance(t[1..], curly, depth + 1)
    else if t[0] == CloseOf(curly) then
      if depth == 1 then Some(t[1..]) else Balance(t[1..], curly, depth - 1)
    else Balance(t[1..], curly, depth)
  }

  function NumberChars(t: string): (n: nat)
    ensures n <= |t|
    decreases |t|
  {
    if t != "" && IsNumberChar(t[0]) then 1 + NumberChars(t[1..]) else 0
  }

  /** The raw value at the head of t, and what follows it. */
  function ValueSpan(t: string): (r: Option<(string, string)>)
    requires t == "" || !IsWs(t[0])
    ensures r.Some? ==> |r.value.0| > 0 && |r.value.0| + |r.value.1| == |t| && r.value.0[0] == t[0]
  {
    if t == "" then None
    else if t[0] == '"' then
      match StringSpan(t)
      case None => None
      case Some((_, rest)) => Some((t[..|t| - |rest|], rest))
    else if t[0] == '{' || t[0] == '[' then
      match Balance(t, t[0] == '{', 0)
      case None => None
      case Some(rest) => Some((t[..|t| - |rest|], rest))
    else if "true" <= t || "null" <= t then Some((t[..4], t[4..]))
    else if "false" <= t then Some((t[..5], t[5..]))
    else if t[0] == '-' || IsDigit(t[0]) then
      var n := NumberChars(t);
      Some((t[..n], t[n..]))
    else None
  }

  const SENSITIVE: set<string> := {
    "question", "questions", "generated_sql", "sql", "analysis", "reason", "rationale", "explanation", "answer",
    "result", "results", "result_json", "rows", "row", "value", "text", "note", "notes", "summary", "content",
    "prompt", "context", "objective", "payload", "data"}

  function Decoded(raw: string): string {
    match Unescape(raw)
    case Some(d) => Texts.CString(d)
    case None => raw
  }

  function Quoted(s: string): string {
    ['"'] + Escape(s) + ['"']
  }

  /** What is written for the value text v, standing at the head of `at`, under a sensitive key. */
  function Hidden(v: string, p: Policy): string
    requires v != "" && (v[0] == '"' ==> |v| >= 2)
  {
    if v[0] == '"' then Quoted(Substitute(p, Decoded(v[1..|v| - 1])))
    else if IsContainer(v) then Quoted(Substitute(p, v))
    else v
  }

  /** `fsql_json_redact_container`; `at` starts with the opening bracket. */
  function WalkContainer(at: string, p: Policy): Option<string>
    requires IsContainer(at)
    decreases |at|, 1
  {
    var curly := at[0] == '{';
    var t := SkipWs(at[1..]);
    if t != "" && t[0] == CloseOf(curly) then Some([OpenOf(curly), CloseOf(curly)])
    else
      match WalkItems(t, curly, p)
      case None => None
      case Some(out) => Some([OpenOf(curly)] + out)
  }

  /** The items from t on, through the closing bracket. */
  function WalkItems(t: string, curly: bool, p: Policy): Option<string>
    decreases |t|, 3
  {
    var u := SkipWs(t);
    if curly then
      match StringSpan(u)
      case None => None
      case Some((key, after)) =>
        var c := SkipWs(after);
        if c == "" || c[0] != ':' then None
        else
          var w := SkipWs(c[1..]);
          var out := if key in SENSITIVE then WalkHidden(w, p) else WalkPlain(w, p);
          if out.None? then None
          else
            match WalkRest(ValueSpan(w).value.1, curly, p)
            case None => None
            case Some(more) => Some(['"'] + key + ['"'] + [':'] + out.value + more)
    else
      match WalkPlain(u, p)
      case None => None
      case Some(out) =>
        match WalkRest(ValueSpan(u).value.1, curly, p)
        case None => None
        case Some(more) => Some(out + more)
  }

  function WalkHidden(w: string, p: Policy): (out: Option<string>)
    requires w == "" || !IsWs(w[0])
    ensures out.Some? ==> ValueSpan(w).Some?
  {
    match ValueSpan(w)
    case None => None
    case Some((v, _)) => Some(Hidden(v, p))
  }

  function WalkPlain(w: string, p: Policy): (out: Option<string>)
    requires w == "" || !IsWs(w[0])
    ensures out.Some? ==> ValueSpan(w).Some?
    decreases |w|, 2
  {
    match ValueSpan(w)
    case None => None
    case Some((v, _)) => if IsContainer(w) then WalkContainer(w, p) else Some(v)
  }

  /** After an item: a comma and more items, or the closing bracket. */
  function WalkRest(t: string, curly: bool, p: Policy): Option<string>
    decreases |t|, 0
  {
    var u := SkipWs(t);
    if u == "" then None
    else if u[0] == ',' then
      match WalkItems(u[1..], curly, p)
      case None => None
      case Some(more) => Some([','] + more)
    else if u[0] == CloseOf(curly) then Some([CloseOf(curly)])
    else None
  }

  /** `fsql_json_redact_value`: what follows the value is not looked at. */
  function WalkValue(t: string, p: Policy): Option<string> {
    var u := SkipWs(t);
    if IsContainer(u) then WalkContainer(u, p)
    else
      match ValueSpan(u)
      case None => None
      case Some((v, _)) => Some(v)
  }

  // ----- single steps of the walk -----

  /** `WalkItems` on an object, with every piece of the text named. */
  lemma MemberStep(t: string, key: string, after: string, c: string, w: string, p: Policy)
    requires StringSpan(SkipWs(t)) == Some((key, after)) && SkipWs(after) == c
    requires c != "" && c[0] == ':' && SkipWs(c[1..]) == w && ValueSpan(w).Some?
    ensures var out := if key in SENSITIVE then WalkHidden(w, p) else WalkPlain(w, p);
      var more := WalkRest(ValueSpan(w).value.1, true, p);
      WalkItems(t, true, p)
      == if out.None? || more.None? then None else Some(['"'] + key + ['"'] + [':'] + out.value + more.value)
  {
  }

  lemma ElementStep(t: string, u: string, p: Policy)
    requires SkipWs(t) == u && ValueSpan(u).Some?
    ensures var out := WalkPlain(u, p);
      var more := WalkRest(ValueSpan(u).value.1, false, p);
      WalkItems(t, false, p) == if out.None? || more.None? then None else Some(out.value + more.value)
  {
  }

  lemma NoKey(t: string, p: Policy)
    requires match StringSpan(SkipWs(t))
      case None => true
      case Some((_, after)) =>
        var c := SkipWs(after);
        c == "" || c[0] != ':' || ValueSpan(SkipWs(c[1..])).None?
    ensures WalkItems(t, true, p).None?
  {
  }

  lemma NoElement(t: string, p: Policy)
    requires ValueSpan(SkipWs(t)).None?
    ensures WalkItems(t, false, p).None?
  {
  }

  // ----- the loops, on a text and a position in it -----

  /** The growing output buffer. */
  class AuditBuf {
    var text: string

    constructor ()
      ensures text == ""
    {
      text := "";
    }

    method Put(s: string)
      modifies this
      ensures text == old(text) + s
    {
      text := text + s;
    }
  }

  lemma BalanceStep(t: string, curly: bool, depth: int)
    requires t != "" && t[0] != '"'
    ensures Balance(t, curly, depth)
         == if t[0] == CloseOf(curly) && depth == 1 then Some(t[1..])
            else Balance(t[1..], curly, if t[0] == OpenOf(curly) then depth + 1 else if t[0] == CloseOf(curly) then depth - 1 else depth)
  {
  }

  lemma BalanceQuote(t: string, curly: bool, depth: int)
    requires t != "" && t[0] == '"'
    ensures Balance(t, curly, depth)
         == if StringSpan(t).None? then None else Balance(StringSpan(t).value.1, curly, depth)
  {
  }

  /** The container scan of `fsql_json_value_span`. */
  method BalanceAt(s: string, p: nat) returns (ok: bool, end: nat)
    requires p < |s| && IsContainer(s[p..])
    ensures ok == Balance(s[p..], s[p] == '{', 0).Some?
    ensures ok ==> p < end <= |s| && Balance(s[p..], s[p] == '{', 0) == Some(s[end..])
  {
    hide Balance, StringSpan;
    var curly := s[p] == '{';
    var open, close := OpenOf(curly), CloseOf(curly);
    var depth := 0;
    var i := p;
    while i < |s|
      invariant p <= i <= |s| && Balance(s[p..], curly, 0) == Balance(s[i..], curly, depth)
    {
      ghost var u := s[i..];
      if s[i] == '"' {
        BalanceQuote(u, curly, depth);
        var fine, _, past := StringSpanAt(s, i);
        if !fine { return false, p; }
        i := past;
        continue;
      }
      BalanceStep(u, curly, depth);
      assert u[1..] == s[i + 1..];
      if s[i] == open {
        depth := depth + 1;
      } else if s[i] == close {
        depth := depth - 1;
        if depth == 0 { return true, i + 1; }
      }
      i := i + 1;
    }
    BalanceEmpty(s[i..], curly, depth);
    return false, p;
  }

  lemma BalanceEmpty(t: string, curly: bool, depth: int)
    requires t == ""
    ensures Balance(t, curly, depth).None?
  {
  }

  method NumberCharsAt(s: string, p: nat) returns (q: nat)
    requires p <= |s|
    ensures p <= q <= |s| && q - p == NumberChars(s[p..])
  {
    q := p;
    while q < |s| && IsNumberChar(s[q])
      invariant p <= q <= |s| && q - p + NumberChars(s[q..]) == NumberChars(s[p..])
    {
      assert s[q..][1..] == s[q + 1..];
      q := q + 1;
    }
  }

  lemma PrefixAt(s: string, p: nat, lit: string)
    requires p <= |s|
    ensures lit <= s[p..] <==> p + |lit| <= |s| && s[p..p + |lit|] == lit
  {
    if p + |lit| <= |s| {
      assert s[p..][..|lit|] == s[p..p + |lit|];
    }
  }

  /** A span given by its two ends. */
  lemma SpanEnds(s: string, p: nat, end: nat)
    requires p <= end <= |s|
    ensures s[p..][..|s[p..]| - |s[end..]|] == s[p..end] && s[p..][..end - p] == s[p..end] && s[p..][end - p..] == s[end..]
  {
  }

  /** `fsql_json_value_span` from the first character of the value. */
  method ValueSpanAt(s: string, p: nat) returns (ok: bool, end: nat)
    requires p <= |s| && (p < |s| ==> !IsWs(s[p]))
    ensures ok == ValueSpan(s[p..]).Some?
    ensures ok ==> p < end <= |s| && ValueSpan(s[p..]) == Some((s[p..end], s[end..]))
  {
    hide Balance, StringSpan, NumberChars;
    ghost var t := s[p..];
    ok, end := false, p;
    if p == |s| { return; }
    assert t[0] == s[p];
    if s[p] == '"' {
      var len;
      ok, len, end := StringSpanAt(s, p);
    } else if s[p] == '{' || s[p] == '[' {
      ok, end := BalanceAt(s, p);
    } else {
      PrefixAt(s, p, "true");
      PrefixAt(s, p, "null");
      PrefixAt(s, p, "false");
      if p + 4 <= |s| && (s[p..p + 4] == "true" || s[p..p + 4] == "null") {
        ok, end := true, p + 4;
      } else if p + 5 <= |s| && s[p..p + 5] == "false" {
        ok, end := true, p + 5;
      } else if s[p] == '-' || IsDigit(s[p]) {
        end := NumberCharsAt(s, p);
        ok := true;
        NumberStarts(t);
      }
    }
    if ok { SpanEnds(s, p, end); }
  }

  lemma NumberStarts(t: string)
    requires t != "" && (t[0] == '-' || IsDigit(t[0]))
    ensures NumberChars(t) > 0
  {
  }

  /** `fsql_json_emit_redacted`. */
  method EmitRedacted(out: AuditBuf, text: string, isString: bool, policy: Policy)
    modifies out
    ensures out.text == old(out.text) + Quoted(Substitute(policy, if isString then Decoded(text) else text))
  {
    var t := text;
    if isString {
      t := Decoded(text);
    }
    var red := Fingerprint(policy, t);
    if |red| < REDACT_MAX {
      out.Put(Quoted(red));
    } else {
      out.Put(Quoted(t));
    }
  }

  /** A value under a sensitive key. */
  method EmitHidden(s: string, p: nat, end: nat, out: AuditBuf, policy: Policy)
    requires p < end <= |s| && !IsWs(s[p]) && ValueSpan(s[p..]) == Some((s[p..end], s[end..]))
    modifies out
    ensures WalkHidden(s[p..], policy).Some? && out.text == old(out.text) + WalkHidden(s[p..], policy).value
  {
    hide ValueSpan;
    ghost var v := s[p..end];
    if s[p] == '"' {
      StringIsLong(s[p..]);
      assert s[p..][0] == s[p];
      Inside(s, p, end);
      EmitRedacted(out, s[p + 1..end - 1], true, policy);
    } else if s[p] == '{' || s[p] == '[' {
      EmitRedacted(out, s[p..end], false, policy);
    } else {
      out.Put(s[p..end]);
    }
  }

  lemma Inside(s: string, p: nat, end: nat)
    requires p + 2 <= end <= |s|
    ensures var v := s[p..end]; |v| >= 2 && v[1..|v| - 1] == s[p + 1..end - 1]
  {
    var v := s[p..end];
    assert |v| == end - p;
    var a, b := v[1..|v| - 1], s[p + 1..end - 1];
    assert |a| == |b| && forall i :: 0 <= i < |a| ==> a[i] == b[i];
  }

  lemma StringIsLong(t: string)
    requires t != "" && t[0] == '"' && ValueSpan(t).Some?
    ensures |ValueSpan(t).value.0| >= 2
  {
  }

  /** `fsql_json_redact_container`. */
  method RedactContainer(s: string, at: nat, out: AuditBuf, policy: Policy) returns (ok: bool)
    requires at < |s| && IsContainer(s[at..])
    modifies out
    ensures ok == WalkContainer(s[at..], policy).Some?
    ensures ok ==> out.text == old(out.text) + WalkContainer(s[at..], policy).value
    decreases |s| - at, 0
  {
    hide WalkItems, WalkPlain, WalkRest, WalkHidden, ValueSpan, StringSpan, SkipWs, SENSITIVE;
    var curly := s[at] == '{';
    ghost var before := out.text;
    out.Put([OpenOf(curly)]);
    assert s[at..][1..] == s[at + 1..];
    var p := SkipWsAt(s, at + 1);
    ghost var first := s[p..];
    if p < |s| && s[p] == CloseOf(curly) {
      out.Put([CloseOf(curly)]);
      assert before + [OpenOf(curly)] + [CloseOf(curly)] == before + [OpenOf(curly), CloseOf(curly)];
      return true;
    }
    ok := RedactItems(s, p, curly, out, policy);
    if ok {
      SeqFacts.Assoc(before, [OpenOf(curly)], WalkItems(first, curly, policy).value);
    }
  }

  lemma RestStep(t: string, curly: bool, p: Policy)
    ensures var u := SkipWs(t);
      WalkRest(t, curly, p)
      == if u == "" then None
         else if u[0] == ',' then
           (if WalkItems(u[1..], curly, p).None? then None else Some([','] + WalkItems(u[1..], curly, p).value))
         else if u[0] == CloseOf(curly) then Some([CloseOf(curly)])
         else None
  {
  }

  lemma PlainStep(w: string, p: Policy)
    requires (w == "" || !IsWs(w[0])) && ValueSpan(w).Some?
    ensures WalkPlain(w, p) == if IsContainer(w) then WalkContainer(w, p) else Some(ValueSpan(w).value.0)
  {
  }

  /** A value that no sensitive key stands over. */
  method RedactPlain(s: string, p: nat, end: nat, out: AuditBuf, policy: Policy) returns (ok: bool)
    requires p < end <= |s| && !IsWs(s[p]) && ValueSpan(s[p..]) == Some((s[p..end], s[end..]))
    modifies out
    ensures ok == WalkPlain(s[p..], policy).Some?
    ensures ok ==> out.text == old(out.text) + WalkPlain(s[p..], policy).value
    decreases |s| - p, 1
  {
    hide ValueSpan, WalkContainer, WalkPlain;
    ghost var w := s[p..];
    assert w[0] == s[p];
    PlainStep(w, policy);
    if s[p] == '{' || s[p] == '[' {
      ok := RedactContainer(s, p, out, policy);
    } else {
      out.Put(s[p..end]);
      ok := true;
    }
  }

  /** The list of `fsql_json_key_is_sensitive`. */
  const SENSITIVE_KEYS: seq<string> := [
    "question", "questions", "generated_sql", "sql", "analysis",
    "reason", "rationale", "explanation", "answer", "result",
    "results", "result_json", "rows", "row", "value", "text",
    "note", "notes", "summary", "content", "prompt", "context",
    "objective", "payload", "data"]

  lemma SensitiveKeys(key: string)
    ensures key in SENSITIVE_KEYS <==> key in SENSITIVE
  {
    assert |SENSITIVE_KEYS| == 25;
  }

  /** `fsql_json_key_is_sensitive`. */
  method KeyIsSensitive(key: string) returns (sensitive: bool)
    ensures sensitive == (key in SENSITIVE)
  {
    SensitiveKeys(key);
    hide SENSITIVE, SENSITIVE_KEYS;
    var i := 0;
    while i < |SENSITIVE_KEYS|
      invariant i <= |SENSITIVE_KEYS| && key !in SENSITIVE_KEYS[..i]
    {
      if SENSITIVE_KEYS[i] == key { return true; }
      i := i + 1;
    }
    assert SENSITIVE_KEYS[..i] == SENSITIVE_KEYS;
    return false;
  }

  /** One object member: its key is copied, its value hidden or walked. */
  method RedactMember(s: string, from: nat, out: AuditBuf, policy: Policy) returns (ok: bool, end: nat, ghost piece: string)
    requires from <= |s|
    modifies out
    ensures ok ==> from < end <= |s| && out.text == old(out.text) + piece
    ensures WalkItems(s[from..], true, policy)
         == if !ok || WalkRest(s[end..], true, policy).None? then None
            else Some(piece + WalkRest(s[end..], true, policy).value)
    decreases |s| - from, 2
  {
    hide WalkItems, WalkPlain, WalkRest, WalkHidden, ValueSpan, StringSpan, SkipWs, SENSITIVE;
    ghost var t, before := s[from..], out.text;
    end, piece := from, "";
    var p := SkipWsAt(s, from);
    var len, after;
    ok, len, after := StringSpanAt(s, p);
    if !ok { NoKey(t, policy); return; }
    var key := s[p + 1..p + 1 + len];
    out.Put(['"'] + key + ['"']);
    var c := SkipWsAt(s, after);
    assert c < |s| ==> s[c..][0] == s[c] && s[c..][1..] == s[c + 1..];
    if c == |s| || s[c] != ':' { NoKey(t, policy); return false, from, ""; }
    out.Put([':']);
    var v := SkipWsAt(s, c + 1);
    ok, end := ValueSpanAt(s, v);
    if !ok { NoKey(t, policy); return; }
    MemberStep(t, key, s[after..], s[c..], s[v..], policy);
    ghost var head := ['"'] + key + ['"'] + [':'];
    SeqFacts.Assoc(before, ['"'] + key + ['"'], [':']);
    var sensitive := KeyIsSensitive(key);
    if sensitive {
      EmitHidden(s, v, end, out, policy);
      piece := head + WalkHidden(s[v..], policy).value;
      SeqFacts.Assoc(before, head, WalkHidden(s[v..], policy).value);
    } else {
      ok := RedactPlain(s, v, end, out, policy);
      if ok {
        piece := head + WalkPlain(s[v..], policy).value;
        SeqFacts.Assoc(before, head, WalkPlain(s[v..], policy).value);
      }
    }
  }

  /** One array element. */
  method RedactElement(s: string, from: nat, out: AuditBuf, policy: Policy) returns (ok: bool, end: nat, ghost piece: string)
    requires from <= |s|
    modifies out
    ensures ok ==> from < end <= |s| && out.text == old(out.text) + piece
    ensures WalkItems(s[from..], false, policy)
         == if !ok || WalkRest(s[end..], false, policy).None? then None
            else Some(piece + WalkRest(s[end..], false, policy).value)
    decreases |s| - from, 2
  {
    hide WalkItems, WalkPlain, WalkRest, ValueSpan, SkipWs;
    ghost var t := s[from..];
    end, piece := from, "";
    var v := SkipWsAt(s, from);
    ok, end := ValueSpanAt(s, v);
    if !ok { NoElement(t, policy); return; }
    ElementStep(t, s[v..], policy);
    ok := RedactPlain(s, v, end, out, policy);
    if ok { piece := WalkPlain(s[v..], policy).value; }
  }

  /** The items of a container from p on, and its closing bracket. */
  method RedactItems(s: string, from: nat, curly: bool, out: AuditBuf, policy: Policy) returns (ok: bool)
    requires from <= |s|
    modifies out
    ensures ok == WalkItems(s[from..], curly, policy).Some?
    ensures ok ==> out.text == old(out.text) + WalkItems(s[from..], curly, policy).value
    decreases |s| - from, 3
  {
    hide WalkItems, WalkPlain, WalkRest, WalkHidden, ValueSpan, StringSpan, SkipWs, SENSITIVE;
    ghost var goal := WalkItems(s[from..], curly, policy);
    ghost var done := "";
    ghost var before := out.text;
    var p := from;
    while true
      invariant from <= p <= |s| && out.text == before + done
      invariant goal.Some? == WalkItems(s[p..], curly, policy).Some?
      invariant goal.Some? ==> goal.value == done + WalkItems(s[p..], curly, policy).value
      decreases |s| - p
    {
      var q;
      ghost var piece;
      if curly {
        ok, q, piece := RedactMember(s, p, out, policy);
      } else {
        ok, q, piece := RedactElement(s, p, out, policy);
      }
      if !ok { return; }
      ghost var more := WalkRest(s[q..], curly, policy);
      p := SkipWsAt(s, q);
      RestStep(s[q..], curly, policy);
      if p < |s| && s[p] == ',' {
        out.Put([',']);
        p := p + 1;
        assert s[p - 1..][1..] == s[p..];
        SeqFacts.Assoc(before, done, piece);
        SeqFacts.Assoc(before, done + piece, [',']);
        ghost var rest := WalkItems(s[p..], curly, policy);
        if rest.Some? {
          SeqFacts.Assoc(piece, [','], rest.value);
          SeqFacts.Assoc4(done, piece, [','], rest.value);
        }
        done := done + piece + [','];
      } else if p < |s| && s[p] == CloseOf(curly) {
        SeqFacts.Assoc(before, done, piece);
        SeqFacts.Assoc(done, piece, [CloseOf(curly)]);
        SeqFacts.Assoc(before, done + piece, [CloseOf(curly)]);
        out.Put([CloseOf(curly)]);
        return true;
      } else {
        return false;
      }
    }
  }

  /** `fsql_audit_redact_json`: the redacted document, or nothing when the original is to be kept. */
  method RedactJson(json: string, policy: Policy) returns (result: Option<string>)
    ensures result == if policy.mode == Keep then None else WalkValue(json, policy)
  {
    hide WalkContainer, ValueSpan, SkipWs;
    if policy.mode == Keep { return None; }
    assert json[0..] == json;
    var out := new AuditBuf();
    var p := SkipWsAt(json, 0);
    assert p < |json| ==> json[p..][0] == json[p];
    if p < |json| && (json[p] == '{' || json[p] == '[') {
      var walked := RedactContainer(json, p, out, policy);
      if walked { assert "" + WalkContainer(json[p..], policy).value == WalkContainer(json[p..], policy).value; }
      return if walked then Some(out.text) else None;
    }
    var ok, end := ValueSpanAt(json, p);
    if !ok { return None; }
    out.Put(json[p..end]);
    assert "" + json[p..end] == json[p..end];
    return Some(out.text);
  }
}
