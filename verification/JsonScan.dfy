/**
 Walks over JSON text that several readers of the source share: past white space, and over a string
 with nothing looked at but its backslashes. As functions on what is left of the text, as loops on a
 position in it, and on text that was printed from a document.
 */
module JsonScan {
  import opened Wrappers
  import opened JsonSyntax
  import SeqFacts

  function SkipWs(t: string): (r: string)
    ensures |r| <= |t| && (r != "" ==> !IsWs(r[0]))
    decreases |t|
  {
    if t != "" && IsWs(t[0]) then SkipWs(t[1..]) else t
  }

  /** Without the white space at the end. */
  function TrimEnd(s: string): (r: string)
    ensures r != "" ==> !IsWs(r[|r| - 1])
    ensures |r| <= |s| && r == s[..|r|]
    decreases |s|
  {
    if s != "" && IsWs(s[|s| - 1]) then TrimEnd(s[..|s| - 1]) else s
  }

  /** String content up to its closing quote and what follows; only backslashes are looked at. */
  function Content(t: string): (r: Option<(string, string)>)
    ensures r.Some? ==> |r.value.0| + 1 + |r.value.1| == |t|
    decreases |t|
  {
    if t == "" then None
    else if t[0] == '"' then Some(("", t[1..]))
    else
      var k := if t[0] == '\\' then 2 else 1;
      if |t| < k then None
      else
        match Content(t[k..])
        case None => None
        case Some((raw, rest)) => Some((t[..k] + raw, rest))
  }

  function StringSpan(t: string): (r: Option<(string, string)>)
    ensures r.Some? ==> |r.value.1| + 2 <= |t|
  {
    if t == "" || t[0] != '"' then None else Content(t[1..])
  }

  method SkipWsAt(s: string, p: nat) returns (j: nat)
    requires p <= |s|
    ensures p <= j <= |s| && s[j..] == SkipWs(s[p..])
    ensures j < |s| ==> !IsWs(s[j])
  {
    j := p;
    while j < |s| && IsWs(s[j])
      invariant p <= j <= |s| && SkipWs(s[j..]) == SkipWs(s[p..])
    {
      assert s[j..][1..] == s[j + 1..];
      j := j + 1;
    }
    assert s[j..] == "" || s[j..][0] == s[j];
  }

  function Rest(r: Option<(string, string)>): Option<string> {
    match r
    case None => None
    case Some((_, rest)) => Some(rest)
  }

  lemma ContentAt(t: string, k: nat)
    requires t != "" && t[0] != '"' && k == if t[0] == '\\' then 2 else 1
    ensures Rest(Content(t)) == if |t| < k then None else Rest(Content(t[k..]))
  {
  }

  lemma {:induction false} ContentIsPrefix(t: string)
    requires Content(t).Some?
    ensures t == Content(t).value.0 + (['"'] + Content(t).value.1)
    decreases |t|
  {
    if t[0] == '"' {
      SeqFacts.HeadTail(t);
    } else {
      var k := if t[0] == '\\' then 2 else 1;
      ContentIsPrefix(t[k..]);
      SeqFacts.Join(t, k);
      SeqFacts.Assoc(t[..k], Content(t[k..]).value.0, ['"'] + Content(t[k..]).value.1);
    }
  }

  lemma ContentQuote(t: string)
    ensures t != "" && t[0] == '"' ==> Rest(Content(t)) == Some(t[1..])
    ensures t == "" ==> Content(t).None?
  {
  }

  lemma ContentSlice(s: string, a: nat, i: nat)
    requires a <= i < |s| && Rest(Content(s[a..])) == Some(s[i + 1..])
    ensures Content(s[a..]) == Some((s[a..i], s[i + 1..]))
  {
    var t := s[a..];
    var raw, rest := Content(t).value.0, Content(t).value.1;
    ContentIsPrefix(t);
    SeqFacts.Skip(raw, ['"'] + rest);
    assert raw == t[..i - a] == s[a..i];
  }

  /** `fsql_json_string_span`: how long the content is and where the text goes on. */
  method StringSpanAt(s: string, p: nat) returns (ok: bool, len: nat, end: nat)
    requires p <= |s|
    ensures ok == StringSpan(s[p..]).Some?
    ensures ok ==> p + 1 + len + 1 == end <= |s| && StringSpan(s[p..]) == Some((s[p + 1..p + 1 + len], s[end..]))
  {
    hide Content;
    ok, len, end := false, 0, p;
    if p == |s| || s[p] != '"' { return; }
    var i := p + 1;
    assert s[p..][1..] == s[i..];
    while i < |s|
      invariant p + 1 <= i <= |s| && Rest(Content(s[i..])) == Rest(Content(s[p + 1..]))
    {
      ghost var u := s[i..];
      ContentQuote(u);
      if s[i] == '"' {
        assert u[1..] == s[i + 1..];
        ContentSlice(s, p + 1, i);
        return true, i - (p + 1), i + 1;
      }
      var k := if s[i] == '\\' then 2 else 1;
      ContentAt(u, k);
      if i + k > |s| { return; }
      assert u[k..] == s[i + k..];
      i := i + k;
    }
    ContentQuote(s[i..]);
  }

  // ----- on printed text -----

  lemma {:induction false} SkipBlank(ws: string, t: string)
    requires Blank(ws)
    ensures SkipWs(ws + t) == SkipWs(t)
  {
    if ws == "" {
      assert ws + t == t;
    } else {
      SeqFacts.Uncons(ws, t);
      SkipBlank(ws[1..], t);
    }
  }

  lemma {:induction false} ContentPrinted(raw: string, rest: string)
    requires RawOk(raw)
    ensures Content(raw + (['"'] + rest)) == Some((raw, rest))
  {
    var t := raw + (['"'] + rest);
    if raw == "" {
      assert t == ['"'] + rest;
    } else {
      var k := if raw[0] == '\\' then 2 else 1;
      ContentPrinted(raw[k..], rest);
      SeqFacts.Join(raw, k);
      SeqFacts.Assoc(raw[..k], raw[k..], ['"'] + rest);
      SeqFacts.Skip(raw[..k], raw[k..] + (['"'] + rest));
      assert t[0] == raw[0];
    }
  }

  lemma StringPrinted(raw: string, rest: string)
    requires RawOk(raw)
    ensures StringSpan(Print(Str(raw)) + rest) == Some((raw, rest))
  {
    SeqFacts.Assoc4(['"'], raw, ['"'], rest);
    SeqFacts.Uncons(['"'], raw + (['"'] + rest));
    assert [] + (raw + (['"'] + rest)) == raw + (['"'] + rest);
    ContentPrinted(raw, rest);
  }

  predicate Unmarked(s: string) {
    forall i :: 0 <= i < |s| ==> s[i] !in {'"', '{', '}', '[', ']'}
  }

  predicate IsNumberChar(c: char) {
    IsDigit(c) || c == '+' || c == '-' || c == '.' || c == 'e' || c == 'E'
  }

  predicate IsContainer(t: string) {
    t != "" && (t[0] == '{' || t[0] == '[')
  }

  predicate NumberText(s: string) {
    forall i :: 0 <= i < |s| ==> IsNumberChar(s[i])
  }

  lemma NumberIsNumberText(n: Number)
    requires NumberOk(n)
    ensures NumberText(PrintNumber(n)) && Unmarked(PrintNumber(n))
  {
    assert NumberText(PrintExp(n.exp));
    assert NumberText(PrintFrac(n.frac));
    assert NumberText(PrintFracExp(n.frac, n.exp));
  }

  /** How a printed value begins. */
  lemma PrintHead(v: Value)
    requires Loose(v)
    ensures Print(v) != "" && !IsWs(Print(v)[0]) && Print(v)[0] !in {'}', ']', ',', ':'}
    ensures IsContainer(Print(v)) <==> v.Empty? || v.Box?
    ensures v.Empty? || v.Box? ==> Print(v)[0] == OpenOf(v.curly)
    ensures Print(v)[0] == '"' <==> v.Str?
    ensures v.Word? ==> Print(v)[0] in {'t', 'f', 'n'}
    ensures v.Num? ==> Print(v)[0] == '-' || IsDigit(Print(v)[0])
  {
    match v
    case Num(n) =>
      NumberHead(n, "");
      assert PrintNumber(n) + "" == PrintNumber(n);
    case _ =>
  }
}
