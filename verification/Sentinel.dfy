/**
 The partial-result document of src/fractalsql_cognition.c: a plugin's diagnostic, cut at a UTF-8
 boundary and marked when it is too long, as the one member of a JSON object.
 */
module Sentinel {
  import opened Wrappers
  import opened JsonSyntax
  import opened JsonEscapes
  import opened JsonBuild
  import SeqFacts

  const DETAIL_MAX: nat := 512
  const MARK: string := "...[truncated]"
  const KEY: string := "reasoning_step_failed"

  /** A byte inside a UTF-8 sequence. */
  predicate IsContinuation(c: char) {
    0x80 <= c as int < 0xC0
  }

  /** The last place up to n where a text can be cut. */
  function Boundary(s: string, n: nat): (k: nat)
    requires n < |s|
    ensures k <= n && (k > 0 ==> !IsContinuation(s[k])) && forall j :: k < j <= n ==> IsContinuation(s[j])
    decreases n
  {
    if n > 0 && IsContinuation(s[n]) then Boundary(s, n - 1) else n
  }

  function Detail(errbuf: string): string {
    if errbuf == "" then "(no detail)" else errbuf
  }

  /** How much of the diagnostic is kept. */
  function Kept(errbuf: string): (k: nat)
    ensures k <= |Detail(errbuf)|
  {
    if |Detail(errbuf)| > DETAIL_MAX then Boundary(Detail(errbuf), DETAIL_MAX) else |Detail(errbuf)|
  }

  /** What the client is shown of it. */
  function Shown(errbuf: string): string {
    Detail(errbuf)[..Kept(errbuf)] + if |Detail(errbuf)| > DETAIL_MAX then MARK else ""
  }

  function Document(errbuf: string): Value {
    Box(true, "", One(KEY, Str(Appended(Shown(errbuf)))))
  }

  /** The document is JSON, and its one member reads back as what is to be shown. */
  lemma DocumentReadsBack(errbuf: string)
    ensures Strict(Document(errbuf)) && Unescape(Appended(Shown(errbuf))) == Some(Shown(errbuf))
  {
    PlainIsRaw(KEY);
    AppendedReads(Shown(errbuf));
    hide *;
    OneIsStrict(KEY, Str(Appended(Shown(errbuf))));
    DocumentIsBox(errbuf);
  }

  lemma DocumentIsBox(errbuf: string)
    requires StrictMembers(One(KEY, Str(Appended(Shown(errbuf)))))
    ensures Strict(Document(errbuf))
  {
  }

  lemma {:induction false} AppendedJoin(a: string, b: string)
    ensures Appended(a + b) == Appended(a) + Appended(b)
    decreases |a|
  {
    if a == "" {
      assert a + b == b;
    } else {
      SeqFacts.Uncons(a, b);
      AppendedJoin(a[1..], b);
      SeqFacts.Assoc(AppendChar(a[0]), Appended(a[1..]), Appended(b));
    }
  }

  /** The text of the document, as it is put together. */
  lemma DocumentText(errbuf: string)
    ensures Print(Document(errbuf)) == "{\"reasoning_step_failed\":\"" + Appended(Shown(errbuf)) + "\"}"
  {
    var raw := Appended(Shown(errbuf));
    OneText(KEY, Str(raw));
    ObjectText(One(KEY, Str(raw)));
    assert Print(Str(raw)) == "\"" + raw + "\"";
    hide Shown, Appended, One, Print, PrintItems;
    TextPieces(raw);
  }

  lemma TextPieces(raw: string)
    ensures "{" + (Head(KEY) + ("\"" + raw + "\"")) + "}" == "{\"reasoning_step_failed\":\"" + raw + "\"}"
  {
    assert "{" + Head(KEY) + "\"" == "{\"reasoning_step_failed\":\"";
    assert "\"" + "}" == "\"}";
    SeqFacts.Assoc(Head(KEY), "\"" + raw, "\"");
    SeqFacts.Assoc(Head(KEY), "\"", raw);
    SeqFacts.Assoc("{", Head(KEY) + "\"" + raw, "\"");
    SeqFacts.Assoc("{", Head(KEY) + "\"", raw);
    SeqFacts.Assoc("{" + Head(KEY) + "\"" + raw, "\"", "}");
    SeqFacts.Assoc("{", Head(KEY), "\"");
  }

  /** How much of a text goes into a buffer: up to the first place that leaves no room for the longest escape. */
  predicate Taken(src: string, cap: nat, n: nat) {
    && n <= |src|
    && (forall i :: 0 <= i < n ==> |Appended(src[..i])| + 6 < cap)
    && (n < |src| ==> |Appended(src[..n])| + 6 >= cap)
  }

  /** With room for the worst case nothing is left out. */
  lemma WholeIsTaken(src: string, cap: nat, n: nat)
    requires 6 * |src| < cap && Taken(src, cap, n)
    ensures n == |src| && src[..n] == src
  {
    hide Appended;
    assert |Appended(src[..n])| <= 6 * n;
  }

  /** `json_escape_into` at position w0 of the buffer. */
  method EscapeInto(buf: array<char>, w0: nat, cap: nat, src: string) returns (w: nat, ghost n: nat)
    requires w0 + cap <= buf.Length && cap > 0
    modifies buf
    ensures Taken(src, cap, n)
    ensures w == w0 + |Appended(src[..n])| < w0 + cap && buf[w] == '\0'
    ensures buf[..w] == old(buf[..w0]) + Appended(src[..n])
  {
    hide Appended, AppendChar;
    w, n := w0, 0;
    var r := 0;
    AppendedNothing();
    assert buf[..w] + "" == buf[..w] && src[..0] == "";
    while r < |src| && w - w0 + 6 < cap
      invariant n == r <= |src| && w0 <= w < w0 + cap && w - w0 == |Appended(src[..r])|
      invariant buf[..w] == old(buf[..w0]) + Appended(src[..r])
      invariant forall i :: 0 <= i < r ==> |Appended(src[..i])| + 6 < cap
    {
      var piece := AppendChar(src[r]);
      AppendedNext(src, r);
      CopyTo(buf, w, piece);
      SeqFacts.Assoc(old(buf[..w0]), Appended(src[..r]), piece);
      w, r := w + |piece|, r + 1;
      n := r;
    }
    ghost var text := buf[..w];
    buf[w] := '\0';
    assert buf[..w] == text;
  }

  lemma AppendedNext(s: string, i: nat)
    requires i < |s|
    ensures Appended(s[..i + 1]) == Appended(s[..i]) + AppendChar(s[i])
  {
    assert s[..i + 1] == s[..i] + [s[i]];
    AppendedJoin(s[..i], [s[i]]);
    AppendedOne(s[i]);
  }

  lemma AppendedOne(c: char)
    ensures Appended([c]) == AppendChar(c)
  {
    AppendedNothing();
    assert [c][1..] == "";
  }

  lemma AppendedNothing()
    ensures Appended("") == ""
  {
  }

  /** `json_escape_into` with room for the worst case, as both of its calls have it. */
  method EscapeWhole(buf: array<char>, w0: nat, src: string) returns (w: nat)
    requires w0 + 6 * |src| + 2 < buf.Length
    modifies buf
    ensures w == w0 + |Appended(src)|
    ensures buf[..w] == old(buf[..w0]) + Appended(src)
  {
    hide Appended, Taken;
    var cap := buf.Length - w0 - 2;
    ghost var n;
    w, n := EscapeInto(buf, w0, cap, src);
    WholeIsTaken(src, cap, n);
  }

  /** Where the diagnostic is cut: not inside a UTF-8 sequence. */
  method CutLength(detail: string) returns (len: nat)
    ensures len == if |detail| > DETAIL_MAX then Boundary(detail, DETAIL_MAX) else |detail|
  {
    len := |detail|;
    if len > DETAIL_MAX {
      len := DETAIL_MAX;
      while len > 0 && IsContinuation(detail[len])
        invariant 0 <= len <= DETAIL_MAX && Boundary(detail, len) == Boundary(detail, DETAIL_MAX)
      {
        len := len - 1;
      }
    }
  }

  /** `agent_partial_sentinel`, in a buffer that `str_out_ensure` has made large enough. */
  method PartialSentinel(buf: array<char>, errbuf: string) returns (n: nat)
    requires buf.Length >= (Kept(errbuf) + 16) * 6 + 48
    modifies buf
    ensures n < buf.Length && buf[..n] == Print(Document(errbuf)) && buf[n] == '\0'
  {
    hide Appended, Boundary, Document, Shown;
    var detail := if errbuf == "" then "(no detail)" else errbuf;
    var len := CutLength(detail);
    var open := "{\"reasoning_step_failed\":\"";
    CopyTo(buf, 0, open);
    assert buf[..0] + open == open;
    var pos := EscapeWhole(buf, |open|, detail[..len]);
    if |detail| > DETAIL_MAX {
      assert |MARK| == 14;
      pos := EscapeWhole(buf, pos, MARK);
      AppendedJoin(detail[..len], MARK);
      SeqFacts.Assoc(open, Appended(detail[..len]), Appended(MARK));
    }
    ShownIs(errbuf);
    assert buf[..pos] == open + Appended(Shown(errbuf));
    CopyTo(buf, pos, "\"}");
    n := pos + 2;
    ghost var text := buf[..n];
    buf[n] := '\0';
    assert buf[..n] == text;
    DocumentText(errbuf);
  }

  lemma ShownIs(errbuf: string)
    ensures var kept := Detail(errbuf)[..Kept(errbuf)];
      Shown(errbuf) == if |Detail(errbuf)| > DETAIL_MAX then kept + MARK else kept
  {
    hide Kept;
    var kept := Detail(errbuf)[..Kept(errbuf)];
    assert kept + "" == kept;
  }

  /**
   What the client is shown: the whole diagnostic up to 512 bytes; else the longest part of at most 512 that
   ends in front of no byte 0x80 to 0xBF, and "...[truncated]" behind it; and "(no detail)" for an empty one.
   */
  lemma ShownSays(errbuf: string) returns (k: nat)
    ensures errbuf == "" ==> Shown(errbuf) == "(no detail)"
    ensures 0 < |errbuf| <= 512 ==> Shown(errbuf) == errbuf
    ensures |errbuf| > 512 ==>
      && k <= 512 && Shown(errbuf) == errbuf[..k] + "...[truncated]"
      && (k == 0 || !(128 <= errbuf[k] as int <= 191))
      && forall j :: k < j <= 512 ==> 128 <= errbuf[j] as int <= 191
  {
    ShownIs(errbuf);
    k := Kept(errbuf);
    assert |"(no detail)"| == 11;
    assert Detail(errbuf)[..|Detail(errbuf)|] == Detail(errbuf);
  }
}
