/**
 String escapes: the writers `fsql_ab_put_json_string` and `ent_json_escape`, which agree, and the
 reader `fsql_json_unescape_dup`. One character stands for one byte of the C string.
 */
module JsonEscapes {
  import opened Wrappers
  import opened JsonSyntax
  import SeqFacts

  function HexDigit(n: nat): (c: char)
    requires n < 16
  {
    if n < 10 then ('0' as int + n) as char else ('a' as int + n - 10) as char
  }

  /** printf's "%04x". */
  function Hex4(n: nat): (s: string)
    requires n < 0x1_0000
    ensures |s| == 4
  {
    [HexDigit(n / 4096), HexDigit(n / 256 % 16), HexDigit(n / 16 % 16), HexDigit(n % 16)]
  }

  function EscapeChar(c: char): (s: string)
    ensures 1 <= |s| <= 6
  {
    if c == '"' then "\\\""
    else if c == '\\' then "\\\\"
    else if c == 8 as char then "\\b"
    else if c == 12 as char then "\\f"
    else if c == '\n' then "\\n"
    else if c == '\r' then "\\r"
    else if c == '\t' then "\\t"
    else if (c as int) < 0x20 then "\\u" + Hex4(c as int)
    else [c]
  }

  /** Every escaped text is at most six times as long, the bound both buffers are sized by. */
  function Escape(s: string): (r: string)
    ensures |s| <= |r| <= 6 * |s|
    decreases |s|
  {
    if s == "" then "" else EscapeChar(s[0]) + Escape(s[1..])
  }

  // ----- reading escapes back -----

  function HexValue(c: char): (v: Option<nat>)
    ensures v.Some? ==> v.value < 16
  {
    if '0' <= c <= '9' then Some(c as int - '0' as int)
    else if 'a' <= c <= 'f' then Some(c as int - 'a' as int + 10)
    else if 'A' <= c <= 'F' then Some(c as int - 'A' as int + 10)
    else None
  }

  /** The number that hexadecimal digits write. */
  function HexNumber(s: string): Option<nat>
    decreases |s|
  {
    if s == "" then Some(0)
    else
      var high, low := HexNumber(s[..|s| - 1]), HexValue(s[|s| - 1]);
      if high.None? || low.None? then None else Some(high.value * 16 + low.value)
  }

  /** The low ten bits of a low surrogate's escape, when one stands at the head of t. */
  function LowSurrogate(t: string): (lo: Option<nat>)
    ensures lo.Some? ==> lo.value < 0x400 && |t| >= 6
  {
    if |t| >= 6 && t[0] == '\\' && t[1] == 'u' then
      match HexNumber(t[2..6])
      case Some(n) => if 0xDC00 <= n <= 0xDFFF then Some(n - 0xDC00) else None
      case None => None
    else None
  }

  function Utf8(cp: nat): (s: string)
    requires cp < 0x11_0000
    ensures |s| == if cp < 0x80 then 1 else if cp < 0x800 then 2 else if cp < 0x1_0000 then 3 else 4
  {
    if cp < 0x80 then [cp as char]
    else if cp < 0x800 then [(0xC0 + cp / 64) as char, (0x80 + cp % 64) as char]
    else if cp < 0x1_0000 then [(0xE0 + cp / 4096) as char, (0x80 + cp / 64 % 64) as char, (0x80 + cp % 64) as char]
    else [(0xF0 + cp / 262144) as char, (0x80 + cp / 4096 % 64) as char, (0x80 + cp / 64 % 64) as char, (0x80 + cp % 64) as char]
  }

  /** The code point of the escape whose first four digits say n, with what follows the digits. */
  function CodePoint(n: nat, t: string): (r: (nat, string))
    requires n < 0x1_0000
    ensures r.0 < 0x11_0000 && |r.1| <= |t| && (r.0 >= 0x1_0000 ==> |r.1| + 6 == |t|)
  {
    if 0xD800 <= n <= 0xDBFF && LowSurrogate(t).Some? then
      (0x1_0000 + (n - 0xD800) * 1024 + LowSurrogate(t).value, t[6..])
    else (n, t)
  }

  function Simple(e: char): Option<char> {
    if e == '"' then Some('"')
    else if e == '\\' then Some('\\')
    else if e == '/' then Some('/')
    else if e == 'b' then Some(8 as char)
    else if e == 'f' then Some(12 as char)
    else if e == 'n' then Some('\n')
    else if e == 'r' then Some('\r')
    else if e == 't' then Some('\t')
    else None
  }

  lemma HexBound(s: string)
    requires HexNumber(s).Some? && |s| == 4
    ensures HexNumber(s).value < 0x1_0000
  {
    var a, b, c := s[..3], s[..2], s[..1];
    assert a[..2] == b && b[..1] == c && c[..0] == "";
    assert HexNumber(c).value < 16;
    assert HexNumber(b).value < 256;
    assert HexNumber(a).value < 4096;
  }

  /** What the head of the text stands for, and the rest; None when it is malformed. */
  function UnescapeStep(t: string): (r: Option<(string, string)>)
    requires t != ""
    ensures r.Some? ==> |r.value.0| > 0 && |r.value.0| + |r.value.1| <= |t| && |r.value.1| < |t|
  {
    if t[0] != '\\' then Some((t[..1], t[1..]))
    else if |t| == 1 then None
    else if t[1] != 'u' then
      if Simple(t[1]).Some? then Some(([Simple(t[1]).value], t[2..])) else None
    else if |t| < 6 || HexNumber(t[2..6]).None? then None
    else
      HexBound(t[2..6]);
      var (cp, rest) := CodePoint(HexNumber(t[2..6]).value, t[6..]);
      Some((Utf8(cp), rest))
  }

  /** The text with its escapes resolved; it is never longer than the escaped one. */
  function Unescape(t: string): (r: Option<string>)
    ensures r.Some? ==> |r.value| <= |t|
    decreases |t|
  {
    if t == "" then Some("")
    else
      match UnescapeStep(t)
      case None => None
      case Some((head, rest)) =>
        var more := Unescape(rest);
        if more.None? then None else Some(head + more.value)
  }

  // ----- the round trip -----

  lemma HexOfDigit(n: nat)
    requires n < 16
    ensures HexValue(HexDigit(n)) == Some(n)
  {
  }

  lemma HexRoundTrip(n: nat)
    requires n < 0x1_0000
    ensures HexNumber(Hex4(n)) == Some(n)
  {
    var s := Hex4(n);
    HexOfDigit(n / 4096);
    HexOfDigit(n / 256 % 16);
    HexOfDigit(n / 16 % 16);
    HexOfDigit(n % 16);
    var a, b, c := s[..3], s[..2], s[..1];
    assert a[..2] == b && b[..1] == c && c[..0] == "";
    Nibbles(n);
    assert HexNumber(c) == Some(n / 4096);
    assert HexNumber(b) == Some(n / 256);
    assert HexNumber(a) == Some(n / 16);
  }

  lemma Nibbles(n: nat)
    requires n < 0x1_0000
    ensures n / 256 == n / 4096 * 16 + n / 256 % 16 && n / 16 == n / 256 * 16 + n / 16 % 16 && n == n / 16 * 16 + n % 16
  {
  }

  lemma StepPastU(n: nat, rest: string)
    requires n < 0x80
    ensures UnescapeStep("\\u" + Hex4(n) + rest) == Some(([n as char], rest))
  {
    var t := "\\u" + Hex4(n) + rest;
    assert t[2..6] == Hex4(n) && t[6..] == rest;
    HexRoundTrip(n);
  }

  lemma StepPastEscaped(c: char, rest: string)
    ensures UnescapeStep(EscapeChar(c) + rest) == Some(([c], rest))
  {
    var e := EscapeChar(c);
    var t := e + rest;
    SeqFacts.Skip(e, rest);
    if e == [c] {
      assert t[0] == c && t[..1] == [c];
    } else if e[1] == 'u' {
      StepPastU(c as int, rest);
    } else {
      assert t[0] == '\\' && t[1] == e[1];
    }
  }

  /** Reading back what was written gives the bytes that were written, whatever they are. */
  lemma {:induction false} EscapeRoundTrip(s: string)
    ensures Unescape(Escape(s)) == Some(s)
    decreases |s|
  {
    if s != "" {
      StepPastEscaped(s[0], Escape(s[1..]));
      EscapeRoundTrip(s[1..]);
      SeqFacts.HeadTail(s);
    }
  }

  lemma HexIsPlain(n: nat)
    requires n < 16
    ensures HexDigit(n) != '"' && HexDigit(n) != '\\' && HexDigit(n) as int >= 0x20
  {
  }

  lemma RawOkHex(n: nat, t: string)
    requires n < 0x1_0000 && RawOk(t)
    ensures RawOk(Hex4(n) + t)
  {
    var h := Hex4(n);
    HexIsPlain(n / 4096);
    HexIsPlain(n / 256 % 16);
    HexIsPlain(n / 16 % 16);
    HexIsPlain(n % 16);
    var d := h[3..] + t;
    var c := h[2..] + t;
    var b := h[1..] + t;
    var a := h + t;
    assert d[1..] == t && c[1..] == d && b[1..] == c && a[1..] == b;
    assert RawOk(d);
    assert RawOk(c);
    assert RawOk(b);
  }

  /** An escaped text can stand between quotes: it has no bare quote and no control character. */
  lemma {:induction false} EscapedIsRaw(s: string)
    ensures RawOk(Escape(s))
    decreases |s|
  {
    if s != "" {
      EscapedIsRaw(s[1..]);
      var e, rest := EscapeChar(s[0]), Escape(s[1..]);
      SeqFacts.Skip(e, rest);
      if |e| == 6 {
        RawOkHex(s[0] as int, rest);
        SeqFacts.Assoc("\\u", Hex4(s[0] as int), rest);
        SeqFacts.Skip("\\u", Hex4(s[0] as int) + rest);
      }
    }
  }

  /** Text without backslashes stands for itself. */
  lemma {:induction false} PlainReadsBack(s: string)
    requires '\\' !in s
    ensures Unescape(s) == Some(s)
    decreases |s|
  {
    if s != "" {
      PlainReadsBack(s[1..]);
      assert UnescapeStep(s) == Some(([s[0]], s[1..])) by {
        assert s[..1] == [s[0]];
      }
      SeqFacts.HeadTail(s);
    }
  }

  // ----- the writer with fewer short escapes -----

  /** One character of `json_append_string` and of `json_escape_into`: two characters have short escapes. */
  function AppendChar(c: char): (s: string)
    ensures 1 <= |s| <= 6
  {
    if c == '"' || c == '\\' then ['\\', c]
    else if (c as int) < 0x20 then "\\u" + Hex4(c as int)
    else [c]
  }

  function Appended(s: string): (r: string)
    ensures |r| <= 6 * |s|
    decreases |s|
  {
    if s == "" then "" else AppendChar(s[0]) + Appended(s[1..])
  }

  /** The short escapes of the audit writer; every other control character is written by its code. */
  lemma ShortEscapes(c: char)
    ensures EscapeChar('"') == "\\\"" && EscapeChar('\\') == "\\\\"
    ensures EscapeChar(8 as char) == "\\b" && EscapeChar(9 as char) == "\\t" && EscapeChar(10 as char) == "\\n"
    ensures EscapeChar(12 as char) == "\\f" && EscapeChar(13 as char) == "\\r"
    ensures c as int < 32 && c as int !in {8, 9, 10, 12, 13} ==> EscapeChar(c) == "\\u" + Hex4(c as int)
    ensures c as int < 32 ==> AppendChar(c) == "\\u" + Hex4(c as int)
  {
    hide Hex4;
  }

  /** Both writers leave every character alone but quotes, backslashes and what is below the space. */
  lemma OnlyControlsEscaped(c: char)
    ensures c == '"' || c == '\\' || c as int < 32 <==> EscapeChar(c) != [c]
    ensures c == '"' || c == '\\' || c as int < 32 <==> AppendChar(c) != [c]
  {
  }

  lemma AppendedStep(c: char, rest: string)
    ensures UnescapeStep(AppendChar(c) + rest) == Some(([c], rest))
  {
    var t := AppendChar(c) + rest;
    SeqFacts.Skip(AppendChar(c), rest);
    if |AppendChar(c)| == 6 {
      StepPastU(c as int, rest);
    } else if |AppendChar(c)| == 1 {
      assert t[0] == c && t[..1] == [c];
    } else {
      assert t[0] == '\\' && t[1] == c;
    }
  }

  /** Every appended text reads back, and can stand between quotes. */
  lemma {:induction false} AppendedReads(s: string)
    ensures Unescape(Appended(s)) == Some(s) && RawOk(Appended(s))
    decreases |s|
  {
    if s != "" {
      var e, rest := AppendChar(s[0]), Appended(s[1..]);
      AppendedReads(s[1..]);
      AppendedStep(s[0], rest);
      SeqFacts.HeadTail(s);
      SeqFacts.Skip(e, rest);
      if |e| == 6 {
        RawOkHex(s[0] as int, rest);
        SeqFacts.Assoc("\\u", Hex4(s[0] as int), rest);
        SeqFacts.Skip("\\u", Hex4(s[0] as int) + rest);
      }
    }
  }

  // ----- surrogate pairs -----

  /** The escape of a code point above the basic plane. */
  function PairEscape(cp: nat): string
    requires 0x1_0000 <= cp < 0x11_0000
  {
    "\\u" + Hex4(0xD800 + (cp - 0x1_0000) / 1024) + ("\\u" + Hex4(0xDC00 + (cp - 0x1_0000) % 1024))
  }

  /** The code point that a sequence of UTF-8 bytes (section 3 of RFC 3629) stands for. */
  function Utf8Value(s: string): Option<nat> {
    var b := seq(|s|, i requires 0 <= i < |s| => s[i] as int);
    if |s| == 1 && b[0] < 0x80 then Some(b[0])
    else if |s| == 2 && 0xC0 <= b[0] < 0xE0 && 0x80 <= b[1] < 0xC0 then Some((b[0] - 0xC0) * 64 + (b[1] - 0x80))
    else if |s| == 3 && 0xE0 <= b[0] < 0xF0 && 0x80 <= b[1] < 0xC0 && 0x80 <= b[2] < 0xC0 then
      Some((b[0] - 0xE0) * 4096 + (b[1] - 0x80) * 64 + (b[2] - 0x80))
    else if |s| == 4 && 0xF0 <= b[0] < 0xF8 && 0x80 <= b[1] < 0xC0 && 0x80 <= b[2] < 0xC0 && 0x80 <= b[3] < 0xC0 then
      Some((b[0] - 0xF0) * 262144 + (b[1] - 0x80) * 4096 + (b[2] - 0x80) * 64 + (b[3] - 0x80))
    else None
  }

  lemma Utf8RoundTrip(cp: nat)
    requires cp < 0x11_0000
    ensures Utf8Value(Utf8(cp)) == Some(cp)
  {
    assert cp / 64 == cp / 4096 * 64 + cp / 64 % 64;
    assert cp / 4096 == cp / 262144 * 64 + cp / 4096 % 64;
  }

  lemma PairCodePoint(cp: nat)
    requires 0x1_0000 <= cp < 0x11_0000
    ensures var lo := "\\u" + Hex4(0xDC00 + (cp - 0x1_0000) % 1024);
      CodePoint(0xD800 + (cp - 0x1_0000) / 1024, lo) == (cp, "")
  {
    var lo := 0xDC00 + (cp - 0x1_0000) % 1024;
    var t := "\\u" + Hex4(lo);
    HexRoundTrip(lo);
    assert t[2..6] == Hex4(lo) && t[6..] == "";
    hide Hex4, HexNumber;
    assert LowSurrogate(t) == Some(lo - 0xDC00);
  }

  /** A surrogate pair reads as the one code point it encodes, written out in UTF-8. */
  lemma PairsDecode(cp: nat)
    requires 0x1_0000 <= cp < 0x11_0000
    ensures Unescape(PairEscape(cp)) == Some(Utf8(cp)) && Utf8Value(Utf8(cp)) == Some(cp)
  {
    hide Hex4, CodePoint, Utf8, Utf8Value, HexNumber;
    var hi := 0xD800 + (cp - 0x1_0000) / 1024;
    var low := "\\u" + Hex4(0xDC00 + (cp - 0x1_0000) % 1024);
    var t := PairEscape(cp);
    HexRoundTrip(hi);
    PairCodePoint(cp);
    Utf8RoundTrip(cp);
    assert t[2..6] == Hex4(hi) && t[6..] == low;
    assert UnescapeStep(t) == Some((Utf8(cp), ""));
    assert Utf8(cp) + "" == Utf8(cp);
  }

  // ----- the loops -----

  /** memcpy of a short text to position o. */
  method CopyTo(out: array<char>, o: nat, text: string)
    requires o + |text| <= out.Length
    modifies out
    ensures out[..o + |text|] == old(out[..o]) + text
  {
    var k := 0;
    while k < |text|
      invariant k <= |text| && out[..o + k] == old(out[..o]) + text[..k]
    {
      out[o + k] := text[k];
      assert out[..o + k + 1] == out[..o + k] + [text[k]];
      assert text[..k + 1] == text[..k] + [text[k]];
      k := k + 1;
    }
    assert text[..k] == text;
  }

  lemma EscapeSplit(s: string, i: nat)
    requires i < |s|
    ensures Escape(s[i..]) == EscapeChar(s[i]) + Escape(s[i + 1..])
  {
    assert s[i..][1..] == s[i + 1..];
  }

  lemma EscapeNothing()
    ensures Escape("") == ""
  {
  }

  /** `ent_json_escape`: fails exactly when the escaped text does not fit. */
  method EntJsonEscape(s: string, out: array<char>) returns (ok: bool, o: nat)
    modifies out
    ensures ok <==> |Escape(s)| <= out.Length
    ensures ok ==> o == |Escape(s)| && out[..o] == Escape(s)
  {
    hide Escape, EscapeChar;
    o := 0;
    var i := 0;
    assert s[0..] == s;
    while i < |s|
      invariant i <= |s| && o <= out.Length
      invariant Escape(s) == out[..o] + Escape(s[i..])
    {
      var tmp := EscapeChar(s[i]);
      EscapeSplit(s, i);
      SeqFacts.Assoc(out[..o], tmp, Escape(s[i + 1..]));
      if o + |tmp| > out.Length { return false, o; }
      CopyTo(out, o, tmp);
      o := o + |tmp|;
      i := i + 1;
    }
    ok := true;
    assert s[i..] == "";
    EscapeNothing();
  }

  /** Four hexadecimal digits at i, the value built up digit by digit. */
  method ReadHex4(src: string, i: nat) returns (ok: bool, n: nat)
    requires i + 4 <= |src|
    ensures ok <==> HexNumber(src[i..i + 4]).Some?
    ensures ok ==> HexNumber(src[i..i + 4]) == Some(n) && n < 0x1_0000
  {
    ghost var w := src[i..i + 4];
    n := 0;
    var k := 0;
    while k < 4
      invariant k <= 4 && HexNumber(w[..k]) == Some(n)
    {
      var v := HexValue(src[i + k]);
      HexGrows(w, k);
      if v.None? {
        HexBreaks(w, k);
        return false, 0;
      }
      n := n * 16 + v.value;
      k := k + 1;
    }
    assert w[..4] == w;
    HexBound(w);
    ok := true;
  }

  lemma HexGrows(s: string, k: nat)
    requires k < |s| && HexNumber(s[..k]).Some?
    ensures HexValue(s[k]).Some? ==> HexNumber(s[..k + 1]) == Some(HexNumber(s[..k]).value * 16 + HexValue(s[k]).value)
  {
    assert s[..k + 1][..k] == s[..k];
  }

  lemma {:induction false} HexBreaks(s: string, k: nat)
    requires k < |s| && HexValue(s[k]).None?
    ensures HexNumber(s).None?
    decreases |s|
  {
    if k < |s| - 1 {
      HexBreaks(s[..|s| - 1], k);
    }
  }

  /** The low surrogate's escape at i, if one is there: its low ten bits. */
  method ReadLow(src: string, i: nat) returns (ok: bool, lo: nat)
    requires i <= |src|
    ensures ok == LowSurrogate(src[i..]).Some?
    ensures ok ==> LowSurrogate(src[i..]) == Some(lo)
  {
    ok, lo := false, 0;
    if i + 6 <= |src| && src[i] == '\\' && src[i + 1] == 'u' {
      assert src[i..][2..6] == src[i + 2..i + 2 + 4];
      ok, lo := ReadHex4(src, i + 2);
      ok := ok && 0xDC00 <= lo <= 0xDFFF;
      if ok { lo := lo - 0xDC00; }
    }
  }

  /** One escape after its backslash: what it stands for and where the text goes on. */
  method ReadEscape(src: string, i: nat) returns (ok: bool, head: string, next: nat)
    requires i < |src| && src[i] == '\\'
    ensures i <= next <= |src|
    ensures ok == UnescapeStep(src[i..]).Some?
    ensures ok ==> UnescapeStep(src[i..]) == Some((head, src[next..]))
  {
    var t := src[i..];
    ok, head, next := false, "", i;
    if i + 1 >= |src| { return; }
    var e := src[i + 1];
    next := i + 2;
    assert t[2..] == src[next..];
    if e != 'u' {
      var plain := Simple(e);
      if plain.Some? { ok, head := true, [plain.value]; }
      return;
    }
    if next + 4 > |src| { return; }
    assert t[2..6] == src[next..next + 4];
    var cp;
    ok, cp := ReadHex4(src, next);
    if !ok { return; }
    next := next + 4;
    assert t[6..] == src[next..];
    if 0xD800 <= cp <= 0xDBFF {
      var paired, lo := ReadLow(src, next);
      if paired {
        assert src[next..][6..] == src[next + 6..];
        cp, next := 0x1_0000 + (cp - 0xD800) * 1024 + lo, next + 6;
      }
    }
    head := Utf8(cp);
  }

  lemma UnescapePlain(t: string)
    requires t != "" && t[0] != '\\'
    ensures UnescapeStep(t) == Some(([t[0]], t[1..]))
  {
    assert t[..1] == [t[0]];
  }

  lemma UnescapeStuck(t: string)
    requires t != "" && UnescapeStep(t).None?
    ensures Unescape(t).None?
  {
  }

  lemma UnescapeNothing()
    ensures Unescape("") == Some("")
  {
  }

  lemma UnescapeSplit(t: string)
    requires t != "" && UnescapeStep(t).Some?
    ensures var (head, rest) := UnescapeStep(t).value;
      Unescape(t).Some? == Unescape(rest).Some?
      && (Unescape(t).Some? ==> Unescape(t).value == head + Unescape(rest).value)
  {
  }

  /** `fsql_json_unescape_dup`: one byte more than the escaped text is room enough. */
  method UnescapeDup(src: string) returns (ok: bool, out: array<char>, o: nat)
    ensures fresh(out) && out.Length == |src| + 1
    ensures ok == Unescape(src).Some?
    ensures ok ==> o < out.Length && out[..o] == Unescape(src).value && out[o] == '\0'
  {
    hide Unescape, UnescapeStep;
    out := new char[|src| + 1];
    o := 0;
    var i := 0;
    assert src[0..] == src;
    while i < |src|
      invariant i <= |src| && o <= i
      invariant Unescape(src).Some? == Unescape(src[i..]).Some?
      invariant Unescape(src).Some? ==> Unescape(src).value == out[..o] + Unescape(src[i..]).value
    {
      ghost var t := src[i..];
      var head, next := [src[i]], i + 1;
      ok := true;
      if src[i] == '\\' {
        ok, head, next := ReadEscape(src, i);
        if !ok {
          UnescapeStuck(t);
          return;
        }
      } else {
        UnescapePlain(t);
        assert t[1..] == src[next..];
      }
      assert UnescapeStep(t) == Some((head, src[next..]));
      UnescapeSplit(t);
      if Unescape(t).Some? {
        SeqFacts.Assoc(out[..o], head, Unescape(src[next..]).value);
      }
      CopyTo(out, o, head);
      o, i := o + |head|, next;
    }
    UnescapeNothing();
    assert src[i..] == "";
    assert out[..o] + "" == out[..o];
    out[o] := '\0';
    ok := true;
  }
}
