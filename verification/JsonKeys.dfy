/**
 `json_find_key` and the readers on top of it: a scan of the flat text, proved to find the first
 top-level member of the document, and to read the number that stands there.
 */
module JsonKeys {
  import opened Wrappers
  import opened JsonSyntax
  import opened JsonScan
  import SeqFacts
  import Texts

  // ----- the scan, on what is left of the text -----

  /** How one character outside strings moves the nesting depth. */
  function Deeper(c: char, depth: int): int {
    if c == '{' || c == '[' then depth + 1 else if c == '}' || c == ']' then depth - 1 else depth
  }

  /** The text from the wanted key's value on. */
  function FindKey(t: string, key: string, depth: int): (r: Option<string>)
    ensures r.Some? ==> |r.value| < |t|
    decreases |t|
  {
    if t == "" then None
    else if t[0] == '"' then
      match StringSpan(t)
      case None => None
      case Some((raw, after)) =>
        var u := SkipWs(after);
        if u != "" && u[0] == ':' && depth <= 1 then
          if raw == key then Some(SkipWs(u[1..])) else FindKey(u[1..], key, depth)
        else FindKey(after, key, depth)
    else FindKey(t[1..], key, Deeper(t[0], depth))
  }

  lemma FindChar(t: string, key: string, depth: int)
    requires t != "" && t[0] != '"'
    ensures FindKey(t, key, depth) == FindKey(t[1..], key, Deeper(t[0], depth))
  {
  }

  lemma FindQuote(t: string, key: string, depth: int)
    requires t != "" && t[0] == '"'
    ensures StringSpan(t).None? ==> FindKey(t, key, depth).None?
    ensures StringSpan(t).Some? ==>
      var (raw, after) := StringSpan(t).value;
      var u := SkipWs(after);
      FindKey(t, key, depth)
      == if u != "" && u[0] == ':' && depth <= 1 then
           (if raw == key then Some(SkipWs(u[1..])) else FindKey(u[1..], key, depth))
         else FindKey(after, key, depth)
  {
  }

  /** `json_find_key`: where the value of the key starts. */
  method JsonFindKey(s: string, key: string) returns (found: bool, pos: nat)
    ensures pos <= |s| && found == FindKey(s, key, 0).Some?
    ensures found ==> FindKey(s, key, 0) == Some(s[pos..])
  {
    hide FindKey, StringSpan, SkipWs;
    var i, depth := 0, 0;
    assert s[0..] == s;
    while i < |s|
      invariant i <= |s| && FindKey(s[i..], key, depth) == FindKey(s, key, 0)
    {
      ghost var t := s[i..];
      if s[i] == '"' {
        FindQuote(t, key, depth);
        var ok, len, after := StringSpanAt(s, i);
        if !ok { return false, 0; }
        var k := SkipWsAt(s, after);
        ghost var u := s[k..];
        if k < |s| && s[k] == ':' && depth <= 1 {
          assert u[1..] == s[k + 1..];
          if s[i + 1..i + 1 + len] == key {
            pos := SkipWsAt(s, k + 1);
            return true, pos;
          }
          i := k + 1;
        } else {
          i := after;
        }
      } else {
        FindChar(t, key, depth);
        assert t[1..] == s[i + 1..];
        if s[i] == '{' || s[i] == '[' {
          depth := depth + 1;
        } else if s[i] == '}' || s[i] == ']' {
          depth := depth - 1;
        }
        i := i + 1;
      }
    }
    FindNothing(s[i..], key, depth);
    return false, 0;
  }

  lemma FindNothing(t: string, key: string, depth: int)
    requires t == ""
    ensures FindKey(t, key, depth).None?
  {
  }

  // ----- on printed documents -----

  lemma {:induction false} FindPastUnmarked(s: string, t: string, key: string, depth: int)
    requires Unmarked(s)
    ensures FindKey(s + t, key, depth) == FindKey(t, key, depth)
  {
    if s == "" {
      assert s + t == t;
    } else {
      SeqFacts.Uncons(s, t);
      FindChar(s + t, key, depth);
      FindPastUnmarked(s[1..], t, key, depth);
    }
  }

  lemma FindBracket(c: char, t: string, key: string, depth: int)
    requires c in {'{', '[', '}', ']'}
    ensures FindKey([c] + t, key, depth) == FindKey(t, key, Deeper(c, depth))
  {
    SeqFacts.Skip([c], t);
    assert ([c] + t)[0] == c;
    FindChar([c] + t, key, depth);
  }

  /** A string that is no key of this object: deeper down, or with no colon behind it. */
  lemma FindPastString(raw: string, t: string, key: string, depth: int)
    requires RawOk(raw) && (depth >= 2 || SkipWs(t) == "" || SkipWs(t)[0] != ':')
    ensures FindKey(Print(Str(raw)) + t, key, depth) == FindKey(t, key, depth)
  {
    StringPrinted(raw, t);
    assert (Print(Str(raw)) + t)[0] == '"';
    FindQuote(Print(Str(raw)) + t, key, depth);
  }

  lemma FindPastScalar(v: Value, t: string, key: string, depth: int)
    requires Loose(v) && (v.Word? || v.Num?)
    ensures FindKey(Print(v) + t, key, depth) == FindKey(t, key, depth)
  {
    if v.Num? {
      NumberIsNumberText(v.num);
    }
    FindPastUnmarked(Print(v), t, key, depth);
  }

  /** A nested container, whatever keys are in it, is passed over. */
  lemma {:induction false} FindPastContainer(v: Value, t: string, key: string, depth: int)
    requires Loose(v) && depth >= 1 && (v.Empty? || v.Box?)
    ensures FindKey(Print(v) + t, key, depth) == FindKey(t, key, depth)
    decreases v, 2
  {
    hide FindKey;
    var open, close := OpenOf(v.curly), CloseOf(v.curly);
    if v.Empty? {
      SeqFacts.Assoc4([open], v.gap, [close], t);
      FindBracket(open, v.gap + ([close] + t), key, depth);
      FindPastUnmarked(v.gap, [close] + t, key, depth + 1);
    } else {
      SeqFacts.Assoc5([open], v.lead, PrintItems(v.items), [close], t);
      FindBracket(open, v.lead + (PrintItems(v.items) + ([close] + t)), key, depth);
      FindPastUnmarked(v.lead, PrintItems(v.items) + ([close] + t), key, depth + 1);
      FindPastItems(v.items, [close] + t, key, depth + 1);
    }
    FindBracket(close, t, key, depth + 1);
  }

  lemma {:induction false} FindPastDeep(v: Value, t: string, key: string, depth: int)
    requires Loose(v) && depth >= 2
    ensures FindKey(Print(v) + t, key, depth) == FindKey(t, key, depth)
    decreases v, 3
  {
    match v
    case Str(raw) => FindPastString(raw, t, key, depth);
    case Word(_) => FindPastScalar(v, t, key, depth);
    case Num(_) => FindPastScalar(v, t, key, depth);
    case _ => FindPastContainer(v, t, key, depth);
  }

  lemma {:induction false} FindPastItems(items: Items, t: string, key: string, depth: int)
    requires LooseItems(items) && depth >= 2
    ensures FindKey(PrintItems(items) + t, key, depth) == FindKey(t, key, depth)
    decreases items, 0
  {
    match items
    case Last(v, trail) =>
      SeqFacts.Assoc(Print(v), trail, t);
      FindPastDeep(v, trail + t, key, depth);
      FindPastUnmarked(trail, t, key, depth);
    case More(v, trail, sep, lead, rest) =>
      var u := lead + (PrintItems(rest) + t);
      SeqFacts.Assoc6(Print(v), trail, [sep], lead, PrintItems(rest), t);
      FindPastDeep(v, trail + ([sep] + u), key, depth);
      FindPastUnmarked(trail, [sep] + u, key, depth);
      FindPastUnmarked([sep], u, key, depth);
      FindPastUnmarked(lead, PrintItems(rest) + t, key, depth);
      FindPastItems(rest, t, key, depth);
  }

  /** A member's value, at the depth of the object itself. */
  lemma FindPastValue(v: Value, trail: string, c: char, t: string, key: string)
    requires Loose(v) && Blank(trail) && c in {',', ']', '}'}
    ensures FindKey(Print(v) + (trail + ([c] + t)), key, 1) == FindKey([c] + t, key, 1)
  {
    var u := trail + ([c] + t);
    SkipBlank(trail, [c] + t);
    assert ([c] + t)[0] == c;
    match v {
      case Str(raw) => FindPastString(raw, u, key, 1);
      case Word(_) => FindPastScalar(v, u, key, 1);
      case Num(_) => FindPastScalar(v, u, key, 1);
      case _ => FindPastContainer(v, u, key, 1);
    }
    FindPastUnmarked(trail, [c] + t, key, 1);
  }

  /** The members from the first one with this key on, its value standing first. */
  function Holder(items: Items, key: string): Option<Items> {
    if !(items.More? && items.value.Str?) then None
    else if items.value.raw == key then Some(items.rest)
    else if items.rest.More? then Holder(items.rest.rest, key)
    else None
  }

  /** A key in its place: the scan stops at its value, or goes on to it. */
  lemma FindAtKey(raw: string, gap: string, lead: string, t: string, key: string)
    requires RawOk(raw) && Blank(gap) && Blank(lead) && t != "" && !IsWs(t[0])
    ensures FindKey(Print(Str(raw)) + (gap + ([':'] + (lead + t))), key, 1)
         == if raw == key then Some(t) else FindKey(t, key, 1)
  {
    var c := [':'] + (lead + t);
    var w := Print(Str(raw)) + (gap + c);
    StringPrinted(raw, gap + c);
    assert w[0] == '"';
    FindQuote(w, key, 1);
    assert c[0] == ':';
    SkipBlank(gap, c);
    SeqFacts.Skip([':'], lead + t);
    SkipBlank(lead, t);
    FindPastUnmarked(lead, t, key, 1);
  }

  lemma {:induction false} FindInMembers(items: Items, t: string, key: string)
    requires StrictMembers(items)
    ensures FindKey(PrintItems(items) + (['}'] + t), key, 1)
         == match Holder(items, key)
            case Some(at) => Some(PrintItems(at) + (['}'] + t))
            case None => FindKey(['}'] + t, key, 1)
  {
    var end := ['}'] + t;
    var raw, gap, lead, at := items.value.raw, items.trail, items.lead, items.rest;
    var w := PrintItems(at) + end;
    MembersAreLoose(items);
    SeqFacts.Assoc6(Print(Str(raw)), gap, [':'], lead, PrintItems(at), end);
    PrintHead(at.value);
    assert w[0] == Print(at.value)[0];
    FindAtKey(raw, gap, lead, w, key);
    if raw != key {
      match at
      case Last(v, trail) =>
        SeqFacts.Assoc(Print(v), trail, end);
        FindPastValue(v, trail, '}', t, key);
      case More(v, trail, sep, lead', more) =>
        var u := PrintItems(more) + end;
        SeqFacts.Assoc6(Print(v), trail, [sep], lead', PrintItems(more), end);
        FindPastValue(v, trail, sep, lead' + u, key);
        FindPastUnmarked([sep], lead' + u, key, 1);
        FindPastUnmarked(lead', u, key, 1);
        FindInMembers(more, t, key);
    }
  }

  /** The first member of an object with this key, its value first, or nothing. */
  function Member(v: Value, key: string): Option<Items> {
    if v.Box? && v.curly then Holder(v.items, key) else None
  }

  /** On every printed object the scan stops at the value of the first top-level member with the key. */
  lemma FindsTheMember(d: Doc, key: string)
    requires Blank(d.lead) && Strict(d.value) && Blank(d.trail)
    requires (d.value.Empty? || d.value.Box?) && d.value.curly
    ensures FindKey(PrintDoc(d), key, 0)
         == match Member(d.value, key)
            case Some(at) => Some(PrintItems(at) + (['}'] + d.trail))
            case None => None
  {
    hide FindKey;
    var v := d.value;
    var end := ['}'] + d.trail;
    SeqFacts.Assoc(d.lead, Print(v), d.trail);
    FindPastUnmarked(d.lead, Print(v) + d.trail, key, 0);
    if v.Empty? {
      SeqFacts.Assoc4(['{'], v.gap, ['}'], d.trail);
      FindBracket('{', v.gap + end, key, 0);
      FindPastUnmarked(v.gap, end, key, 1);
    } else {
      SeqFacts.Assoc5(['{'], v.lead, PrintItems(v.items), ['}'], d.trail);
      FindBracket('{', v.lead + (PrintItems(v.items) + end), key, 0);
      FindPastUnmarked(v.lead, PrintItems(v.items) + end, key, 1);
      FindInMembers(v.items, d.trail, key);
    }
    FindBracket('}', d.trail, key, 1);
    assert d.trail + "" == d.trail;
    FindPastUnmarked(d.trail, "", key, 0);
    FindNothing("", key, 0);
  }

  // ----- numbers -----

  /** How many digits t starts with. */
  function Lead(t: string): (n: nat)
    ensures n <= |t| && Digits(t[..n]) && (n < |t| ==> !IsDigit(t[n]))
    decreases |t|
  {
    if t != "" && IsDigit(t[0]) then 1 + Lead(t[1..]) else 0
  }

  /** The end of an exponent that may stand at j; j itself when there is none. */
  function ExponentStop(t: string, j: nat): (e: nat)
    requires j <= |t|
    ensures j <= e <= |t|
  {
    if j < |t| && (t[j] == 'e' || t[j] == 'E') then
      var k := if j + 1 < |t| && (t[j + 1] == '-' || t[j + 1] == '+') then j + 2 else j + 1;
      if Lead(t[k..]) > 0 then k + Lead(t[k..]) else j
    else j
  }

  /** The fraction and the exponent behind the whole part. */
  function StopFrom(t: string, j: nat): (e: nat)
    requires j <= |t|
    ensures j <= e <= |t|
  {
    if j < |t| && t[j] == '.' then
      var f := Lead(t[j + 1..]);
      if f == 0 then j else ExponentStop(t, j + 1 + f)
    else ExponentStop(t, j)
  }

  /** The length of the number token at the head of t, 0 when there is none; a leading plus is let through. */
  function NumberStop(t: string): (e: nat)
    ensures e <= |t|
  {
    var j0 := if t != "" && (t[0] == '-' || t[0] == '+') then 1 else 0;
    var j := j0 + Lead(t[j0..]);
    if j == j0 then 0 else StopFrom(t, j)
  }

  /** `json_value_delim` on what follows the value; unlike in the validator a colon is no delimiter. */
  predicate EndsValue(rest: string) {
    rest == "" || IsWs(rest[0]) || rest[0] in [',', '}', ']']
  }

  /** What strtol reads of a number token: a sign and the digits behind it. */
  function Strtol(t: string): int {
    var signed := t != "" && (t[0] == '-' || t[0] == '+');
    var j0 := if signed then 1 else 0;
    var n: int := DigitsValue(t[j0..][..Lead(t[j0..])]);
    if signed && t[0] == '-' then -n else n
  }

  const INT_MAX: int := 2147483647
  const INT_MIN: int := -2147483648
  const ULLONG_MAX: int := 18446744073709551615
  const BUF: nat := 32

  method LeadAt(s: string, from: nat) returns (j: nat)
    requires from <= |s|
    ensures from <= j <= |s| && j - from == Lead(s[from..])
  {
    j := from;
    while j < |s| && IsDigit(s[j])
      invariant from <= j <= |s| && j - from + Lead(s[j..]) == Lead(s[from..])
    {
      assert s[j..][1..] == s[j + 1..];
      j := j + 1;
    }
  }

  lemma Behind(s: string, pos: nat, j: nat)
    requires pos <= j <= |s|
    ensures s[pos..][j - pos..] == s[j..] && (j < |s| ==> s[pos..][j - pos] == s[j])
  {
  }

  method ExponentEnd(s: string, pos: nat, j: nat) returns (e: nat)
    requires pos <= j <= |s|
    ensures e == pos + ExponentStop(s[pos..], j - pos)
  {
    hide Lead;
    e := j;
    Behind(s, pos, j);
    if j < |s| && (s[j] == 'e' || s[j] == 'E') {
      var k := j + 1;
      Behind(s, pos, k);
      if k < |s| && (s[k] == '-' || s[k] == '+') { k := k + 1; }
      var exp := k;
      Behind(s, pos, k);
      k := LeadAt(s, k);
      if k > exp { e := k; }
    }
  }

  method FractionEnd(s: string, pos: nat, from: nat) returns (e: nat)
    requires pos <= from <= |s|
    ensures e == pos + StopFrom(s[pos..], from - pos)
  {
    hide Lead, ExponentStop;
    var j, intEnd := from, from;
    Behind(s, pos, j);
    if j < |s| && s[j] == '.' {
      j := j + 1;
      var frac := j;
      Behind(s, pos, j);
      j := LeadAt(s, j);
      if j == frac { return intEnd; }
    }
    e := ExponentEnd(s, pos, j);
  }

  /** `json_number_end`. */
  method JsonNumberEnd(s: string, pos: nat) returns (j: nat)
    requires pos <= |s|
    ensures j == pos + NumberStop(s[pos..])
  {
    hide Lead, StopFrom;
    j := pos;
    Behind(s, pos, j);
    if j < |s| && (s[j] == '-' || s[j] == '+') { j := j + 1; }
    var intDigits := j;
    Behind(s, pos, j);
    j := LeadAt(s, j);
    if j == intDigits { return pos; }
    j := FractionEnd(s, pos, j);
  }

  /** The number a reader makes of the text at the value's position; None stands for the fallback. */
  function IntAt(t: string): Option<int> {
    var n := NumberStop(t);
    if n == 0 || !EndsValue(t[n..]) || n >= BUF then None
    else if INT_MIN <= Strtol(t[..n]) <= INT_MAX then Some(Strtol(t[..n]))
    else None
  }

  function U64At(t: string): Option<int> {
    var n := Lead(t);
    if n == 0 || !EndsValue(t[n..]) || n >= BUF then None
    else if DigitsValue(t[..n]) <= ULLONG_MAX then Some(DigitsValue(t[..n]))
    else None
  }

  function OrElse(o: Option<int>, fallback: int): int {
    if o.Some? then o.value else fallback
  }

  /** `json_get_int`. */
  method JsonGetInt(s: string, key: string, fallback: int) returns (v: int)
    ensures v == match FindKey(s, key, 0)
                 case Some(t) => OrElse(IntAt(t), fallback)
                 case None => fallback
  {
    hide NumberStop, Strtol, FindKey;
    var found, pos := JsonFindKey(s, key);
    if !found { return fallback; }
    var end := JsonNumberEnd(s, pos);
    if end == pos { return fallback; }
    Behind(s, pos, end);
    if !EndsValue(s[end..]) { return fallback; }
    if end - pos >= BUF { return fallback; }
    assert s[pos..][..end - pos] == s[pos..end];
    v := Strtol(s[pos..end]);
    if v > INT_MAX || v < INT_MIN { return fallback; }
  }

  /** `json_get_u64`. */
  method JsonGetU64(s: string, key: string, fallback: int) returns (v: int)
    ensures v == match FindKey(s, key, 0)
                 case Some(t) => OrElse(U64At(t), fallback)
                 case None => fallback
  {
    hide FindKey;
    var found, pos := JsonFindKey(s, key);
    if !found { return fallback; }
    var j := LeadAt(s, pos);
    if j == pos { return fallback; }
    Behind(s, pos, j);
    if !EndsValue(s[j..]) { return fallback; }
    if j - pos >= BUF { return fallback; }
    assert s[pos..][..j - pos] == s[pos..j];
    v := DigitsValue(s[pos..j]);
    if v > ULLONG_MAX { return fallback; }
  }

  // ----- the number that was printed -----

  lemma {:induction false} LeadPrinted(d: string, rest: string)
    requires Digits(d) && (rest == "" || !IsDigit(rest[0]))
    ensures Lead(d + rest) == |d| && (d + rest)[..|d|] == d && (d + rest)[|d|..] == rest
  {
    SeqFacts.Skip(d, rest);
    if d == "" {
      assert d + rest == rest;
    } else {
      SeqFacts.Uncons(d, rest);
      LeadPrinted(d[1..], rest);
    }
  }

  /** The digits that printf writes for a number are worth that number. */
  lemma {:induction false} DecimalValue(n: nat)
    ensures Digits(Texts.DecimalNat(n)) && DigitsValue(Texts.DecimalNat(n)) == n
  {
    var s := Texts.DecimalNat(n);
    if n < 10 {
      assert s[..0] == "";
    } else {
      DecimalValue(n / 10);
      assert s[..|s| - 1] == Texts.DecimalNat(n / 10);
      assert s[|s| - 1] == Texts.Digit(n % 10);
    }
  }

  /** The value of a printed number as an integer type sees it: its whole part with its sign. */
  function WholeValue(n: Number): int
    requires NumberOk(n)
  {
    var v: int := DigitsValue(n.whole);
    if n.minus then -v else v
  }

  lemma EndsDelimited(rest: string)
    requires EndsValue(rest)
    ensures Delimited(rest) && (rest != "" ==> rest[0] !in {'.', 'e', 'E', '+', '-'} && !IsDigit(rest[0]))
  {
  }

  /** An exponent printed at j ends where it was printed to. */
  lemma ExponentPrinted(head: string, e: Exponent, rest: string)
    requires ExpOk(e) && EndsValue(rest)
    ensures ExponentStop(head + (PrintExp(e) + rest), |head|) == |head| + |PrintExp(e)|
  {
    EndsDelimited(rest);
    if e.NoExp? {
      assert PrintExp(e) + rest == rest;
      hide *;
      NoMark(head, rest);
    } else {
      MarkPrinted(head, e, rest);
    }
  }

  lemma MarkPrinted(head: string, e: Exponent, rest: string)
    requires ExpOk(e) && e.Exp? && EndsValue(rest)
    ensures ExponentStop(head + (PrintExp(e) + rest), |head|) == |head| + |PrintExp(e)|
  {
    hide *;
    EndsDelimited(rest);
    ExponentShape(head, e, rest);
    LeadPrinted(e.digits, rest);
    MarkAt(head + (PrintExp(e) + rest), |head|, |e.sign|, |e.digits|);
  }

  lemma NoMark(head: string, rest: string)
    requires rest == "" || rest[0] !in {'e', 'E'}
    ensures ExponentStop(head + rest, |head|) == |head|
  {
    hide Lead;
    var t := head + rest;
    assert |head| < |t| ==> t[|head|] == rest[0];
  }

  lemma MarkAt(t: string, j: nat, sign: nat, n: nat)
    requires |t| > j + 1 && (t[j] == 'e' || t[j] == 'E')
    requires sign == if t[j + 1] == '-' || t[j + 1] == '+' then 1 else 0
    requires Lead(t[j + 1 + sign..]) == n > 0
    ensures ExponentStop(t, j) == j + 1 + sign + n
  {
    hide Lead;
  }

  lemma ExponentShape(head: string, e: Exponent, rest: string)
    requires ExpOk(e) && e.Exp?
    ensures var t := head + (PrintExp(e) + rest); var j := |head|;
      && |t| > j + 1 && t[j] == e.mark && t[j + 1 + |e.sign|..] == e.digits + rest
      && |e.sign| == (if t[j + 1] == '-' || t[j + 1] == '+' then 1 else 0)
      && (e.mark == 'e' || e.mark == 'E') && |e.digits| > 0 && Digits(e.digits) && |PrintExp(e)| == 1 + |e.sign| + |e.digits|
  {
    var t := head + (PrintExp(e) + rest);
    SeqFacts.Assoc([e.mark], e.sign + e.digits, rest);
    SeqFacts.Assoc(e.sign, e.digits, rest);
    SeqFacts.Assoc(head, [e.mark], e.sign + (e.digits + rest));
    SeqFacts.Assoc(head + [e.mark], e.sign, e.digits + rest);
    SeqFacts.Skip(head + [e.mark] + e.sign, e.digits + rest);
    SeqFacts.Skip(head + [e.mark], e.sign + (e.digits + rest));
    assert t[|head|] == e.mark;
    assert t[|head| + 1] == (e.sign + (e.digits + rest))[0];
  }

  /** A printed number in front of a delimiter is one token. */
  lemma NumberTokenPrinted(n: Number, rest: string)
    requires NumberOk(n) && EndsValue(rest)
    ensures NumberStop(PrintNumber(n) + rest) == |PrintNumber(n)|
    ensures Strtol(PrintNumber(n)) == WholeValue(n)
  {
    hide Lead, StopFrom, Strtol, WholeValue, PrintFracExp;
    var sign := if n.minus then "-" else "";
    var tail := PrintFracExp(n.frac, n.exp) + rest;
    PrintNumberSplit(n, rest);
    SignedDigits(sign, n.whole, tail);
    TailNotDigit(n, rest);
    LeadPrinted(n.whole, tail);
    StopAfterWhole(sign + n.whole, n.frac, n.exp, rest);
    SeqFacts.Assoc(sign, n.whole, tail);
    StrtolPrinted(n);
  }

  lemma TailNotDigit(n: Number, rest: string)
    requires NumberOk(n) && EndsValue(rest)
    ensures var tail := PrintFracExp(n.frac, n.exp) + rest; tail == "" || !IsDigit(tail[0])
  {
    var p := PrintFracExp(n.frac, n.exp);
    if p == "" {
      assert p + rest == rest;
    } else {
      assert (p + rest)[0] == p[0];
      assert n.frac != "" ==> p[0] == '.';
      assert n.frac == "" ==> p == PrintExp(n.exp);
    }
  }

  lemma SignedDigits(sign: string, whole: string, tail: string)
    requires (sign == "" || sign == "-") && whole != "" && Digits(whole)
    ensures var t := sign + (whole + tail);
      t != "" && ((t[0] == '-' || t[0] == '+') <==> sign == "-") && t[|sign|..] == whole + tail
  {
    SeqFacts.Skip(sign, whole + tail);
    assert (sign + (whole + tail))[0] == if sign == "-" then '-' else whole[0];
  }

  lemma StopNoFraction(head: string, e: Exponent, rest: string)
    requires ExpOk(e) && EndsValue(rest)
    ensures StopFrom(head + (PrintExp(e) + rest), |head|) == |head| + |PrintExp(e)|
  {
    EndsDelimited(rest);
    hide StopFrom, ExponentStop, PrintExp, ExpOk, EndsValue;
    AfterDigits(e, rest);
    ExponentPrinted(head, e, rest);
    NoPoint(head, PrintExp(e) + rest);
  }

  lemma PointSplit(head: string, frac: string, tail: string)
    ensures var t := head + "." + frac + tail;
      |t| > |head| && t[|head|] == '.' && t[|head| + 1..] == frac + tail && |head + "." + frac| == |head| + 1 + |frac|
  {
    var t := head + "." + frac + tail;
    SeqFacts.Assoc(head + ".", frac, tail);
    SeqFacts.Skip(head + ".", frac + tail);
    assert t[|head|] == (head + ".")[|head|];
  }

  lemma StopFraction(head: string, frac: string, e: Exponent, rest: string)
    requires frac != "" && Digits(frac) && ExpOk(e) && EndsValue(rest)
    ensures StopFrom(head + "." + frac + (PrintExp(e) + rest), |head|) == |head| + 1 + |frac| + |PrintExp(e)|
  {
    hide *;
    var tail := PrintExp(e) + rest;
    EndsDelimited(rest);
    AfterDigits(e, rest);
    LeadPrinted(frac, tail);
    ExponentPrinted(head + "." + frac, e, rest);
    PointSplit(head, frac, tail);
    PointAt(head, head + "." + frac + tail, |frac|);
  }

  lemma StopAfterWhole(head: string, frac: string, e: Exponent, rest: string)
    requires Digits(frac) && ExpOk(e) && EndsValue(rest)
    ensures var t := head + (PrintFracExp(frac, e) + rest);
      StopFrom(t, |head|) == |head| + |PrintFracExp(frac, e)|
  {
    hide StopFrom, PrintExp, ExpOk, EndsValue;
    if frac == "" {
      assert PrintFracExp(frac, e) == PrintExp(e);
      StopNoFraction(head, e, rest);
    } else {
      FractionText(head, frac, e, rest);
      StopFraction(head, frac, e, rest);
    }
  }

  lemma NoPoint(head: string, tail: string)
    requires tail == "" || tail[0] != '.'
    ensures StopFrom(head + tail, |head|) == ExponentStop(head + tail, |head|)
  {
    hide ExponentStop, Lead;
    var t := head + tail;
    assert |head| < |t| ==> t[|head|] == tail[0];
  }

  lemma PointAt(head: string, t: string, n: nat)
    requires |t| > |head| && t[|head|] == '.' && Lead(t[|head| + 1..]) == n > 0
    ensures |head| + 1 + n <= |t| && StopFrom(t, |head|) == ExponentStop(t, |head| + 1 + n)
  {
    hide ExponentStop;
  }

  lemma FractionText(head: string, frac: string, e: Exponent, rest: string)
    requires frac != ""
    ensures head + (PrintFracExp(frac, e) + rest) == head + "." + frac + (PrintExp(e) + rest)
    ensures |PrintFracExp(frac, e)| == 1 + |frac| + |PrintExp(e)|
  {
    hide PrintExp;
    SeqFacts.Assoc("." + frac, PrintExp(e), rest);
    SeqFacts.Assoc(head, "." + frac, PrintExp(e) + rest);
    SeqFacts.Assoc(head, ".", frac);
  }

  lemma StrtolPrinted(n: Number)
    requires NumberOk(n)
    ensures Strtol(PrintNumber(n)) == WholeValue(n)
  {
    hide Lead;
    var sign := if n.minus then "-" else "";
    var tail := PrintFracExp(n.frac, n.exp);
    TailNotDigit(n, "");
    assert tail + "" == tail;
    SignedDigits(sign, n.whole, tail);
    LeadPrinted(n.whole, tail);
  }

  /** What the integer reader makes of a member's value. */
  function IntOf(v: Value): Option<int>
    requires Strict(v)
  {
    if v.Num? && |PrintNumber(v.num)| < BUF && INT_MIN <= WholeValue(v.num) <= INT_MAX
    then Some(WholeValue(v.num)) else None
  }

  predicate Plain(n: Number) {
    !n.minus && n.frac == "" && n.exp.NoExp?
  }

  /** What the session id reader makes of it: a plain integer, or nothing. */
  function U64Of(v: Value): Option<int>
    requires Strict(v)
  {
    if v.Num? && Plain(v.num) && |v.num.whole| < BUF && DigitsValue(v.num.whole) <= ULLONG_MAX
    then Some(DigitsValue(v.num.whole)) else None
  }

  lemma NotANumber(v: Value, rest: string)
    requires Loose(v) && !v.Num?
    ensures NumberStop(Print(v) + rest) == 0 && Lead(Print(v) + rest) == 0
  {
    var t := Print(v) + rest;
    PrintHead(v);
    assert t[0] == Print(v)[0];
    assert t[0..] == t;
  }

  lemma IntPrinted(v: Value, rest: string)
    requires Strict(v) && EndsValue(rest)
    ensures IntAt(Print(v) + rest) == IntOf(v)
  {
    hide Strtol, NumberStop, WholeValue;
    StrictIsLoose(v);
    if v.Num? {
      NumberTokenPrinted(v.num, rest);
      SeqFacts.Skip(Print(v), rest);
      NumberHead(v.num, rest);
    } else {
      NotANumber(v, rest);
    }
  }

  lemma U64NumberPrinted(n: Number, rest: string)
    requires NumberOk(n) && !n.minus && EndsValue(rest)
    ensures var t := PrintNumber(n) + rest;
      Lead(t) == |n.whole| && t[..|n.whole|] == n.whole
      && (EndsValue(t[|n.whole|..]) <==> n.frac == "" && n.exp.NoExp?)
  {
    var tail := PrintFracExp(n.frac, n.exp) + rest;
    PrintNumberSplit(n, rest);
    assert "" + (n.whole + tail) == n.whole + tail;
    TailNotDigit(n, rest);
    LeadPrinted(n.whole, tail);
    TailEnds(n, rest);
  }

  lemma U64Printed(v: Value, rest: string)
    requires Strict(v) && EndsValue(rest)
    ensures U64At(Print(v) + rest) == U64Of(v)
  {
    hide DigitsValue, EndsValue;
    StrictIsLoose(v);
    if !v.Num? {
      NotANumber(v, rest);
    } else if v.num.minus {
      assert (Print(v) + rest)[0] == '-';
    } else {
      U64NumberPrinted(v.num, rest);
    }
  }

  /** Behind the whole part stands a delimiter only when there is neither fraction nor exponent. */
  lemma TailEnds(n: Number, rest: string)
    requires NumberOk(n) && EndsValue(rest)
    ensures EndsValue(PrintFracExp(n.frac, n.exp) + rest) <==> n.frac == "" && n.exp.NoExp?
  {
    var p := PrintFracExp(n.frac, n.exp);
    if n.frac == "" && n.exp.NoExp? {
      assert p == "" && p + rest == rest;
    } else {
      assert (p + rest)[0] == p[0];
      assert n.frac != "" ==> p[0] == '.';
      assert n.frac == "" ==> p == PrintExp(n.exp);
    }
  }

  lemma {:induction false} HolderIsStrict(items: Items, key: string)
    requires StrictMembers(items) && Holder(items, key).Some?
    ensures var at := Holder(items, key).value;
      Strict(at.value) && Blank(at.trail) && (at.More? ==> at.sep == ',')
  {
    if items.value.raw != key {
      HolderIsStrict(items.rest.rest, key);
    }
  }

  /** The value that a Holder's text starts with, and that it is followed by a delimiter. */
  lemma HeadOfItems(at: Items, t: string) returns (rest: string)
    requires Blank(at.trail) && (at.More? ==> at.sep == ',')
    ensures PrintItems(at) + (['}'] + t) == Print(at.value) + rest && EndsValue(rest)
  {
    var end := ['}'] + t;
    if at.Last? {
      rest := at.trail + end;
      SeqFacts.Assoc(Print(at.value), at.trail, end);
      assert at.trail == "" ==> rest == end;
    } else {
      rest := at.trail + ([at.sep] + (at.lead + (PrintItems(at.rest) + end)));
      SeqFacts.Assoc6(Print(at.value), at.trail, [at.sep], at.lead, PrintItems(at.rest), end);
      assert at.trail == "" ==> rest == [at.sep] + (at.lead + (PrintItems(at.rest) + end));
    }
  }

  /**
   On every printed object the readers return the first top-level member with the key when it is a
   number they can hold, and the fallback otherwise.
   */
  lemma ReadersAgree(d: Doc, key: string)
    requires Blank(d.lead) && Strict(d.value) && Blank(d.trail)
    requires (d.value.Empty? || d.value.Box?) && d.value.curly
    ensures match Member(d.value, key)
      case None => FindKey(PrintDoc(d), key, 0).None?
      case Some(at) =>
        && FindKey(PrintDoc(d), key, 0).Some? && Strict(at.value)
        && IntAt(FindKey(PrintDoc(d), key, 0).value) == IntOf(at.value)
        && U64At(FindKey(PrintDoc(d), key, 0).value) == U64Of(at.value)
  {
    hide FindKey, Holder, IntAt, U64At, IntOf, U64Of;
    FindsTheMember(d, key);
    if Member(d.value, key).Some? {
      HolderIsStrict(d.value.items, key);
      var at := Member(d.value, key).value;
      var rest := HeadOfItems(at, d.trail);
      IntPrinted(at.value, rest);
      U64Printed(at.value, rest);
    }
  }

  /**
   Which numbers the readers take, written out: printed in at most 31 characters, the one in 32 bits by its
   whole part, the other in 64 bits without a sign, a fraction or an exponent.
   */
  lemma NumbersTaken(v: Value, x: int)
    requires Strict(v)
    ensures IntOf(v) == Some(x) <==>
      && v.Num? && |Print(v)| <= 31
      && x == (if v.num.minus then -1 else 1) * DigitsValue(v.num.whole)
      && -2147483648 <= x <= 2147483647
    ensures U64Of(v) == Some(x) <==>
      && v.Num? && |v.num.whole| <= 31 && !v.num.minus && v.num.frac == "" && v.num.exp == NoExp
      && x == DigitsValue(v.num.whole) && x <= 18446744073709551615
  {
    hide DigitsValue, PrintNumber;
  }
}
