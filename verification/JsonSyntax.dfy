/**
 JSON text as a concrete syntax tree: every character of a document, white space included, has
 its place in the tree, so that statements about texts can be made about trees.
 */
module JsonSyntax {
  import opened Wrappers
  import SeqFacts

  predicate IsWs(c: char) {
    c == ' ' || c == '\t' || c == '\n' || c == '\r'
  }

  predicate Blank(s: string) {
    forall i :: 0 <= i < |s| ==> IsWs(s[i])
  }

  predicate IsDigit(c: char) {
    '0' <= c <= '9'
  }

  /** JSON's white space: space, tab, line feed and carriage return. */
  lemma WhiteSpaceIs(c: char)
    ensures IsWs(c) <==> c as int in {32, 9, 10, 13}
  {
  }

  predicate Digits(s: string) {
    forall i :: 0 <= i < |s| ==> IsDigit(s[i])
  }

  function DigitsValue(s: string): nat
    requires Digits(s)
    decreases |s|
  {
    if s == "" then 0 else DigitsValue(s[..|s| - 1]) * 10 + (s[|s| - 1] as int - '0' as int)
  }

  datatype Exponent = NoExp | Exp(mark: char, sign: string, digits: string)

  /** -? digits [. digits] [eE [+-] digits]; an empty `frac` stands for no fraction at all. */
  datatype Number = Number(minus: bool, whole: string, frac: string, exp: Exponent)

  /** `raw` is what stands between the quotes, escapes unresolved. */
  datatype Value =
    | Str(raw: string)
    | Word(text: string)
    | Num(num: Number)
    | Empty(curly: bool, gap: string)
    | Box(curly: bool, lead: string, items: Items)

  datatype Items =
    | Last(value: Value, trail: string)
    | More(value: Value, trail: string, sep: char, lead: string, rest: Items)

  /** A value with the white space around it. */
  datatype Doc = Doc(lead: string, value: Value, trail: string)

  function OpenOf(curly: bool): char { if curly then '{' else '[' }
  function CloseOf(curly: bool): char { if curly then '}' else ']' }

  function PrintExp(e: Exponent): string {
    if e.NoExp? then "" else [e.mark] + (e.sign + e.digits)
  }

  function PrintFrac(frac: string): string {
    if frac == "" then "" else "." + frac
  }

  function PrintFracExp(frac: string, e: Exponent): string {
    PrintFrac(frac) + PrintExp(e)
  }

  function PrintNumber(n: Number): string {
    (if n.minus then "-" else "") + (n.whole + PrintFracExp(n.frac, n.exp))
  }

  function Print(v: Value): string {
    match v
    case Str(raw) => ['"'] + raw + ['"']
    case Word(text) => text
    case Num(n) => PrintNumber(n)
    case Empty(curly, gap) => [OpenOf(curly)] + gap + [CloseOf(curly)]
    case Box(curly, lead, items) => [OpenOf(curly)] + lead + PrintItems(items) + [CloseOf(curly)]
  }

  function PrintItems(items: Items): string {
    match items
    case Last(v, trail) => Print(v) + trail
    case More(v, trail, sep, lead, rest) => Print(v) + trail + [sep] + lead + PrintItems(rest)
  }

  function PrintDoc(d: Doc): string {
    d.lead + Print(d.value) + d.trail
  }

  // ----- well-formedness -----

  /** String content: a backslash and any character behind it, no bare quote, no bare control character. */
  predicate RawOk(raw: string) {
    raw == "" ||
    (if raw[0] == '\\' then |raw| > 1 && RawOk(raw[2..])
     else raw[0] != '"' && raw[0] as int >= 0x20 && RawOk(raw[1..]))
  }

  predicate ExpOk(e: Exponent) {
    e.NoExp? || ((e.mark == 'e' || e.mark == 'E') && e.sign in ["", "+", "-"] && e.digits != "" && Digits(e.digits))
  }

  predicate NumberOk(n: Number) {
    n.whole != "" && Digits(n.whole) && Digits(n.frac) && ExpOk(n.exp)
  }

  predicate WordOk(text: string) {
    text == "true" || text == "false" || text == "null"
  }

  /** The loose grammar: items separated by commas or colons, which of the two is not looked at. */
  predicate Loose(v: Value) {
    match v
    case Str(raw) => RawOk(raw)
    case Word(text) => WordOk(text)
    case Num(n) => NumberOk(n)
    case Empty(_, gap) => Blank(gap)
    case Box(_, lead, items) => Blank(lead) && LooseItems(items)
  }

  predicate LooseItems(items: Items) {
    match items
    case Last(v, trail) => Loose(v) && Blank(trail)
    case More(v, trail, sep, lead, rest) =>
      Loose(v) && Blank(trail) && (sep == ',' || sep == ':') && Blank(lead) && LooseItems(rest)
  }

  function Max(a: nat, b: nat): nat { if a > b then a else b }

  function Depth(v: Value): nat {
    match v
    case Empty(_, _) => 1
    case Box(_, _, items) => 1 + DepthItems(items)
    case _ => 0
  }

  function DepthItems(items: Items): nat {
    match items
    case Last(v, _) => Depth(v)
    case More(v, _, _, _, rest) => Max(Depth(v), DepthItems(rest))
  }

  predicate DocOk(d: Doc) {
    Blank(d.lead) && Loose(d.value) && Blank(d.trail)
  }

  /**
   The shape of JSON: objects are key-colon-value members between commas, arrays have commas only. What
   stands behind a backslash and how a number starts is not looked at, so all of JSON is in it, and more.
   */
  predicate Strict(v: Value) {
    match v
    case Str(raw) => RawOk(raw)
    case Word(text) => WordOk(text)
    case Num(n) => NumberOk(n)
    case Empty(_, gap) => Blank(gap)
    case Box(curly, lead, items) => Blank(lead) && if curly then StrictMembers(items) else StrictElements(items)
  }

  predicate StrictElements(items: Items) {
    match items
    case Last(v, trail) => Strict(v) && Blank(trail)
    case More(v, trail, sep, lead, rest) =>
      Strict(v) && Blank(trail) && sep == ',' && Blank(lead) && StrictElements(rest)
  }

  predicate StrictMembers(items: Items) {
    && items.More? && items.value.Str? && RawOk(items.value.raw)
    && Blank(items.trail) && items.sep == ':' && Blank(items.lead)
    && match items.rest
       case Last(v, trail) => Strict(v) && Blank(trail)
       case More(v, trail, sep, lead, rest) =>
         Strict(v) && Blank(trail) && sep == ',' && Blank(lead) && StrictMembers(rest)
  }

  /** Every JSON document is in the loose grammar. */
  lemma StrictIsLoose(v: Value)
    requires Strict(v)
    ensures Loose(v)
  {
    match v
    case Box(curly, _, items) =>
      if curly {
        MembersAreLoose(items);
      } else {
        ElementsAreLoose(items);
      }
    case _ =>
  }

  lemma ElementsAreLoose(items: Items)
    requires StrictElements(items)
    ensures LooseItems(items)
  {
    StrictIsLoose(items.value);
    if items.More? {
      ElementsAreLoose(items.rest);
    }
  }

  lemma MembersAreLoose(items: Items)
    requires StrictMembers(items)
    ensures LooseItems(items)
  {
    StrictIsLoose(items.rest.value);
    if items.rest.More? {
      MembersAreLoose(items.rest.rest);
    }
  }

  // ----- reading tokens -----

  /** Reading string content up to its closing quote: the content and what follows the quote. */
  function ScanString(t: string): (r: (bool, string, string))
    ensures r.0 ==> |r.2| < |t|
  {
    if t == "" then (false, "", "")
    else if t[0] == '"' then (true, "", t[1..])
    else if t[0] == '\\' then
      if |t| == 1 then (false, "", "")
      else
        var (ok, raw, rest) := ScanString(t[2..]);
        (ok, t[..2] + raw, rest)
    else if (t[0] as int) < 0x20 then (false, "", "")
    else
      var (ok, raw, rest) := ScanString(t[1..]);
      (ok, t[..1] + raw, rest)
  }

  lemma {:induction false} ScanStringOnto(t: string)
    requires ScanString(t).0
    ensures RawOk(ScanString(t).1)
    ensures t == ScanString(t).1 + ['"'] + ScanString(t).2
  {
    if t[0] == '"' {
      SeqFacts.HeadTail(t);
    } else {
      var k := if t[0] == '\\' then 2 else 1;
      ScanStringOnto(t[k..]);
      var (_, raw, rest) := ScanString(t[k..]);
      SeqFacts.Join(t, k);
      SeqFacts.Assoc4(t[..k], raw, ['"'], rest);
      SeqFacts.Assoc(raw, ['"'], rest);
    }
  }

  lemma {:induction false} ScanPrintedString(raw: string, rest: string)
    requires RawOk(raw)
    ensures ScanString(raw + ['"'] + rest) == (true, raw, rest)
  {
    var t := raw + ['"'] + rest;
    if raw == "" {
      assert t == ['"'] + rest;
    } else if raw[0] == '\\' {
      ScanPrintedString(raw[2..], rest);
      assert t[0] == raw[0] && t[2..] == raw[2..] + ['"'] + rest && t[..2] == raw[..2];
      assert raw[..2] + raw[2..] == raw;
    } else {
      ScanPrintedString(raw[1..], rest);
      assert t[0] == raw[0] && t[1..] == raw[1..] + ['"'] + rest && t[..1] == raw[..1];
      assert raw[..1] + raw[1..] == raw;
    }
  }

  /** What may follow a number in a document. */
  predicate Delimited(rest: string) {
    rest == "" || IsWs(rest[0]) || rest[0] in [',', ':', ']', '}']
  }

  /** Where a number scan stands; the phases named First need one more digit. */
  datatype Phase = Start | WholeFirst | Whole | FracFirst | Frac | Mark | Sign | ExpFirst | ExpRest

  function Rank(p: Phase): nat {
    match p
    case Start => 3
    case Whole => 2
    case Frac => 2
    case Sign => 2
    case _ => 1
  }

  function Add(n: nat, o: Option<nat>): (r: Option<nat>)
    ensures r.Some? <==> o.Some?
  {
    if o.Some? then Some(n + o.value) else None
  }

  /** How much of t belongs to the number that is being read; None when it breaks off. */
  function NumberLength(t: string, p: Phase): (n: Option<nat>)
    ensures n.Some? ==> n.value <= |t|
    decreases |t|, Rank(p)
  {
    var digit := t != "" && IsDigit(t[0]);
    match p
    case Start => if t != "" && t[0] == '-' then Add(1, NumberLength(t[1..], WholeFirst)) else NumberLength(t, WholeFirst)
    case WholeFirst => if digit then Add(1, NumberLength(t[1..], Whole)) else None
    case Whole =>
      if digit then Add(1, NumberLength(t[1..], Whole))
      else if t != "" && t[0] == '.' then Add(1, NumberLength(t[1..], FracFirst))
      else NumberLength(t, Mark)
    case FracFirst => if digit then Add(1, NumberLength(t[1..], Frac)) else None
    case Frac => if digit then Add(1, NumberLength(t[1..], Frac)) else NumberLength(t, Mark)
    case Mark => if t != "" && (t[0] == 'e' || t[0] == 'E') then Add(1, NumberLength(t[1..], Sign)) else Some(0)
    case Sign =>
      if t != "" && (t[0] == '+' || t[0] == '-') then Add(1, NumberLength(t[1..], ExpFirst)) else NumberLength(t, ExpFirst)
    case ExpFirst => if digit then Add(1, NumberLength(t[1..], ExpRest)) else None
    case ExpRest => if digit then Add(1, NumberLength(t[1..], ExpRest)) else Some(0)
  }

  /** The phase a First phase leads to. */
  function After(p: Phase): Phase {
    match p
    case WholeFirst => Whole
    case FracFirst => Frac
    case ExpFirst => ExpRest
    case _ => p
  }

  lemma DigitStep(t: string, p: Phase)
    requires t != "" && IsDigit(t[0]) && p in {WholeFirst, Whole, FracFirst, Frac, ExpFirst, ExpRest}
    ensures NumberLength(t, p) == Add(1, NumberLength(t[1..], After(p)))
  {
  }

  lemma FirstDigit(t: string, p: Phase)
    requires t != "" && IsDigit(t[0]) && p in {WholeFirst, FracFirst, ExpFirst}
    ensures NumberLength(t, p) == NumberLength(t, After(p))
  {
  }

  lemma {:induction false} DigitsPass(d: string, rest: string, p: Phase)
    requires Digits(d) && p in {Whole, Frac, ExpRest}
    ensures NumberLength(d + rest, p) == Add(|d|, NumberLength(rest, p))
  {
    if d == "" {
      assert d + rest == rest;
    } else {
      SeqFacts.Uncons(d, rest);
      DigitStep(d + rest, p);
      DigitsPass(d[1..], rest, p);
    }
  }

  lemma FirstDigitsPass(d: string, rest: string, p: Phase)
    requires d != "" && Digits(d) && p in {WholeFirst, FracFirst, ExpFirst}
    ensures NumberLength(d + rest, p) == Add(|d|, NumberLength(rest, After(p)))
  {
    SeqFacts.Uncons(d, rest);
    FirstDigit(d + rest, p);
    DigitsPass(d, rest, After(p));
  }

  lemma ExpPrinted(e: Exponent, rest: string)
    requires ExpOk(e) && Delimited(rest)
    ensures NumberLength(PrintExp(e) + rest, Mark) == Some(|PrintExp(e)|)
  {
    if e.NoExp? {
      assert PrintExp(e) + rest == rest;
    } else {
      var u := e.digits + rest;
      SeqFacts.Assoc(e.sign, e.digits, rest);
      SeqFacts.Assoc([e.mark], e.sign + e.digits, rest);
      SeqFacts.Skip([e.mark], e.sign + u);
      assert ([e.mark] + (e.sign + u))[0] == e.mark;
      SignPrinted(e.sign, u);
      FirstDigitsPass(e.digits, rest, ExpFirst);
      assert NumberLength(rest, ExpRest) == Some(0);
    }
  }

  lemma SignPrinted(sign: string, u: string)
    requires sign in ["", "+", "-"] && u != "" && (sign == "" ==> u[0] != '+' && u[0] != '-')
    ensures NumberLength(sign + u, Sign) == Add(|sign|, NumberLength(u, ExpFirst))
  {
    if sign == "" {
      assert sign + u == u;
    } else {
      SeqFacts.Skip(sign, u);
      assert (sign + u)[0] == sign[0];
    }
  }

  /** What follows the digits of the whole part or of the fraction. */
  lemma AfterDigits(e: Exponent, rest: string)
    requires ExpOk(e) && Delimited(rest)
    ensures var t := PrintExp(e) + rest; t == "" || (!IsDigit(t[0]) && t[0] != '.')
  {
    var t := PrintExp(e) + rest;
    if e.NoExp? {
      assert t == rest;
    } else {
      assert t[0] == e.mark;
    }
  }

  lemma FracPrinted(frac: string, e: Exponent, rest: string)
    requires Digits(frac) && ExpOk(e) && Delimited(rest)
    ensures NumberLength(PrintFracExp(frac, e) + rest, Whole) == Some(|PrintFracExp(frac, e)|)
  {
    var t := PrintExp(e) + rest;
    SeqFacts.Assoc(PrintFrac(frac), PrintExp(e), rest);
    ExpPrinted(e, rest);
    AfterDigits(e, rest);
    if frac == "" {
      assert PrintFrac(frac) + t == t;
    } else {
      SeqFacts.Assoc(".", frac, t);
      SeqFacts.Skip(".", frac + t);
      assert ("." + (frac + t))[0] == '.';
      FirstDigitsPass(frac, t, FracFirst);
    }
  }

  lemma PrintNumberSplit(n: Number, rest: string)
    ensures PrintNumber(n) + rest
         == (if n.minus then "-" else "") + (n.whole + (PrintFracExp(n.frac, n.exp) + rest))
    ensures |PrintNumber(n)| == (if n.minus then 1 else 0) + |n.whole| + |PrintFracExp(n.frac, n.exp)|
  {
    SeqFacts.Assoc(n.whole, PrintFracExp(n.frac, n.exp), rest);
    SeqFacts.Assoc(if n.minus then "-" else "", n.whole + PrintFracExp(n.frac, n.exp), rest);
  }

  /** A printed number in front of a delimiter is read back in full. */
  lemma NumberPrinted(n: Number, rest: string)
    requires NumberOk(n) && Delimited(rest)
    ensures NumberLength(PrintNumber(n) + rest, Start) == Some(|PrintNumber(n)|)
  {
    var tail := PrintFracExp(n.frac, n.exp) + rest;
    var u := n.whole + tail;
    PrintNumberSplit(n, rest);
    FracPrinted(n.frac, n.exp, rest);
    FirstDigitsPass(n.whole, tail, WholeFirst);
    assert u[0] == n.whole[0];
    if n.minus {
      SeqFacts.Skip("-", u);
      assert ("-" + u)[0] == '-';
    } else {
      assert "" + u == u;
    }
  }

  lemma NumberHead(n: Number, t: string)
    requires NumberOk(n)
    ensures |PrintNumber(n)| > 0
    ensures (PrintNumber(n) + t)[0] == '-' || IsDigit((PrintNumber(n) + t)[0])
  {
    assert (PrintNumber(n) + t)[0] == if n.minus then '-' else n.whole[0];
  }

  lemma {:induction false} DigitsOnto(t: string, p: Phase) returns (d: string, rest: string)
    requires NumberLength(t, p).Some? && p in {Whole, Frac, ExpRest}
    ensures Digits(d) && t == d + rest && (rest == "" || !IsDigit(rest[0]))
    ensures NumberLength(t, p) == Add(|d|, NumberLength(rest, p))
  {
    if t != "" && IsDigit(t[0]) {
      DigitStep(t, p);
      d, rest := DigitsOnto(t[1..], p);
      SeqFacts.Prepend(t, t[1..], "");
      SeqFacts.Assoc([t[0]], d, rest);
      d := [t[0]] + d;
    } else {
      d, rest := "", t;
    }
  }

  lemma FirstDigitsOnto(t: string, p: Phase) returns (d: string, rest: string)
    requires NumberLength(t, p).Some? && p in {WholeFirst, FracFirst, ExpFirst}
    ensures d != "" && Digits(d) && t == d + rest && (rest == "" || !IsDigit(rest[0]))
    ensures NumberLength(t, p) == Add(|d|, NumberLength(rest, After(p)))
  {
    DigitStep(t, p);
    d, rest := DigitsOnto(t[1..], After(p));
    SeqFacts.HeadTail(t);
    SeqFacts.Assoc([t[0]], d, rest);
    d := [t[0]] + d;
  }

  lemma SignOnto(t: string) returns (sign: string, rest: string)
    requires NumberLength(t, Sign).Some?
    ensures sign in ["", "+", "-"] && t == sign + rest
    ensures NumberLength(t, Sign) == Add(|sign|, NumberLength(rest, ExpFirst))
  {
    if t != "" && (t[0] == '+' || t[0] == '-') {
      sign, rest := [t[0]], t[1..];
      SeqFacts.HeadTail(t);
    } else {
      sign, rest := "", t;
    }
  }

  lemma ExpOnto(t: string) returns (e: Exponent, rest: string)
    requires NumberLength(t, Mark).Some?
    ensures ExpOk(e) && t == PrintExp(e) + rest && NumberLength(t, Mark).value == |PrintExp(e)|
  {
    if t == "" || !(t[0] == 'e' || t[0] == 'E') {
      e, rest := NoExp, t;
    } else {
      var sign, u := SignOnto(t[1..]);
      var digits, v := FirstDigitsOnto(u, ExpFirst);
      e, rest := Exp(t[0], sign, digits), v;
      SeqFacts.HeadTail(t);
      SeqFacts.Assoc(sign, digits, v);
      SeqFacts.Assoc([t[0]], sign + digits, v);
    }
  }

  lemma AfterWhole(t: string)
    requires t == "" || !IsDigit(t[0])
    ensures NumberLength(t, Whole)
         == if t != "" && t[0] == '.' then Add(1, NumberLength(t[1..], FracFirst)) else NumberLength(t, Mark)
  {
  }

  lemma AfterFrac(t: string)
    requires t == "" || !IsDigit(t[0])
    ensures NumberLength(t, Frac) == NumberLength(t, Mark)
  {
  }

  lemma FracOnto(t: string) returns (frac: string, e: Exponent, rest: string)
    requires NumberLength(t, Whole).Some? && (t == "" || !IsDigit(t[0]))
    ensures Digits(frac) && ExpOk(e)
    ensures t == PrintFracExp(frac, e) + rest && NumberLength(t, Whole).value == |PrintFracExp(frac, e)|
  {
    AfterWhole(t);
    if t != "" && t[0] == '.' {
      hide NumberLength;
      var u;
      frac, u := FirstDigitsOnto(t[1..], FracFirst);
      AfterFrac(u);
      e, rest := ExpOnto(u);
      SeqFacts.HeadTail(t);
      SeqFacts.Assoc(frac, PrintExp(e), rest);
      SeqFacts.Assoc(".", frac, PrintExp(e) + rest);
      SeqFacts.Assoc("." + frac, PrintExp(e), rest);
    } else {
      frac := "";
      e, rest := ExpOnto(t);
    }
  }

  lemma MinusOnto(t: string) returns (minus: bool, rest: string)
    requires NumberLength(t, Start).Some?
    ensures t == (if minus then "-" else "") + rest
    ensures NumberLength(t, Start) == Add(if minus then 1 else 0, NumberLength(rest, WholeFirst))
  {
    if t != "" && t[0] == '-' {
      minus, rest := true, t[1..];
      SeqFacts.HeadTail(t);
    } else {
      minus, rest := false, t;
    }
  }

  /** Whatever is read as a number is one. */
  lemma NumberOnto(t: string) returns (n: Number, rest: string)
    requires NumberLength(t, Start).Some?
    ensures NumberOk(n) && t == PrintNumber(n) + rest
    ensures NumberLength(t, Start).value == |PrintNumber(n)| > 0
  {
    var minus, u := MinusOnto(t);
    var whole, v := FirstDigitsOnto(u, WholeFirst);
    var frac, e, w := FracOnto(v);
    n, rest := Number(minus, whole, frac, e), w;
    PrintNumberSplit(n, rest);
  }
}
