/**
 Redaction as a rewriting of the document tree, and the proof that the text walk performs it.
 */
module JsonRedaction {
  import opened Wrappers
  import opened JsonSyntax
  import opened JsonEscapes
  import opened JsonScan
  import opened JsonRedactor
  import SeqFacts

  // ----- the tree -----

  /** What stands in the place of a value under a sensitive key: scalars other than strings stay. */
  function Veil(v: Value, p: Policy): Value {
    match v
    case Str(raw) => Str(Escape(Substitute(p, Decoded(raw))))
    case Word(_) => v
    case Num(_) => v
    case _ => Str(Escape(Substitute(p, Print(v))))
  }

  /** The document without white space between tokens and with its sensitive members veiled. */
  function Redact(v: Value, p: Policy): Value
    decreases v, 0
  {
    match v
    case Empty(curly, _) => Empty(curly, "")
    case Box(curly, _, items) => Box(curly, "", if curly then RedactMembers(items, p) else RedactElements(items, p))
    case _ => v
  }

  function RedactElements(items: Items, p: Policy): Items
    decreases items, 0
  {
    match items
    case Last(v, _) => Last(Redact(v, p), "")
    case More(v, _, sep, _, rest) => More(Redact(v, p), "", sep, "", RedactElements(rest, p))
  }

  function RedactMember(key: Value, v: Value, p: Policy): Value
    decreases v, 1
  {
    if key.Str? && key.raw in SENSITIVE then Veil(v, p) else Redact(v, p)
  }

  function RedactMembers(items: Items, p: Policy): Items
    decreases items, 0
  {
    match items
    case Last(v, _) => Last(v, "")
    case More(key, _, colon, _, Last(v, _)) => More(key, "", colon, "", Last(RedactMember(key, v, p), ""))
    case More(key, _, colon, _, More(v, _, sep, _, rest)) =>
      More(key, "", colon, "", More(RedactMember(key, v, p), "", sep, "", RedactMembers(rest, p)))
  }

  // ----- the walks on printed text -----

  lemma {:induction false} BalanceUnmarked(s: string, t: string, curly: bool, depth: int)
    requires Unmarked(s)
    ensures Balance(s + t, curly, depth) == Balance(t, curly, depth)
  {
    if s == "" {
      assert s + t == t;
    } else {
      SeqFacts.Uncons(s, t);
      BalanceUnmarked(s[1..], t, curly, depth);
    }
  }

  lemma BalanceOpen(mine: bool, t: string, curly: bool, depth: int)
    ensures Balance([OpenOf(mine)] + t, curly, depth) == Balance(t, curly, if mine == curly then depth + 1 else depth)
  {
    SeqFacts.Skip([OpenOf(mine)], t);
    assert ([OpenOf(mine)] + t)[0] == OpenOf(mine);
  }

  lemma BalanceClose(mine: bool, t: string, curly: bool, depth: int)
    ensures Balance([CloseOf(mine)] + t, curly, depth)
         == if mine != curly then Balance(t, curly, depth) else if depth == 1 then Some(t) else Balance(t, curly, depth - 1)
  {
    SeqFacts.Skip([CloseOf(mine)], t);
    assert ([CloseOf(mine)] + t)[0] == CloseOf(mine);
  }

  lemma BalanceString(raw: string, t: string, curly: bool, depth: int)
    requires RawOk(raw)
    ensures Balance(Print(Str(raw)) + t, curly, depth) == Balance(t, curly, depth)
  {
    StringPrinted(raw, t);
    assert (Print(Str(raw)) + t)[0] == '"';
  }

  lemma BalanceScalar(v: Value, t: string, curly: bool, depth: int)
    requires Loose(v) && (v.Word? || v.Num?)
    ensures Balance(Print(v) + t, curly, depth) == Balance(t, curly, depth)
  {
    if v.Num? {
      NumberIsNumberText(v.num);
    }
    BalanceUnmarked(Print(v), t, curly, depth);
  }

  /** A value inside a container does not end it. */
  lemma {:induction false} BalanceValue(v: Value, t: string, curly: bool, depth: int)
    requires Loose(v) && depth >= 1
    ensures Balance(Print(v) + t, curly, depth) == Balance(t, curly, depth)
    decreases v, 1
  {
    match v
    case Str(raw) => BalanceString(raw, t, curly, depth);
    case Word(_) => BalanceScalar(v, t, curly, depth);
    case Num(_) => BalanceScalar(v, t, curly, depth);
    case Empty(mine, gap) =>
      var close := [CloseOf(mine)] + t;
      var inner := if mine == curly then depth + 1 else depth;
      SeqFacts.Assoc4([OpenOf(mine)], gap, [CloseOf(mine)], t);
      BalanceOpen(mine, gap + close, curly, depth);
      BalanceUnmarked(gap, close, curly, inner);
      BalanceClose(mine, t, curly, inner);
    case Box(mine, lead, items) =>
      var close := [CloseOf(mine)] + t;
      var inner := if mine == curly then depth + 1 else depth;
      SeqFacts.Assoc5([OpenOf(mine)], lead, PrintItems(items), [CloseOf(mine)], t);
      BalanceOpen(mine, lead + (PrintItems(items) + close), curly, depth);
      BalanceUnmarked(lead, PrintItems(items) + close, curly, inner);
      BalanceItems(items, close, curly, inner);
      BalanceClose(mine, t, curly, inner);
  }

  lemma {:induction false} BalanceItems(items: Items, t: string, curly: bool, depth: int)
    requires LooseItems(items) && depth >= 1
    ensures Balance(PrintItems(items) + t, curly, depth) == Balance(t, curly, depth)
    decreases items, 0
  {
    match items
    case Last(v, trail) =>
      SeqFacts.Assoc(Print(v), trail, t);
      BalanceValue(v, trail + t, curly, depth);
      BalanceUnmarked(trail, t, curly, depth);
    case More(v, trail, sep, lead, rest) =>
      var u := lead + (PrintItems(rest) + t);
      SeqFacts.Assoc6(Print(v), trail, [sep], lead, PrintItems(rest), t);
      BalanceValue(v, trail + ([sep] + u), curly, depth);
      BalanceUnmarked(trail, [sep] + u, curly, depth);
      BalanceUnmarked([sep], u, curly, depth);
      BalanceUnmarked(lead, PrintItems(rest) + t, curly, depth);
      BalanceItems(rest, t, curly, depth);
  }

  lemma {:induction false} NumberCharsPrinted(s: string, rest: string)
    requires NumberText(s) && Delimited(rest)
    ensures NumberChars(s + rest) == |s|
  {
    if s == "" {
      assert s + rest == rest;
    } else {
      SeqFacts.Uncons(s, rest);
      NumberCharsPrinted(s[1..], rest);
    }
  }

  /** A container's printed text is balanced, whatever follows it. */
  lemma BalanceContainer(v: Value, rest: string)
    requires Loose(v) && (v.Empty? || v.Box?)
    ensures Balance(Print(v) + rest, v.curly, 0) == Some(rest)
  {
    var close := [CloseOf(v.curly)] + rest;
    if v.Empty? {
      SeqFacts.Assoc4([OpenOf(v.curly)], v.gap, [CloseOf(v.curly)], rest);
      BalanceOpen(v.curly, v.gap + close, v.curly, 0);
      BalanceUnmarked(v.gap, close, v.curly, 1);
    } else {
      SeqFacts.Assoc5([OpenOf(v.curly)], v.lead, PrintItems(v.items), [CloseOf(v.curly)], rest);
      BalanceOpen(v.curly, v.lead + (PrintItems(v.items) + close), v.curly, 0);
      BalanceUnmarked(v.lead, PrintItems(v.items) + close, v.curly, 1);
      BalanceItems(v.items, close, v.curly, 1);
    }
    BalanceClose(v.curly, rest, v.curly, 1);
  }

  lemma WordSpan(w: string, rest: string)
    requires WordOk(w)
    ensures ValueSpan(w + rest) == Some((w, rest))
  {
    SeqFacts.Skip(w, rest);
    assert (w + rest)[0] == w[0];
  }

  lemma SpanPrinted(v: Value, rest: string)
    requires Loose(v) && Delimited(rest)
    ensures (Print(v) + rest)[..1] == Print(v)[..1] && Print(v) != "" && !IsWs(Print(v)[0])
    ensures ValueSpan(Print(v) + rest) == Some((Print(v), rest))
  {
    PrintHead(v);
    SeqFacts.Skip(Print(v), rest);
    assert (Print(v) + rest)[0] == Print(v)[0];
    match v
    case Str(raw) => StringPrinted(raw, rest);
    case Word(w) => WordSpan(w, rest);
    case Num(n) =>
      NumberIsNumberText(n);
      NumberCharsPrinted(PrintNumber(n), rest);
      NotAWord(Print(v) + rest);
    case _ => BalanceContainer(v, rest);
  }

  lemma NotAWord(t: string)
    requires t != "" && t[0] !in {'t', 'f', 'n'}
    ensures !("true" <= t) && !("false" <= t) && !("null" <= t)
  {
  }

  // ----- the theorem -----

  lemma DelimitedAfter(trail: string, c: char, t: string)
    requires Blank(trail) && c in {',', ':', ']', '}'}
    ensures Delimited(trail + ([c] + t)) && SkipWs(trail + ([c] + t)) == [c] + t
  {
    SkipBlank(trail, [c] + t);
    assert trail == "" ==> (trail + ([c] + t)) == [c] + t;
    assert ([c] + t)[0] == c;
  }

  lemma VeilPrinted(v: Value, p: Policy)
    requires Loose(v)
    ensures Print(v) != "" && (v.Str? ==> |Print(v)| >= 2)
    ensures (Print(v)[0] == '"') == v.Str?
    ensures Hidden(Print(v), p) == Print(Veil(v, p))
  {
    PrintHead(v);
    if v.Str? {
      assert Print(v)[1..|Print(v)| - 1] == v.raw;
    }
  }

  /** After an item: nothing more. */
  lemma WalkLast(trail: string, curly: bool, rest: string, p: Policy)
    requires Blank(trail)
    ensures WalkRest(trail + ([CloseOf(curly)] + rest), curly, p) == Some([CloseOf(curly)])
  {
    DelimitedAfter(trail, CloseOf(curly), rest);
    assert ([CloseOf(curly)] + rest)[0] == CloseOf(curly);
  }

  lemma WalkItemsBlank(lead: string, t: string, curly: bool, p: Policy)
    requires Blank(lead)
    ensures WalkItems(lead + t, curly, p) == WalkItems(t, curly, p)
  {
    SkipBlank(lead, t);
  }

  /** After an item: a comma and more. */
  lemma WalkMore(trail: string, lead: string, t: string, curly: bool, p: Policy)
    requires Blank(trail) && Blank(lead)
    ensures var more := WalkItems(t, curly, p);
      WalkRest(trail + ([','] + (lead + t)), curly, p) == if more.None? then None else Some([','] + more.value)
  {
    var u := [','] + (lead + t);
    DelimitedAfter(trail, ',', lead + t);
    SeqFacts.Skip([','], lead + t);
    assert u[0] == ',';
    WalkItemsBlank(lead, t, curly, p);
  }

  /** One array element, and the walk of what follows it. */
  lemma WalkElement(v: Value, rest: string, p: Policy)
    requires Strict(v) && Delimited(rest)
    requires WalkPlain(Print(v) + rest, p) == Some(Print(Redact(v, p)))
    ensures var more := WalkRest(rest, false, p);
      WalkItems(Print(v) + rest, false, p) == if more.None? then None else Some(Print(Redact(v, p)) + more.value)
  {
    StrictIsLoose(v);
    SpanPrinted(v, rest);
    SkipNothing(Print(v), rest);
  }

  lemma SkipNothing(s: string, rest: string)
    requires s != "" && !IsWs(s[0])
    ensures SkipWs(s + rest) == s + rest
  {
    assert (s + rest)[0] == s[0];
  }

  /** One object member, and the walk of what follows it. */
  lemma WalkMember(key: string, gap: string, lead: string, v: Value, rest: string, p: Policy)
    requires RawOk(key) && Blank(gap) && Blank(lead) && Strict(v) && Delimited(rest)
    requires WalkPlain(Print(v) + rest, p) == Some(Print(Redact(v, p)))
    ensures var more := WalkRest(rest, true, p);
      WalkItems(Print(Str(key)) + (gap + ([':'] + (lead + (Print(v) + rest)))), true, p)
      == if more.None? then None
         else Some(Print(Str(key)) + [':'] + Print(RedactMember(Str(key), v, p)) + more.value)
  {
    var w := Print(v) + rest;
    var c := [':'] + (lead + w);
    var t := Print(Str(key)) + (gap + c);
    StrictIsLoose(v);
    SkipNothing(Print(Str(key)), gap + c);
    StringPrinted(key, gap + c);
    DelimitedAfter(gap, ':', lead + w);
    SeqFacts.Skip([':'], lead + w);
    assert c[0] == ':';
    SpanPrinted(v, rest);
    SkipBlank(lead, w);
    SkipNothing(Print(v), rest);
    VeilPrinted(v, p);
    MemberStep(t, key, gap + c, c, w, p);
  }

  /** A document value in place is copied, redacted. */
  lemma {:induction false} PlainPrinted(v: Value, rest: string, p: Policy)
    requires Strict(v) && Delimited(rest)
    ensures Print(v) + rest != "" && !IsWs((Print(v) + rest)[0])
    ensures WalkPlain(Print(v) + rest, p) == Some(Print(Redact(v, p)))
    decreases v, 2
  {
    var t := Print(v) + rest;
    StrictIsLoose(v);
    SpanPrinted(v, rest);
    PrintHead(v);
    assert t[0] == Print(v)[0];
    if v.Empty? || v.Box? {
      ContainerPrinted(v, rest, p);
    }
  }

  lemma {:induction false} ContainerPrinted(v: Value, rest: string, p: Policy)
    requires Strict(v) && (v.Empty? || v.Box?)
    ensures IsContainer(Print(v) + rest)
    ensures WalkContainer(Print(v) + rest, p) == Some(Print(Redact(v, p)))
    decreases v, 1
  {
    var open, close := [OpenOf(v.curly)], [CloseOf(v.curly)];
    var t := Print(v) + rest;
    if v.Empty? {
      SeqFacts.Assoc4(open, v.gap, close, rest);
      SeqFacts.Skip(open, v.gap + (close + rest));
      assert t[0] == OpenOf(v.curly);
      DelimitedAfter(v.gap, CloseOf(v.curly), rest);
      assert (close + rest)[0] == CloseOf(v.curly);
      assert Print(Redact(v, p)) == open + "" + close == [OpenOf(v.curly), CloseOf(v.curly)];
    } else {
      var body := PrintItems(v.items) + (close + rest);
      SeqFacts.Assoc5(open, v.lead, PrintItems(v.items), close, rest);
      SeqFacts.Skip(open, v.lead + body);
      assert t[0] == OpenOf(v.curly);
      SkipBlank(v.lead, body);
      ItemsHead(v.items, close + rest, v.curly);
      if v.curly {
        MembersPrinted(v.items, rest, p);
      } else {
        ElementsPrinted(v.items, rest, p);
      }
      BoxPrinted(v, p);
    }
  }

  lemma BoxPrinted(v: Value, p: Policy)
    requires v.Box?
    ensures Print(Redact(v, p)) == [OpenOf(v.curly)] + (PrintItems(Redact(v, p).items) + [CloseOf(v.curly)])
  {
    var items := PrintItems(Redact(v, p).items);
    assert [OpenOf(v.curly)] + "" == [OpenOf(v.curly)];
    SeqFacts.Assoc([OpenOf(v.curly)], items, [CloseOf(v.curly)]);
  }

  lemma ItemsHead(items: Items, t: string, curly: bool)
    requires if curly then StrictMembers(items) else StrictElements(items)
    ensures var u := PrintItems(items) + t; u != "" && !IsWs(u[0]) && u[0] != CloseOf(curly) && SkipWs(u) == u
  {
    if curly {
      MembersAreLoose(items);
    } else {
      ElementsAreLoose(items);
    }
    PrintHead(items.value);
    assert (PrintItems(items) + t)[0] == Print(items.value)[0];
  }

  lemma {:induction false} ElementsPrinted(items: Items, rest: string, p: Policy)
    requires StrictElements(items)
    ensures WalkItems(PrintItems(items) + ([']'] + rest), false, p) == Some(PrintItems(RedactElements(items, p)) + [']'])
    decreases items, 0
  {
    var end := [']'] + rest;
    match items
    case Last(v, trail) =>
      SeqFacts.Assoc(Print(v), trail, end);
      DelimitedAfter(trail, ']', rest);
      PlainPrinted(v, trail + end, p);
      WalkElement(v, trail + end, p);
      WalkLast(trail, false, rest, p);
      assert Print(Redact(v, p)) + "" == Print(Redact(v, p));
    case More(v, trail, sep, lead, more) =>
      var u := PrintItems(more) + end;
      SeqFacts.Assoc6(Print(v), trail, [sep], lead, PrintItems(more), end);
      DelimitedAfter(trail, ',', lead + u);
      PlainPrinted(v, trail + ([sep] + (lead + u)), p);
      WalkElement(v, trail + ([sep] + (lead + u)), p);
      WalkMore(trail, lead, u, false, p);
      ElementsPrinted(more, rest, p);
      ItemsPrinted(Redact(v, p), ',', RedactElements(more, p), [']']);
  }

  /** A compact list, printed piece by piece. */
  lemma ItemsPrinted(v: Value, sep: char, more: Items, end: string)
    ensures PrintItems(More(v, "", sep, "", more)) + end == Print(v) + ([sep] + (PrintItems(more) + end))
  {
    assert Print(v) + "" + [sep] + "" == Print(v) + [sep];
    SeqFacts.Assoc4(Print(v), [sep], PrintItems(more), end);
  }

  lemma MemberPrinted(key: Value, v: Value, end: string, compact: Items)
    requires compact == More(key, "", ':', "", Last(v, ""))
    ensures PrintItems(compact) + end == Print(key) + [':'] + Print(v) + end
  {
    assert Print(v) + "" == Print(v);
    ItemsPrinted(key, ':', Last(v, ""), end);
    SeqFacts.Assoc4(Print(key), [':'], Print(v), end);
  }

  lemma {:induction false} MembersPrinted(items: Items, rest: string, p: Policy)
    requires StrictMembers(items)
    ensures WalkItems(PrintItems(items) + (['}'] + rest), true, p) == Some(PrintItems(RedactMembers(items, p)) + ['}'])
    decreases items, 0
  {
    var end := ['}'] + rest;
    var key, gap, lead := items.value, items.trail, items.lead;
    match items.rest
    case Last(v, trail) =>
      SeqFacts.Assoc6(Print(key), gap, [':'], lead, Print(v) + trail, end);
      SeqFacts.Assoc(Print(v), trail, end);
      DelimitedAfter(trail, '}', rest);
      PlainPrinted(v, trail + end, p);
      WalkMember(key.raw, gap, lead, v, trail + end, p);
      WalkLast(trail, true, rest, p);
      MemberPrinted(key, RedactMember(key, v, p), ['}'], RedactMembers(items, p));
    case More(v, trail, sep, lead', more) =>
      var u := PrintItems(more) + end;
      SeqFacts.Assoc6(Print(key), gap, [':'], lead, PrintItems(items.rest), end);
      SeqFacts.Assoc6(Print(v), trail, [sep], lead', PrintItems(more), end);
      DelimitedAfter(trail, ',', lead' + u);
      PlainPrinted(v, trail + ([sep] + (lead' + u)), p);
      WalkMember(key.raw, gap, lead, v, trail + ([sep] + (lead' + u)), p);
      WalkMore(trail, lead', u, true, p);
      MembersPrinted(more, rest, p);
      MembersPrintedStep(key, RedactMember(key, v, p), RedactMembers(more, p));
  }

  lemma MembersPrintedStep(key: Value, v: Value, more: Items)
    ensures PrintItems(More(key, "", ':', "", More(v, "", ',', "", more))) + ['}']
         == Print(key) + [':'] + Print(v) + ([','] + (PrintItems(more) + ['}']))
  {
    ItemsPrinted(key, ':', More(v, "", ',', "", more), ['}']);
    ItemsPrinted(v, ',', more, ['}']);
    SeqFacts.Assoc4(Print(key), [':'], Print(v), [','] + (PrintItems(more) + ['}']));
  }

  /** On every JSON document the text walk writes the print of the redacted tree. */
  lemma RedactionCommutes(d: Doc, p: Policy)
    requires Blank(d.lead) && Strict(d.value) && Blank(d.trail)
    ensures WalkValue(PrintDoc(d), p) == Some(Print(Redact(d.value, p)))
  {
    SeqFacts.Assoc(d.lead, Print(d.value), d.trail);
    PlainPrinted(d.value, d.trail, p);
    StrictIsLoose(d.value);
    SpanPrinted(d.value, d.trail);
    SkipBlank(d.lead, Print(d.value) + d.trail);
  }

  // ----- what the rewriting keeps -----

  /** A redacted document is again a JSON document. */
  lemma {:induction false} RedactedIsStrict(v: Value, p: Policy)
    requires Strict(v)
    ensures Strict(Redact(v, p))
    decreases v, 2
  {
    if v.Box? {
      if v.curly {
        RedactedMembersAreStrict(v.items, p);
      } else {
        RedactedElementsAreStrict(v.items, p);
      }
    }
  }

  lemma RedactedMemberIsStrict(key: Value, v: Value, p: Policy)
    requires Strict(v)
    ensures Strict(RedactMember(key, v, p))
    decreases v, 3
  {
    EscapedIsRaw(Substitute(p, Print(v)));
    if v.Str? {
      EscapedIsRaw(Substitute(p, Decoded(v.raw)));
    }
    RedactedIsStrict(v, p);
  }

  lemma {:induction false} RedactedElementsAreStrict(items: Items, p: Policy)
    requires StrictElements(items)
    ensures StrictElements(RedactElements(items, p))
    decreases items, 2
  {
    RedactedIsStrict(items.value, p);
    if items.More? {
      RedactedElementsAreStrict(items.rest, p);
    }
  }

  lemma {:induction false} RedactedMembersAreStrict(items: Items, p: Policy)
    requires StrictMembers(items)
    ensures StrictMembers(RedactMembers(items, p))
    decreases items, 2
  {
    RedactedMemberIsStrict(items.value, items.rest.value, p);
    if items.rest.More? {
      RedactedMembersAreStrict(items.rest.rest, p);
    }
  }

  /** The i-th element of an array, or the i-th member of an object with its key. */
  function Child(v: Value, i: nat): Option<(Option<string>, Value)> {
    if !v.Box? then None else if v.curly then MemberAt(v.items, i) else ElementAt(v.items, i)
  }

  function ElementAt(items: Items, i: nat): Option<(Option<string>, Value)> {
    if i == 0 then Some((None, items.value))
    else if items.More? then ElementAt(items.rest, i - 1)
    else None
  }

  function MemberAt(items: Items, i: nat): Option<(Option<string>, Value)> {
    if !(items.More? && items.value.Str?) then None
    else if i == 0 then Some((Some(items.value.raw), items.rest.value))
    else if items.rest.More? then MemberAt(items.rest.rest, i - 1)
    else None
  }

  function Lookup(v: Value, path: seq<nat>): Option<Value>
    decreases |path|
  {
    if path == [] then Some(v)
    else
      match Child(v, path[0])
      case None => None
      case Some((_, c)) => Lookup(c, path[1..])
  }

  predicate IsSensitive(key: Option<string>) {
    key.Some? && key.value in SENSITIVE
  }

  /** No key on the way down the path is sensitive. */
  predicate Exposed(v: Value, path: seq<nat>)
    decreases |path|
  {
    path == [] ||
    match Child(v, path[0])
    case None => true
    case Some((key, c)) => !IsSensitive(key) && Exposed(c, path[1..])
  }

  function RedactChild(child: Option<(Option<string>, Value)>, p: Policy): Option<(Option<string>, Value)> {
    match child
    case None => None
    case Some((key, c)) => Some((key, if IsSensitive(key) then Veil(c, p) else Redact(c, p)))
  }

  lemma {:induction false} RedactedElementAt(items: Items, i: nat, p: Policy)
    ensures ElementAt(RedactElements(items, p), i) == RedactChild(ElementAt(items, i), p)
  {
    if i > 0 && items.More? {
      RedactedElementAt(items.rest, i - 1, p);
    }
  }

  lemma {:induction false} RedactedMemberAt(items: Items, i: nat, p: Policy)
    requires StrictMembers(items)
    ensures MemberAt(RedactMembers(items, p), i) == RedactChild(MemberAt(items, i), p)
  {
    if items.rest.More? {
      var more := items.rest.rest;
      assert RedactMembers(items, p).rest.rest == RedactMembers(more, p);
      if i > 0 {
        RedactedMemberAt(more, i - 1, p);
      }
    }
  }

  lemma {:induction false} ElementIsStrict(items: Items, i: nat)
    requires StrictElements(items) && ElementAt(items, i).Some?
    ensures Strict(ElementAt(items, i).value.1)
  {
    if i > 0 {
      ElementIsStrict(items.rest, i - 1);
    }
  }

  lemma {:induction false} MemberIsStrict(items: Items, i: nat)
    requires StrictMembers(items) && MemberAt(items, i).Some?
    ensures Strict(MemberAt(items, i).value.1)
  {
    if i > 0 {
      MemberIsStrict(items.rest.rest, i - 1);
    }
  }

  /** Keys, order and arity stay; a child is veiled exactly when its own key is sensitive. */
  lemma ChildRedacted(v: Value, i: nat, p: Policy)
    requires Strict(v)
    ensures Child(Redact(v, p), i) == RedactChild(Child(v, i), p)
    ensures Child(v, i).Some? ==> Strict(Child(v, i).value.1)
  {
    if v.Box? {
      if v.curly {
        RedactedMemberAt(v.items, i, p);
        if Child(v, i).Some? { MemberIsStrict(v.items, i); }
      } else {
        RedactedElementAt(v.items, i, p);
        if Child(v, i).Some? { ElementIsStrict(v.items, i); }
      }
    }
  }

  /** Whatever no sensitive key stands above is still at the same place, redacted only below itself. */
  lemma {:induction false} ExposedStays(v: Value, path: seq<nat>, p: Policy)
    requires Strict(v) && Exposed(v, path)
    ensures Lookup(v, path).None? ==> Lookup(Redact(v, p), path).None?
    ensures Lookup(v, path).Some? ==>
      Strict(Lookup(v, path).value) && Lookup(Redact(v, p), path) == Some(Redact(Lookup(v, path).value, p))
    decreases |path|
  {
    if path != [] {
      ChildRedacted(v, path[0], p);
      if Child(v, path[0]).Some? {
        ExposedStays(Child(v, path[0]).value.1, path[1..], p);
      }
    }
  }

  /** The first sensitive member on the way down is veiled. */
  lemma SensitiveGoes(v: Value, path: seq<nat>, i: nat, p: Policy)
    requires Strict(v) && Exposed(v, path) && Lookup(v, path).Some?
    requires Child(Lookup(v, path).value, i).Some? && IsSensitive(Child(Lookup(v, path).value, i).value.0)
    ensures Lookup(Redact(v, p), path).Some?
    ensures Child(Lookup(Redact(v, p), path).value, i)
         == Some((Child(Lookup(v, path).value, i).value.0, Veil(Child(Lookup(v, path).value, i).value.1, p)))
  {
    ExposedStays(v, path, p);
    ChildRedacted(Lookup(v, path).value, i, p);
  }

  // ----- keys spelled with escapes -----

  lemma SensitiveIsPlain(key: string)
    requires key in SENSITIVE
    ensures '\\' !in key
  {
  }

  /** Of all spellings of a sensitive key only the one without escapes is in the set. */
  lemma SensitiveSpelling(raw: string)
    requires Unescape(raw).Some? && Unescape(raw).value in SENSITIVE
    ensures raw in SENSITIVE <==> '\\' !in raw
  {
    hide SENSITIVE;
    if raw in SENSITIVE {
      SensitiveIsPlain(raw);
    }
    if '\\' !in raw {
      PlainReadsBack(raw);
    }
  }

  /**
   Keys are compared as they are written: a member whose key reads as a sensitive one is veiled when the
   key is spelled without escapes, and treated like any other member when it is not.
   */
  lemma EscapedKeyIsNotSensitive(v: Value, i: nat, raw: string, p: Policy)
    requires Strict(v) && Child(v, i).Some? && Child(v, i).value.0 == Some(raw)
    requires Unescape(raw).Some? && Unescape(raw).value in SENSITIVE
    ensures Child(Redact(v, p), i)
         == Some((Some(raw), if '\\' in raw then Redact(Child(v, i).value.1, p) else Veil(Child(v, i).value.1, p)))
  {
    hide SENSITIVE;
    SensitiveSpelling(raw);
    ChildRedacted(v, i, p);
  }
}
