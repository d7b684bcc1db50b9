/**
 The one-pass validator `ent_json_well_formed`: a stack machine over the text, proved to accept
 exactly the documents of the loose grammar that nest at most 64 deep.
 */
module JsonValidator {
  import opened Wrappers
  import opened JsonSyntax
  import SeqFacts

  const MAX_DEPTH: nat := 64

  /** Where a container stands: nothing in it yet, a value completed, or a separator consumed. */
  datatype State = Fresh | Done | Wanting

  /** The state of every open container, the innermost on top; the bottom is the document itself. */
  datatype Stack = Bottom(st: State) | Push(below: Stack, curly: bool, st: State)

  function Height(k: Stack): nat {
    if k.Bottom? then 0 else 1 + Height(k.below)
  }

  function Literal(c: char): string {
    if c == 't' then "true" else if c == 'f' then "false" else "null"
  }

  /** Whether the rest of the text, read from this state, is accepted. */
  predicate Accepts(t: string, k: Stack, seen: bool)
    decreases |t|
  {
    if t == "" then seen && k == Bottom(Done)
    else
      var c := t[0];
      if c == '"' then
        k.st != Done && ScanString(t[1..]).0 && Accepts(ScanString(t[1..]).2, k.(st := Done), true)
      else if IsWs(c) then Accepts(t[1..], k, seen)
      else if c == '[' || c == '{' then
        k.st != Done && Height(k) < MAX_DEPTH && Accepts(t[1..], Push(k, c == '{', Fresh), true)
      else if c == ']' || c == '}' then
        k.Push? && k.st != Wanting && k.curly == (c == '}') && Accepts(t[1..], k.below.(st := Done), seen)
      else if c == ',' || c == ':' then
        k.Push? && k.st == Done && Accepts(t[1..], k.(st := Wanting), seen)
      else if k.st == Done then false
      else if c == 't' || c == 'f' || c == 'n' then
        Literal(c) <= t && Accepts(t[|Literal(c)|..], k.(st := Done), true)
      else NumberLength(t, Start).Some? && NumberLength(t, Start).value > 0
           && Accepts(t[NumberLength(t, Start).value..], k.(st := Done), true)
  }

  // ----- what is printed is accepted -----

  lemma {:induction false} AcceptsBlank(ws: string, t: string, k: Stack, seen: bool)
    requires Blank(ws)
    ensures Accepts(ws + t, k, seen) == Accepts(t, k, seen)
  {
    if ws == "" {
      assert ws + t == t;
    } else {
      AcceptsBlank(ws[1..], t, k, seen);
      assert (ws + t)[1..] == ws[1..] + t;
    }
  }

  lemma AcceptsString(raw: string, t: string, k: Stack, seen: bool)
    requires RawOk(raw) && k.st != Done
    ensures Accepts(Print(Str(raw)) + t, k, seen) == Accepts(t, k.(st := Done), true)
  {
    var u := Print(Str(raw)) + t;
    ScanPrintedString(raw, t);
    assert u[0] == '"' && u[1..] == raw + ['"'] + t;
  }

  lemma AcceptsWord(w: string, t: string, k: Stack, seen: bool)
    requires WordOk(w) && k.st != Done
    ensures Accepts(w + t, k, seen) == Accepts(t, k.(st := Done), true)
  {
    var u := w + t;
    SeqFacts.Skip(w, t);
    assert u[0] == w[0];
    assert w == Literal(w[0]);
  }

  lemma AcceptsNumber(n: Number, t: string, k: Stack, seen: bool)
    requires NumberOk(n) && k.st != Done && Delimited(t)
    ensures Accepts(PrintNumber(n) + t, k, seen) == Accepts(t, k.(st := Done), true)
  {
    NumberPrinted(n, t);
    NumberHead(n, t);
    AcceptsNumberText(PrintNumber(n) + t, k, seen);
    SeqFacts.Skip(PrintNumber(n), t);
  }

  lemma AcceptsNumberText(u: string, k: Stack, seen: bool)
    requires u != "" && (u[0] == '-' || IsDigit(u[0])) && NumberLength(u, Start).Some? && NumberLength(u, Start).value > 0 && k.st != Done
    ensures Accepts(u, k, seen) == Accepts(u[NumberLength(u, Start).value..], k.(st := Done), true)
  {
  }

  lemma AcceptsClose(curly: bool, t: string, below: Stack, st: State, seen: bool)
    requires st != Wanting
    ensures Accepts([CloseOf(curly)] + t, Push(below, curly, st), seen) == Accepts(t, below.(st := Done), seen)
  {
    var u := [CloseOf(curly)] + t;
    assert u[0] == CloseOf(curly) && u[1..] == t;
  }

  lemma AcceptsOpen(curly: bool, t: string, k: Stack, seen: bool)
    requires k.st != Done && Height(k) < MAX_DEPTH
    ensures Accepts([OpenOf(curly)] + t, k, seen) == Accepts(t, Push(k, curly, Fresh), true)
  {
    var u := [OpenOf(curly)] + t;
    assert u[0] == OpenOf(curly) && u[1..] == t;
  }

  lemma AcceptsSep(sep: char, t: string, below: Stack, curly: bool, seen: bool)
    requires sep == ',' || sep == ':'
    ensures Accepts([sep] + t, Push(below, curly, Done), seen) == Accepts(t, Push(below, curly, Wanting), seen)
  {
    var u := [sep] + t;
    assert u[0] == sep && u[1..] == t;
  }

  lemma BlankDelimits(ws: string, t: string)
    requires Blank(ws) && Delimited(t)
    ensures Delimited(ws + t)
  {
    assert ws == "" ==> ws + t == t;
  }

  /** A value of the loose grammar takes the machine over its whole text. */
  lemma {:induction false} AcceptsValue(v: Value, t: string, k: Stack, seen: bool)
    requires Loose(v) && k.st != Done && Height(k) + Depth(v) <= MAX_DEPTH && Delimited(t)
    ensures Accepts(Print(v) + t, k, seen) == Accepts(t, k.(st := Done), true)
    decreases v, 1
  {
    match v
    case Str(raw) => AcceptsString(raw, t, k, seen);
    case Word(text) => AcceptsWord(text, t, k, seen);
    case Num(n) => AcceptsNumber(n, t, k, seen);
    case Empty(curly, gap) =>
      var close := [CloseOf(curly)] + t;
      SeqFacts.Assoc4([OpenOf(curly)], gap, [CloseOf(curly)], t);
      AcceptsOpen(curly, gap + close, k, seen);
      AcceptsBlank(gap, close, Push(k, curly, Fresh), true);
      AcceptsClose(curly, t, k, Fresh, true);
    case Box(curly, lead, items) =>
      var close := [CloseOf(curly)] + t;
      SeqFacts.Assoc5([OpenOf(curly)], lead, PrintItems(items), [CloseOf(curly)], t);
      AcceptsOpen(curly, lead + (PrintItems(items) + close), k, seen);
      AcceptsBlank(lead, PrintItems(items) + close, Push(k, curly, Fresh), true);
      AcceptsItems(items, close, k, curly, Fresh, true);
      AcceptsClose(curly, t, k, Done, true);
  }

  lemma {:induction false} AcceptsItems(items: Items, t: string, below: Stack, curly: bool, st: State, seen: bool)
    requires LooseItems(items) && st != Done && Height(below) + 1 + DepthItems(items) <= MAX_DEPTH && Delimited(t)
    ensures Accepts(PrintItems(items) + t, Push(below, curly, st), seen)
         == Accepts(t, Push(below, curly, Done), true)
    decreases items, 0
  {
    var k := Push(below, curly, st);
    match items
    case Last(v, trail) =>
      SeqFacts.Assoc(Print(v), trail, t);
      BlankDelimits(trail, t);
      AcceptsValue(v, trail + t, k, seen);
      AcceptsBlank(trail, t, k.(st := Done), true);
    case More(v, trail, sep, lead, rest) =>
      var u := lead + (PrintItems(rest) + t);
      SeqFacts.Assoc6(Print(v), trail, [sep], lead, PrintItems(rest), t);
      BlankDelimits(trail, [sep] + u);
      AcceptsValue(v, trail + ([sep] + u), k, seen);
      AcceptsBlank(trail, [sep] + u, k.(st := Done), true);
      AcceptsSep(sep, u, below, curly, true);
      AcceptsBlank(lead, PrintItems(rest) + t, k.(st := Wanting), true);
      AcceptsItems(rest, t, below, curly, Wanting, true);
  }

  /** A bracket that would nest too deep. */
  lemma RejectsOpen(curly: bool, t: string, k: Stack, seen: bool)
    requires Height(k) >= MAX_DEPTH
    ensures !Accepts([OpenOf(curly)] + t, k, seen)
  {
    assert ([OpenOf(curly)] + t)[0] == OpenOf(curly);
  }

  /** A value that nests too deep stops the machine, wherever the depth is exceeded. */
  lemma {:induction false} RejectsDeepValue(v: Value, t: string, k: Stack, seen: bool)
    requires Loose(v) && k.st != Done && Height(k) <= MAX_DEPTH < Height(k) + Depth(v) && Delimited(t)
    ensures !Accepts(Print(v) + t, k, seen)
    decreases v, 1
  {
    match v
    case Empty(curly, gap) =>
      SeqFacts.Assoc4([OpenOf(curly)], gap, [CloseOf(curly)], t);
      RejectsOpen(curly, gap + ([CloseOf(curly)] + t), k, seen);
    case Box(curly, lead, items) =>
      var body := PrintItems(items) + ([CloseOf(curly)] + t);
      SeqFacts.Assoc5([OpenOf(curly)], lead, PrintItems(items), [CloseOf(curly)], t);
      if Height(k) == MAX_DEPTH {
        RejectsOpen(curly, lead + body, k, seen);
      } else {
        AcceptsOpen(curly, lead + body, k, seen);
        AcceptsBlank(lead, body, Push(k, curly, Fresh), true);
        RejectsDeepItems(items, [CloseOf(curly)] + t, k, curly, Fresh, true);
      }
    case _ =>
  }

  lemma {:induction false} RejectsDeepItems(items: Items, t: string, below: Stack, curly: bool, st: State, seen: bool)
    requires LooseItems(items) && st != Done && Delimited(t)
    requires Height(below) < MAX_DEPTH < Height(below) + 1 + DepthItems(items)
    ensures !Accepts(PrintItems(items) + t, Push(below, curly, st), seen)
    decreases items, 0
  {
    var k := Push(below, curly, st);
    match items
    case Last(v, trail) =>
      SeqFacts.Assoc(Print(v), trail, t);
      BlankDelimits(trail, t);
      RejectsDeepValue(v, trail + t, k, seen);
    case More(v, trail, sep, lead, rest) =>
      var u := lead + (PrintItems(rest) + t);
      SeqFacts.Assoc6(Print(v), trail, [sep], lead, PrintItems(rest), t);
      BlankDelimits(trail, [sep] + u);
      if Height(k) + Depth(v) > MAX_DEPTH {
        RejectsDeepValue(v, trail + ([sep] + u), k, seen);
      } else {
        AcceptsValue(v, trail + ([sep] + u), k, seen);
        AcceptsBlank(trail, [sep] + u, k.(st := Done), true);
        AcceptsSep(sep, u, below, curly, true);
        AcceptsBlank(lead, PrintItems(rest) + t, k.(st := Wanting), true);
        RejectsDeepItems(rest, t, below, curly, Wanting, true);
      }
  }

  /** A document of the loose grammar is accepted exactly when it nests at most 64 deep. */
  lemma AcceptedIffShallow(d: Doc)
    requires DocOk(d)
    ensures Accepts(PrintDoc(d), Bottom(Fresh), false) <==> Depth(d.value) <= MAX_DEPTH
  {
    assert PrintDoc(d) == d.lead + (Print(d.value) + d.trail);
    AcceptsBlank(d.lead, Print(d.value) + d.trail, Bottom(Fresh), false);
    assert d.trail == "" || IsWs(d.trail[0]);
    if Depth(d.value) <= MAX_DEPTH {
      AcceptsValue(d.value, d.trail, Bottom(Fresh), false);
      assert d.trail + "" == d.trail;
      AcceptsBlank(d.trail, "", Bottom(Done), true);
    } else {
      RejectsDeepValue(d.value, d.trail, Bottom(Fresh), false);
    }
  }

  // ----- what is accepted was printed -----

  /** What the machine has read of one container: nothing, some items, or items and a separator. */
  datatype Part =
    | Nothing(gap: string)
    | Partial(lead: string, items: Items)
    | Wanted(lead: string, items: Items, sep: char, gap: string)

  /** The part read of every open container, the innermost on top. */
  datatype Zip = Root(part: Part) | Inside(above: Zip, curly: bool, part: Part)

  function StateOf(p: Part): State {
    match p
    case Nothing(_) => Fresh
    case Partial(_, _) => Done
    case Wanted(_, _, _, _) => Wanting
  }

  function StackOf(z: Zip): Stack {
    match z
    case Root(p) => Bottom(StateOf(p))
    case Inside(above, curly, p) => Push(StackOf(above), curly, StateOf(p))
  }

  function TextOfPart(p: Part): string {
    match p
    case Nothing(gap) => gap
    case Partial(lead, items) => lead + PrintItems(items)
    case Wanted(lead, items, sep, gap) => lead + (PrintItems(items) + ([sep] + gap))
  }

  function TextOf(z: Zip): string {
    match z
    case Root(p) => TextOfPart(p)
    case Inside(above, curly, p) => TextOf(above) + ([OpenOf(curly)] + TextOfPart(p))
  }

  predicate PartOk(p: Part, room: nat) {
    match p
    case Nothing(gap) => Blank(gap)
    case Partial(lead, items) => Blank(lead) && LooseItems(items) && DepthItems(items) <= room
    case Wanted(lead, items, sep, gap) =>
      Blank(lead) && LooseItems(items) && DepthItems(items) <= room && (sep == ',' || sep == ':') && Blank(gap)
  }

  predicate ZipOk(z: Zip) {
    Height(StackOf(z)) <= MAX_DEPTH && PartOk(z.part, MAX_DEPTH - Height(StackOf(z))) &&
    match z
    case Root(p) => !p.Wanted? && (p.Partial? ==> p.items.Last?)
    case Inside(above, _, _) => ZipOk(above) && !above.part.Partial?
  }

  function Snoc(items: Items, sep: char, gap: string, v: Value): (r: Items)
    ensures LooseItems(items) && (sep == ',' || sep == ':') && Blank(gap) && Loose(v) ==> LooseItems(r)
    ensures DepthItems(r) == Max(DepthItems(items), Depth(v))
  {
    match items
    case Last(w, trail) => More(w, trail, sep, gap, Last(v, ""))
    case More(w, trail, sep', lead, rest) => More(w, trail, sep', lead, Snoc(rest, sep, gap, v))
  }

  function Trail(items: Items, c: char): (r: Items)
    ensures LooseItems(items) && IsWs(c) ==> LooseItems(r)
    ensures DepthItems(r) == DepthItems(items) && r.Last? == items.Last?
  {
    match items
    case Last(w, trail) => Last(w, trail + [c])
    case More(w, trail, sep, lead, rest) => More(w, trail, sep, lead, Trail(rest, c))
  }

  lemma {:induction false} SnocText(items: Items, sep: char, gap: string, v: Value)
    ensures PrintItems(Snoc(items, sep, gap, v)) == PrintItems(items) + ([sep] + (gap + Print(v)))
  {
    match items
    case Last(w, trail) =>
      SeqFacts.Assoc5(Print(w), trail, [sep], gap, Print(v));
      SeqFacts.Assoc(Print(w), trail, [sep] + (gap + Print(v)));
      assert Print(v) + "" == Print(v);
    case More(w, trail, sep', lead, rest) =>
      SnocText(rest, sep, gap, v);
      SeqFacts.Assoc(Print(w) + trail + [sep'] + lead, PrintItems(rest), [sep] + (gap + Print(v)));
  }

  lemma {:induction false} TrailText(items: Items, c: char)
    ensures PrintItems(Trail(items, c)) == PrintItems(items) + [c]
  {
    match items
    case Last(w, trail) => SeqFacts.Assoc(Print(w), trail, [c]);
    case More(w, trail, sep, lead, rest) =>
      TrailText(rest, c);
      SeqFacts.Assoc(Print(w) + trail + [sep] + lead, PrintItems(rest), [c]);
  }

  /** A value goes where one is due. */
  function Extend(p: Part, v: Value): (r: Part)
    requires !p.Partial?
    ensures StateOf(r) == Done
  {
    match p
    case Nothing(gap) => Partial(gap, Last(v, ""))
    case Wanted(lead, items, sep, gap) => Partial(lead, Snoc(items, sep, gap, v))
  }

  lemma ExtendText(p: Part, v: Value, room: nat)
    requires !p.Partial? && PartOk(p, room) && Loose(v) && Depth(v) <= room
    ensures TextOfPart(Extend(p, v)) == TextOfPart(p) + Print(v) && PartOk(Extend(p, v), room)
  {
    match p
    case Nothing(gap) =>
      assert Print(v) + "" == Print(v);
    case Wanted(lead, items, sep, gap) =>
      SnocText(items, sep, gap, v);
      SeqFacts.Assoc([sep], gap, Print(v));
      SeqFacts.Assoc(PrintItems(items), [sep] + gap, Print(v));
      SeqFacts.Assoc(lead, PrintItems(items) + ([sep] + gap), Print(v));
  }

  function Space(p: Part, c: char): (r: Part)
    ensures StateOf(r) == StateOf(p)
  {
    match p
    case Nothing(gap) => Nothing(gap + [c])
    case Partial(lead, items) => Partial(lead, Trail(items, c))
    case Wanted(lead, items, sep, gap) => Wanted(lead, items, sep, gap + [c])
  }

  lemma SpaceText(p: Part, c: char, room: nat)
    requires PartOk(p, room) && IsWs(c)
    ensures TextOfPart(Space(p, c)) == TextOfPart(p) + [c] && PartOk(Space(p, c), room)
  {
    match p
    case Nothing(gap) =>
    case Partial(lead, items) =>
      TrailText(items, c);
      SeqFacts.Assoc(lead, PrintItems(items), [c]);
    case Wanted(lead, items, sep, gap) =>
      SeqFacts.Assoc([sep], gap, [c]);
      SeqFacts.Assoc(PrintItems(items), [sep] + gap, [c]);
      SeqFacts.Assoc(lead, PrintItems(items) + ([sep] + gap), [c]);
  }

  /** Replacing the innermost part replaces the end of the text. */
  lemma PartText(z: Zip, p: Part, more: string)
    requires TextOfPart(p) == TextOfPart(z.part) + more
    ensures TextOf(z.(part := p)) == TextOf(z) + more
  {
    if z.Inside? {
      SeqFacts.Assoc([OpenOf(z.curly)], TextOfPart(z.part), more);
      SeqFacts.Assoc(TextOf(z.above), [OpenOf(z.curly)] + TextOfPart(z.part), more);
    }
  }

  lemma Receive(z: Zip, v: Value)
    requires ZipOk(z) && !z.part.Partial? && Loose(v) && Depth(v) + Height(StackOf(z)) <= MAX_DEPTH
    ensures var y := z.(part := Extend(z.part, v));
      ZipOk(y) && TextOf(y) == TextOf(z) + Print(v) && StackOf(y) == StackOf(z).(st := Done)
  {
    var room := MAX_DEPTH - Height(StackOf(z));
    ExtendText(z.part, v, room);
    PartText(z, Extend(z.part, v), Print(v));
    if z.Root? {
      assert z.part.Nothing?;
    }
  }

  lemma Widen(z: Zip, c: char)
    requires ZipOk(z) && IsWs(c)
    ensures var y := z.(part := Space(z.part, c));
      ZipOk(y) && TextOf(y) == TextOf(z) + [c] && StackOf(y) == StackOf(z)
  {
    var room := MAX_DEPTH - Height(StackOf(z));
    SpaceText(z.part, c, room);
    PartText(z, Space(z.part, c), [c]);
  }

  function Closed(curly: bool, p: Part): (v: Value)
    requires !p.Wanted?
  {
    if p.Nothing? then Empty(curly, p.gap) else Box(curly, p.lead, p.items)
  }

  lemma Shut(z: Zip)
    requires ZipOk(z) && z.Inside? && !z.part.Wanted?
    ensures var v := Closed(z.curly, z.part); var y := z.above.(part := Extend(z.above.part, v));
      ZipOk(y) && TextOf(y) == TextOf(z) + [CloseOf(z.curly)] && StackOf(y) == StackOf(z).below.(st := Done)
  {
    var v := Closed(z.curly, z.part);
    var open, close := [OpenOf(z.curly)], [CloseOf(z.curly)];
    Receive(z.above, v);
    SeqFacts.Assoc(TextOf(z.above), open + TextOfPart(z.part), close);
    assert Print(v) == open + TextOfPart(z.part) + close by {
      if z.part.Partial? {
        SeqFacts.Assoc(open, z.part.lead, PrintItems(z.part.items));
      }
    }
  }

  lemma Separate(z: Zip, sep: char)
    requires ZipOk(z) && z.Inside? && z.part.Partial? && (sep == ',' || sep == ':')
    ensures var y := z.(part := Wanted(z.part.lead, z.part.items, sep, ""));
      ZipOk(y) && TextOf(y) == TextOf(z) + [sep] && StackOf(y) == StackOf(z).(st := Wanting)
  {
    var p := z.part;
    assert [sep] + "" == [sep];
    SeqFacts.Assoc(p.lead, PrintItems(p.items), [sep]);
    PartText(z, Wanted(p.lead, p.items, sep, ""), [sep]);
  }

  lemma OpenUp(z: Zip, curly: bool)
    requires ZipOk(z) && !z.part.Partial? && Height(StackOf(z)) < MAX_DEPTH
    ensures var y := Inside(z, curly, Nothing(""));
      ZipOk(y) && TextOf(y) == TextOf(z) + [OpenOf(curly)] && StackOf(y) == Push(StackOf(z), curly, Fresh)
  {
    assert [OpenOf(curly)] + "" == [OpenOf(curly)];
  }

  /** A value token at the head of the text, and what is left. */
  lemma ScalarStep(t: string, z: Zip, seen: bool) returns (v: Value, rest: string)
    requires t != "" && Accepts(t, StackOf(z), seen) && !IsWs(t[0]) && t[0] !in ['[', '{', ']', '}', ',', ':']
    ensures Loose(v) && Depth(v) == 0 && t == Print(v) + rest && |rest| < |t|
    ensures StackOf(z).st != Done && Accepts(rest, StackOf(z).(st := Done), true)
  {
    var c := t[0];
    if c == '"' {
      var u := t[1..];
      v, rest := Str(ScanString(u).1), ScanString(u).2;
      SeqFacts.HeadTail(t);
      ScanStringOnto(u);
      SeqFacts.Assoc4(['"'], v.raw, ['"'], rest);
      SeqFacts.Assoc(v.raw, ['"'], rest);
    } else if c == 't' || c == 'f' || c == 'n' {
      v, rest := Word(Literal(c)), t[|Literal(c)|..];
      SeqFacts.Join(t, |Literal(c)|);
    } else {
      var n;
      n, rest := NumberOnto(t);
      v := Num(n);
      SeqFacts.Skip(PrintNumber(n), rest);
    }
  }

  /** A bracket, a separator or a blank at the head of the text. */
  lemma MarkStep(t: string, z: Zip, seen: bool) returns (y: Zip, seen': bool)
    requires ZipOk(z) && t != "" && Accepts(t, StackOf(z), seen)
    requires IsWs(t[0]) || t[0] in ['[', '{', ']', '}', ',', ':']
    ensures ZipOk(y) && TextOf(y) == TextOf(z) + [t[0]] && Accepts(t[1..], StackOf(y), seen')
  {
    var c := t[0];
    seen' := seen || c == '[' || c == '{';
    if IsWs(c) {
      Widen(z, c);
      y := z.(part := Space(z.part, c));
    } else if c == '[' || c == '{' {
      OpenUp(z, c == '{');
      y := Inside(z, c == '{', Nothing(""));
    } else if c == ']' || c == '}' {
      Shut(z);
      y := z.above.(part := Extend(z.above.part, Closed(z.curly, z.part)));
    } else {
      Separate(z, c);
      y := z.(part := Wanted(z.part.lead, z.part.items, c, ""));
    }
  }

  lemma {:induction false} AcceptedIsGrammar(t: string, z: Zip, seen: bool) returns (d: Doc)
    requires ZipOk(z) && Accepts(t, StackOf(z), seen)
    ensures DocOk(d) && Depth(d.value) <= MAX_DEPTH && PrintDoc(d) == TextOf(z) + t
    decreases |t|
  {
    if t == "" {
      var p := z.part;
      d := Doc(p.lead, p.items.value, p.items.trail);
      SeqFacts.Assoc(p.lead, Print(d.value), d.trail);
      assert TextOf(z) + "" == TextOf(z);
    } else {
      if IsWs(t[0]) || t[0] in ['[', '{', ']', '}', ',', ':'] {
        var y, seen' := MarkStep(t, z, seen);
        d := AcceptedIsGrammar(t[1..], y, seen');
        SeqFacts.Assoc(TextOf(z), [t[0]], t[1..]);
        SeqFacts.HeadTail(t);
      } else {
        var v, rest := ScalarStep(t, z, seen);
        Receive(z, v);
        d := AcceptedIsGrammar(rest, z.(part := Extend(z.part, v)), true);
        SeqFacts.Assoc(TextOf(z), Print(v), rest);
      }
    }
  }

  /** The documents of the loose grammar that nest at most 64 deep. */
  ghost predicate InGrammar(s: string) {
    exists d: Doc :: DocOk(d) && Depth(d.value) <= MAX_DEPTH && PrintDoc(d) == s
  }

  /** The machine accepts exactly the texts of the grammar. */
  lemma AcceptsExactlyTheGrammar(s: string)
    ensures Accepts(s, Bottom(Fresh), false) <==> InGrammar(s)
  {
    if Accepts(s, Bottom(Fresh), false) {
      var z := Root(Nothing(""));
      var d := AcceptedIsGrammar(s, z, false);
      assert "" + s == s;
    }
    if InGrammar(s) {
      var d: Doc :| DocOk(d) && Depth(d.value) <= MAX_DEPTH && PrintDoc(d) == s;
      AcceptedIffShallow(d);
    }
  }

  // ----- the loop -----

  /** The stack that the two arrays hold up to sp. */
  function Held(stack: seq<char>, st: seq<State>, sp: nat): (k: Stack)
    requires sp <= |stack| && sp < |st|
    ensures Height(k) == sp && k.st == st[sp] && (k.Push? <==> sp > 0)
    ensures k.Push? ==> k.curly == (stack[sp - 1] == '{') && k.below == Held(stack, st, sp - 1)
  {
    if sp == 0 then Bottom(st[0]) else Push(Held(stack, st, sp - 1), stack[sp - 1] == '{', st[sp])
  }

  /** Cells above those in use do not matter. */
  lemma {:induction false} HeldKeeps(stack: seq<char>, st: seq<State>, stack': seq<char>, st': seq<State>, sp: nat)
    requires sp <= |stack| == |stack'| && sp < |st| == |st'|
    requires stack[..sp] == stack'[..sp] && st[..sp + 1] == st'[..sp + 1]
    ensures Held(stack, st, sp) == Held(stack', st', sp)
  {
    assert st[..sp + 1][sp] == st'[..sp + 1][sp];
    if sp > 0 {
      assert stack[..sp][..sp - 1] == stack[..sp - 1] && stack'[..sp][..sp - 1] == stack'[..sp - 1];
      assert st[..sp + 1][..sp] == st[..sp] && st'[..sp + 1][..sp] == st'[..sp];
      assert stack[..sp][sp - 1] == stack'[..sp][sp - 1];
      HeldKeeps(stack, st, stack', st', sp - 1);
    }
  }

  lemma HeldTop(stack: seq<char>, st: seq<State>, sp: nat, x: State)
    requires sp <= |stack| && sp < |st|
    ensures Held(stack, st[sp := x], sp) == Held(stack, st, sp).(st := x)
  {
    if sp > 0 {
      assert st[sp := x][..sp] == st[..sp];
      HeldKeeps(stack, st, stack, st[sp := x], sp - 1);
    }
  }

  lemma HeldPush(stack: seq<char>, st: seq<State>, sp: nat, c: char)
    requires sp < |stack| && sp + 1 < |st|
    ensures Held(stack[sp := c], st[sp + 1 := Fresh], sp + 1) == Push(Held(stack, st, sp), c == '{', Fresh)
  {
    assert st[sp + 1 := Fresh][..sp + 1] == st[..sp + 1] && stack[sp := c][..sp] == stack[..sp];
    HeldKeeps(stack, st, stack[sp := c], st[sp + 1 := Fresh], sp);
  }

  /** The fixed arrays of the validator: the open brackets, and a state per container. */
  class Containers {
    const stack: array<char>
    const st: array<State>
    var sp: nat

    ghost predicate Valid()
      reads this, stack
    {
      && stack.Length == 64 && st.Length == 65 && sp <= 64
      && forall i :: 0 <= i < sp ==> stack[i] == '[' || stack[i] == '{'
    }

    ghost function View(): (k: Stack)
      reads this, stack, st
      requires Valid()
      ensures Height(k) == sp && k.st == st[sp] && (k.Push? <==> sp > 0)
      ensures k.Push? ==> stack[sp - 1] == OpenBracket(k.curly)
    {
      Held(stack[..], st[..], sp)
    }

    static function OpenBracket(curly: bool): char {
      if curly then '{' else '['
    }

    constructor ()
      ensures Valid() && View() == Bottom(Fresh) && fresh(stack) && fresh(st)
    {
      stack := new char[64];
      st := new State[65];
      sp := 0;
      new;
      st[0] := Fresh;
    }

    method SetTop(x: State)
      requires Valid()
      modifies st
      ensures Valid() && View() == old(View()).(st := x)
    {
      HeldTop(stack[..], st[..], sp, x);
      st[sp] := x;
    }

    method Open(c: char)
      requires Valid() && sp < 64 && (c == '[' || c == '{')
      modifies this, stack, st
      ensures Valid() && View() == Push(old(View()), c == '{', Fresh)
    {
      ghost var was, states := stack[..], st[..];
      HeldPush(was, states, sp, c);
      stack[sp] := c;
      sp := sp + 1;
      st[sp] := Fresh;
      assert stack[..] == was[sp - 1 := c] && st[..] == states[sp := Fresh];
    }

    /** The branches of the loop for brackets and separators. */
    method Mark(c: char) returns (ok: bool)
      requires Valid() && IsMark(c)
      modifies this, stack, st
      ensures ok == Marked(old(View()), c).Some?
      ensures ok ==> Valid() && View() == Marked(old(View()), c).value
    {
      hide Held, Height;
      if c == '[' || c == '{' {
        if st[sp] == Done { return false; }
        if sp >= 64 { return false; }
        Open(c);
      } else if c == ']' || c == '}' {
        if sp == 0 { return false; }
        if st[sp] == Wanting { return false; }
        var open := stack[sp - 1];
        if (c == ']' && open != '[') || (c == '}' && open != '{') { return false; }
        Close();
      } else {
        if sp == 0 || st[sp] != Done { return false; }
        SetTop(Wanting);
      }
      ok := true;
    }

    method Close()
      requires Valid() && sp > 0
      modifies this, st
      ensures Valid() && View() == old(View()).below.(st := Done)
    {
      sp := sp - 1;
      HeldTop(stack[..], st[..], sp, Done);
      st[sp] := Done;
    }
  }

  predicate IsMark(c: char) {
    c == '[' || c == '{' || c == ']' || c == '}' || c == ',' || c == ':'
  }

  /** What a bracket or a separator does to the stack; None when it is out of place. */
  function Marked(k: Stack, c: char): Option<Stack>
    requires IsMark(c)
  {
    if c == '[' || c == '{' then
      if k.st != Done && Height(k) < MAX_DEPTH then Some(Push(k, c == '{', Fresh)) else None
    else if c == ']' || c == '}' then
      if k.Push? && k.st != Wanting && k.curly == (c == '}') then Some(k.below.(st := Done)) else None
    else if k.Push? && k.st == Done then Some(k.(st := Wanting))
    else None
  }

  /** Whether the rest of the text is accepted when the loop may stand inside a string, after a backslash. */
  predicate Pending(t: string, inStr: bool, esc: bool, k: Stack, seen: bool)
    decreases |t|
  {
    if !inStr then Accepts(t, k, seen)
    else if esc then t != "" && Pending(t[1..], true, false, k, true)
    else ScanString(t).0 && Accepts(ScanString(t).2, k, true)
  }

  lemma InString(t: string, esc: bool, k: Stack)
    requires t != ""
    ensures Pending(t, true, esc, k, true)
         == if esc then Pending(t[1..], true, false, k, true)
            else if t[0] == '\\' then Pending(t[1..], true, true, k, true)
            else if t[0] == '"' then Pending(t[1..], false, false, k, true)
            else t[0] as int >= 0x20 && Pending(t[1..], true, false, k, true)
  {
    if !esc && t[0] == '\\' && |t| > 1 {
      assert t[1..][1..] == t[2..];
    }
  }

  method SkipDigits(s: string, from: nat, ghost p: Phase) returns (j: nat)
    requires from <= |s| && p in {WholeFirst, FracFirst, ExpFirst}
    ensures from <= j <= |s| && (j < |s| ==> !IsDigit(s[j]))
    ensures NumberLength(s[from..], p) == if j == from then None else Add(j - from, NumberLength(s[j..], After(p)))
  {
    hide NumberLength;
    j := from;
    ghost var q := p;
    while j < |s| && '0' <= s[j] <= '9'
      invariant from <= j <= |s| && q == if j == from then p else After(p)
      invariant NumberLength(s[from..], p) == Add(j - from, NumberLength(s[j..], q))
    {
      DigitStep(s[j..], q);
      assert s[j..][1..] == s[j + 1..];
      j, q := j + 1, After(p);
    }
    if j == from {
      DigitMissing(s[from..], p);
    }
  }

  lemma DigitMissing(t: string, p: Phase)
    requires (t == "" || !IsDigit(t[0])) && p in {WholeFirst, FracFirst, ExpFirst}
    ensures NumberLength(t, p) == None
  {
  }

  lemma Suffix(s: string, i: nat, k: nat)
    requires i + k <= |s|
    ensures s[i..][k..] == s[i + k..]
  {
  }

  lemma MarkTaken(t: string)
    ensures NumberLength(t, Mark)
         == if t != "" && (t[0] == 'e' || t[0] == 'E') then Add(1, NumberLength(t[1..], Sign)) else Some(0)
  {
  }

  lemma SignTaken(t: string)
    ensures NumberLength(t, Sign)
         == if t != "" && (t[0] == '+' || t[0] == '-') then Add(1, NumberLength(t[1..], ExpFirst))
            else NumberLength(t, ExpFirst)
  {
  }

  lemma ExponentOver(t: string)
    requires t == "" || !IsDigit(t[0])
    ensures NumberLength(t, ExpRest) == Some(0)
  {
  }

  /** [eE [+-] digits], or nothing. */
  method ExponentEnd(s: string, i: nat) returns (ok: bool, j: nat)
    requires i <= |s|
    ensures i <= j <= |s| && ok == NumberLength(s[i..], Mark).Some?
    ensures ok ==> NumberLength(s[i..], Mark) == Some(j - i)
  {
    hide NumberLength;
    j := i;
    MarkTaken(s[i..]);
    if j < |s| && (s[j] == 'e' || s[j] == 'E') {
      j := j + 1;
      Suffix(s, i, 1);
      ghost var k := j;
      SignTaken(s[k..]);
      if j < |s| && (s[j] == '+' || s[j] == '-') { j := j + 1; }
      Suffix(s, k, j - k);
      var ed := j;
      j := SkipDigits(s, j, ExpFirst);
      if j == ed { return false, j; }
      ExponentOver(s[j..]);
    }
    ok := true;
  }

  /** [. digits], or nothing, and the exponent. */
  method FractionEnd(s: string, i: nat) returns (ok: bool, j: nat)
    requires i <= |s| && (i < |s| ==> !IsDigit(s[i]))
    ensures i <= j <= |s| && ok == NumberLength(s[i..], Whole).Some?
    ensures ok ==> NumberLength(s[i..], Whole) == Some(j - i)
  {
    j := i;
    if j < |s| && s[j] == '.' {
      j := j + 1;
      Suffix(s, i, 1);
      var fd := j;
      j := SkipDigits(s, j, FracFirst);
      if j == fd { return false, j; }
      assert NumberLength(s[j..], Frac) == NumberLength(s[j..], Mark);
    }
    assert NumberLength(s[i..], Whole) == Add(j - i, NumberLength(s[j..], Mark));
    ok, j := ExponentEnd(s, j);
  }

  /** The number that starts at i: -? digits [. digits] [eE [+-] digits]. */
  method NumberEnd(s: string, i: nat) returns (ok: bool, j: nat)
    requires i < |s|
    ensures i <= j <= |s| && ok == NumberLength(s[i..], Start).Some?
    ensures ok ==> i < j && NumberLength(s[i..], Start) == Some(j - i)
  {
    j := i;
    if j < |s| && s[j] == '-' { j := j + 1; }
    Suffix(s, i, j - i);
    assert NumberLength(s[i..], Start) == Add(j - i, NumberLength(s[j..], WholeFirst));
    var ds := j;
    j := SkipDigits(s, j, WholeFirst);
    if j == ds { return false, j; }
    ok, j := FractionEnd(s, j);
  }

  // What each kind of character does to the machine.

  lemma OnQuote(t: string, k: Stack, seen: bool)
    requires t != "" && t[0] == '"'
    ensures Pending(t, false, false, k, seen) == (k.st != Done && Pending(t[1..], true, false, k.(st := Done), true))
  {
  }

  lemma OnBlank(t: string, k: Stack, seen: bool)
    requires t != "" && IsWs(t[0])
    ensures Pending(t, false, false, k, seen) == Pending(t[1..], false, false, k, seen)
  {
  }

  lemma OnMark(t: string, k: Stack, seen: bool)
    requires t != "" && IsMark(t[0])
    ensures Pending(t, false, false, k, seen)
         == (Marked(k, t[0]).Some?
             && Pending(t[1..], false, false, Marked(k, t[0]).value, seen || t[0] == '[' || t[0] == '{'))
  {
  }

  lemma AtEnds(s: string, inStr: bool, esc: bool, k: Stack, seen: bool)
    ensures Pending(s[0..], false, false, Bottom(Fresh), false) == Accepts(s, Bottom(Fresh), false)
    ensures Pending(s[|s|..], inStr, esc, k, seen) == (!inStr && seen && k == Bottom(Done))
  {
    assert s[0..] == s && s[|s|..] == "";
  }

  predicate StartsScalar(t: string) {
    t != "" && !IsWs(t[0]) && t[0] !in ['"', '[', '{', ']', '}', ',', ':']
  }

  /** The length of the word or number at the head of t. */
  function ScalarLength(t: string): (n: Option<nat>)
    requires StartsScalar(t)
    ensures n.Some? ==> n.value <= |t|
  {
    if t[0] == 't' || t[0] == 'f' || t[0] == 'n' then
      if Literal(t[0]) <= t then Some(|Literal(t[0])|) else None
    else if NumberLength(t, Start).Some? && NumberLength(t, Start).value > 0 then NumberLength(t, Start)
    else None
  }

  lemma OnScalar(t: string, k: Stack, seen: bool)
    requires StartsScalar(t)
    ensures Pending(t, false, false, k, seen)
         == (k.st != Done && ScalarLength(t).Some? && Pending(t[ScalarLength(t).value..], false, false, k.(st := Done), true))
  {
  }

  lemma PrefixAt(s: string, i: nat, lit: string)
    requires i <= |s|
    ensures lit <= s[i..] <==> |s| - i >= |lit| && s[i..i + |lit|] == lit
  {
    if |s| - i >= |lit| {
      assert s[i..][..|lit|] == s[i..i + |lit|];
    }
  }

  /** A word or a number at i. */
  method ScalarEnd(s: string, i: nat) returns (ok: bool, j: nat)
    requires i < |s| && StartsScalar(s[i..])
    ensures ok == ScalarLength(s[i..]).Some?
    ensures ok ==> i < j <= |s| && ScalarLength(s[i..]) == Some(j - i)
  {
    var c := s[i];
    assert s[i..][0] == c;
    if c == 't' || c == 'f' || c == 'n' {
      var lit := if c == 't' then "true" else if c == 'f' then "false" else "null";
      PrefixAt(s, i, lit);
      if |s| - i < |lit| || s[i..i + |lit|] != lit { return false, i; }
      return true, i + |lit|;
    }
    ok, j := NumberEnd(s, i);
  }

  /** `ent_json_well_formed`. */
  method WellFormed(s: string) returns (ok: bool)
    ensures ok <==> InGrammar(s)
  {
    hide Accepts, Pending, ScanString, ScalarLength, Held, Height, InGrammar, Marked;
    AcceptsExactlyTheGrammar(s);
    ghost var goal := Accepts(s, Bottom(Fresh), false);
    AtEnds(s, false, false, Bottom(Fresh), false);
    var open := new Containers();
    var inStr, esc, seenAny := false, false, false;
    var i := 0;
    while i < |s|
      invariant i <= |s| && open.Valid() && fresh(open) && fresh(open.stack) && fresh(open.st)
      invariant if inStr then seenAny else !esc
      invariant goal == Pending(s[i..], inStr, esc, open.View(), seenAny)
    {
      var c := s[i];
      ghost var t := s[i..];
      ghost var k := open.View();
      Suffix(s, i, 1);
      if inStr {
        InString(t, esc, k);
        if esc { esc := false; }
        else if c == '\\' { esc := true; }
        else if c == '"' { inStr := false; }
        else if (c as int) < 0x20 { return false; }
        i := i + 1;
        continue;
      }
      if c == '"' {
        OnQuote(t, k, seenAny);
        if open.st[open.sp] == Done { return false; }
        inStr := true;
        open.SetTop(Done);
        seenAny := true;
        i := i + 1;
        continue;
      }
      if IsWs(c) {
        OnBlank(t, k, seenAny);
        i := i + 1;
        continue;
      }
      if IsMark(c) {
        OnMark(t, k, seenAny);
        var fits := open.Mark(c);
        if !fits { return false; }
        seenAny := seenAny || c == '[' || c == '{';
        i := i + 1;
        continue;
      }
      OnScalar(t, k, seenAny);
      if open.st[open.sp] == Done { return false; }
      var good, j := ScalarEnd(s, i);
      if !good { return false; }
      Suffix(s, i, j - i);
      i := j;
      open.SetTop(Done);
      seenAny := true;
    }
    AtEnds(s, inStr, esc, open.View(), seenAny);
    ok := seenAny && !inStr && open.sp == 0 && open.st[0] == Done;
  }
}
