/**
 Where the audit record goes wrong. The validator lets any byte stand behind a backslash, a NUL byte
 too, and "%.*s" stops at it: such a payload is accepted, and its record is not well formed.
 */
module AuditNul {
  import opened Wrappers
  import opened JsonSyntax
  import opened JsonEscapes
  import opened JsonScan
  import opened JsonValidator
  import opened Texts
  import opened AuditRecord
  import opened AuditDocument
  import opened JsonBuild
  import SeqFacts

  /** What the format string writes behind a payload. */
  const NEXT: string := ",\"_"

  /** The first NUL byte of a text. */
  predicate FirstNul(s: string, i: nat) {
    i < |s| && s[i] == '\0' && NoNul(s[..i])
  }

  function Cut(u: string, i: nat, more: string): string
    requires i <= |u|
  {
    u[..i] + (NEXT + more)
  }

  lemma CutTail(u: string, k: nat, i: nat, more: string)
    requires k <= i <= |u|
    ensures Cut(u, i, more) == u[..k] + Cut(u[k..], i - k, more)
    ensures Cut(u, i, more)[k..] == Cut(u[k..], i - k, more)
    ensures k < i ==> Cut(u, i, more)[..k] == u[..k]
  {
    assert u[..i] == u[..k] + u[k..][..i - k];
    SeqFacts.Assoc(u[..k], u[k..][..i - k], NEXT + more);
    SeqFacts.Skip(u[..k], Cut(u[k..], i - k, more));
  }

  lemma FirstNulTail(u: string, k: nat, i: nat)
    requires FirstNul(u, i) && k <= i
    ensures FirstNul(u[k..], i - k)
  {
    var a, b := u[k..][..i - k], u[..i];
    assert forall j :: 0 <= j < |a| ==> a[j] == b[j + k];
  }

  lemma CutBackslash(t: string, more: string)
    requires |t| > 1 && t[0] == '\\'
    ensures ScanString(Cut(t, 1, more)).0 && ScanString(Cut(t, 1, more)).2 == "_" + more
  {
    var w := Cut(t, 1, more);
    assert w[0] == '\\' && w[1] == ',' && w[2] == '"';
    assert w[2..][1..] == "_" + more;
    assert ScanString(w[2..]) == (true, "", "_" + more);
  }

  lemma StringHead(t: string)
    requires ScanString(t).0
    ensures t != "" && t[0] != '\0' && (t[0] == '\\' ==> |t| > 1)
    ensures t[0] != '"' ==>
      var k := if t[0] == '\\' then 2 else 1;
      ScanString(t[k..]).0 && |ScanString(t).1| == k + |ScanString(t[k..]).1| && ScanString(t).2 == ScanString(t[k..]).2
    ensures t[0] == '"' ==> ScanString(t).1 == ""
  {
  }

  lemma StringSteps(w: string, k: nat)
    requires |w| >= k > 0 && w[0] != '"' && w[0] as int >= 0x20 && k == if w[0] == '\\' then 2 else 1
    ensures ScanString(w).0 == ScanString(w[k..]).0 && (ScanString(w).0 ==> ScanString(w).2 == ScanString(w[k..]).2)
  {
  }

  lemma {:induction false} CutString(t: string, i: nat, more: string)
    requires ScanString(t).0 && FirstNul(t, i) && i < |ScanString(t).1|
    ensures ScanString(Cut(t, i, more)).0 && ScanString(Cut(t, i, more)).2 == "_" + more
    decreases |t|
  {
    StringHead(t);
    StringChar(t);
    hide ScanString;
    var w := Cut(t, i, more);
    if t[0] == '\\' && i == 1 {
      CutBackslash(t, more);
    } else {
      var k := if t[0] == '\\' then 2 else 1;
      CutTail(t, k, i, more);
      FirstNulTail(t, k, i);
      CutString(t[k..], i - k, more);
      assert w[0] == t[0];
      StringSteps(w, k);
    }
  }

  lemma StringChar(t: string)
    requires ScanString(t).0
    ensures t != "" && t[0] as int >= 0x20
  {
  }

  lemma CutPastString(t: string, i: nat, more: string)
    requires ScanString(t).0 && FirstNul(t, i) && i > |ScanString(t).1|
    ensures var (_, raw, rest) := ScanString(t);
      FirstNul(rest, i - |raw| - 1)
      && ScanString(Cut(t, i, more)) == (true, raw, Cut(rest, i - |raw| - 1, more))
  {
    var (_, raw, rest) := ScanString(t);
    var k := |raw| + 1;
    ScanStringOnto(t);
    SeqFacts.Skip(raw + ['"'], rest);
    assert t[..k] == raw + ['"'] && t[k..] == rest;
    CutTail(t, k, i, more);
    FirstNulTail(t, k, i);
    ScanPrintedString(raw, Cut(rest, i - k, more));
  }

  lemma NothingAfterValue(more: string, k: Stack, seen: bool)
    requires k.st == Done
    ensures !Accepts("_" + more, k, seen)
  {
    assert ("_" + more)[0] == '_';
  }

  lemma NotNul(u: string, k: Stack, seen: bool)
    requires u != "" && u[0] == '\0'
    ensures !Accepts(u, k, seen)
  {
    assert NumberLength(u, Start).None?;
  }

  lemma DoneDelimits(t: string, k: Stack, seen: bool)
    requires Accepts(t, k, seen) && k.st == Done
    ensures Delimited(t)
  {
  }

  // One step of the machine, whichever stack it runs on.

  lemma StepString(u: string, k: Stack, seen: bool)
    requires u != "" && u[0] == '"'
    ensures Accepts(u, k, seen)
         == (k.st != Done && ScanString(u[1..]).0 && Accepts(ScanString(u[1..]).2, k.(st := Done), true))
  {
  }

  function After(k: Stack, c: char): Option<Stack>
    requires IsWs(c) || IsMark(c)
  {
    if IsWs(c) then Some(k) else Marked(k, c)
  }

  lemma StepMark(u: string, k: Stack, seen: bool)
    requires u != "" && (IsWs(u[0]) || IsMark(u[0]))
    ensures Accepts(u, k, seen)
         == (After(k, u[0]).Some? && Accepts(u[1..], After(k, u[0]).value, seen || u[0] == '[' || u[0] == '{'))
  {
  }

  lemma StepScalar(u: string, k: Stack, seen: bool)
    requires StartsScalar(u)
    ensures Accepts(u, k, seen)
         == (k.st != Done && ScalarLength(u).Some? && Accepts(u[ScalarLength(u).value..], k.(st := Done), true))
  {
    OnScalar(u, k, seen);
  }

  /** The NUL byte stands behind a token that holds none, and not right behind it. */
  lemma BehindToken(u: string, tok: string, i: nat)
    requires tok <= u && NoNul(tok) && FirstNul(u, i) && Delimited(u[|tok|..])
    ensures |tok| < i
  {
    assert forall j :: 0 <= j < |tok| ==> tok[j] == u[j];
    if |tok| < |u| {
      assert u[|tok|..][0] == u[|tok|];
    }
  }

  lemma CutNumber(u: string, n: nat, i: nat, more: string)
    requires NumberLength(u, Start) == Some(n) && FirstNul(u, i) && Delimited(u[n..])
    ensures 0 < n < i && NumberLength(Cut(u, i, more), Start) == Some(n)
  {
    var num, rest := NumberOnto(u);
    var p := PrintNumber(num);
    NumberIsNumberText(num);
    SeqFacts.Skip(p, rest);
    BehindToken(u, p, i);
    CutTail(u, n, i, more);
    assert Cut(rest, i - n, more)[0] == rest[0];
    NumberPrinted(num, Cut(rest, i - n, more));
  }

  lemma CutWord(u: string, lit: string, i: nat, more: string)
    requires lit <= u && WordOk(lit) && FirstNul(u, i) && Delimited(u[|lit|..])
    ensures |lit| < i && lit <= Cut(u, i, more)
  {
    BehindToken(u, lit, i);
    CutTail(u, |lit|, i, more);
  }

  lemma CutScalar(u: string, n: nat, i: nat, more: string)
    requires StartsScalar(u) && ScalarLength(u) == Some(n) && FirstNul(u, i) && Delimited(u[n..])
    ensures 0 < n < i && StartsScalar(Cut(u, i, more)) && ScalarLength(Cut(u, i, more)) == Some(n)
  {
    if u[0] == 't' || u[0] == 'f' || u[0] == 'n' {
      CutWord(u, Literal(u[0]), i, more);
    } else {
      CutNumber(u, n, i, more);
    }
    assert Cut(u, i, more)[0] == u[0];
  }

  /** A text cut at its NUL and gone on with as the record does is not accepted, on any stack. */
  lemma {:induction false} CutRejected(u: string, i: nat, k: Stack, seen: bool, k': Stack, seen': bool, more: string)
    requires FirstNul(u, i) && Accepts(u, k, seen)
    ensures !Accepts(Cut(u, i, more), k', seen')
    decreases |u|
  {
    hide Accepts, ScanString, ScalarLength, NumberLength, Marked, FirstNul, Cut;
    FirstNulHead(u, i, more);
    var c := u[0];
    var w := Cut(u, i, more);
    if i == 0 {
      NotNul(u, k, seen);
    } else if c == '"' {
      StepString(u, k, seen);
      StepString(w, k', seen');
      CutAtString(u, i, more);
      if i - 1 < |ScanString(u[1..]).1| {
        NothingAfterValue(more, k'.(st := Done), true);
      } else {
        var (_, raw, rest) := ScanString(u[1..]);
        CutRejected(rest, i - |raw| - 2, k.(st := Done), true, k'.(st := Done), true, more);
      }
    } else if IsWs(c) || IsMark(c) {
      StepMark(u, k, seen);
      StepMark(w, k', seen');
      CutTail(u, 1, i, more);
      FirstNulTail(u, 1, i);
      if After(k', c).Some? {
        CutRejected(u[1..], i - 1, After(k, c).value, seen || c == '[' || c == '{',
                    After(k', c).value, seen' || c == '[' || c == '{', more);
      }
    } else {
      StepScalar(u, k, seen);
      var n := ScalarLength(u).value;
      DoneDelimits(u[n..], k.(st := Done), true);
      CutScalar(u, n, i, more);
      StepScalar(w, k', seen');
      CutTail(u, n, i, more);
      FirstNulTail(u, n, i);
      CutRejected(u[n..], i - n, k.(st := Done), true, k'.(st := Done), true, more);
    }
  }

  lemma FirstNulHead(u: string, i: nat, more: string)
    requires FirstNul(u, i)
    ensures i < |u| && (i == 0 ==> u[0] == '\0')
    ensures i > 0 ==> Cut(u, i, more) != "" && Cut(u, i, more)[0] == u[0]
  {
  }

  lemma CutAtString(u: string, i: nat, more: string)
    requires FirstNul(u, i) && 0 < i < |u| && u[0] == '"' && ScanString(u[1..]).0
    ensures var (_, raw, rest) := ScanString(u[1..]);
      var w := Cut(u, i, more);
      && w != ""
      && (i - 1 < |raw| ==> ScanString(w[1..]).0 && ScanString(w[1..]).2 == "_" + more)
      && (i - 1 >= |raw| ==>
            i - |raw| - 2 >= 0 && FirstNul(rest, i - |raw| - 2) && |rest| < |u|
            && ScanString(w[1..]).0 && ScanString(w[1..]).2 == Cut(rest, i - |raw| - 2, more))
  {
    var t := u[1..];
    var (_, raw, rest) := ScanString(t);
    CutTail(u, 1, i, more);
    FirstNulTail(u, 1, i);
    if i - 1 < |raw| {
      CutString(t, i - 1, more);
    } else {
      ScanStringOnto(t);
      assert t[|raw|] == '"';
      CutPastString(t, i - 1, more);
    }
  }

  // ----- the record -----

  lemma {:induction false} SomeNul(s: string) returns (i: nat)
    requires !NoNul(s)
    ensures FirstNul(s, i) && Formatted(s) == s[..i]
    decreases |s|
  {
    if s[0] == '\0' {
      i := 0;
    } else {
      assert !NoNul(s[1..]) by {
        var j :| 0 <= j < |s| && s[j] == '\0';
        assert s[1..][j - 1] == '\0';
      }
      i := SomeNul(s[1..]);
      assert s[..i + 1] == [s[0]] + s[1..][..i];
      i := i + 1;
    }
  }

  lemma {:induction false} FormattedCut(s: string, i: nat)
    requires FirstNul(s, i)
    ensures Formatted(s) == s[..i]
    decreases |s|
  {
    if i > 0 {
      assert s[..i][0] == s[0];
      FirstNulTail(s, 1, i);
      FormattedCut(s[1..], i - 1);
      assert s[..i] == [s[0]] + s[1..][..i - 1];
    }
  }

  lemma AcceptsMember(key: string, x: string, below: Stack, st: State, seen: bool)
    requires RawOk(key) && st != Done
    ensures Accepts(Head(key) + x, Push(below, true, st), seen) == Accepts(x, Push(below, true, Wanting), true)
  {
    HeadText(key);
    SeqFacts.Assoc(Print(Str(key)), [':'], x);
    AcceptsString(key, [':'] + x, Push(below, true, st), seen);
    AcceptsSep(':', x, below, true, true);
  }

  /** What stands in front of the entry takes the machine to a value's place. */
  lemma AcceptsPrefix(kind: string, x: string)
    ensures Accepts("{\"type\":\"" + Escape(kind) + ("\",\"entry\":" + x), Bottom(Fresh), false)
         == Accepts(x, Push(Bottom(Fresh), true, Wanting), true)
  {
    hide Accepts;
    var e := Escape(kind);
    var y := Head("entry") + x;
    PlainIsRaw("type");
    PlainIsRaw("entry");
    EscapedIsRaw(kind);
    PrefixPieces(e, x);
    AcceptsOpen(true, Head("type") + (Print(Str(e)) + ([','] + y)), Bottom(Fresh), false);
    AcceptsMember("type", Print(Str(e)) + ([','] + y), Bottom(Fresh), Fresh, true);
    AcceptsString(e, [','] + y, Push(Bottom(Fresh), true, Wanting), true);
    AcceptsSep(',', y, Bottom(Fresh), true, true);
    AcceptsMember("entry", x, Bottom(Fresh), Wanting, true);
  }

  lemma PrefixPieces(e: string, x: string)
    ensures "{\"type\":\"" + e + ("\",\"entry\":" + x)
         == ['{'] + (Head("type") + (Print(Str(e)) + ([','] + (Head("entry") + x))))
  {
    assert ['{'] + Head("type") + ['"'] == "{\"type\":\"";
    assert ['"'] + [','] + Head("entry") == "\",\"entry\":";
    var z := [','] + (Head("entry") + x);
    SeqFacts.Assoc4(['"'], [','], Head("entry"), x);
    SeqFacts.Assoc4(['"'], e, ['"'], z);
    SeqFacts.Assoc4(['{'], Head("type"), ['"'], e + (['"'] + z));
    SeqFacts.Assoc("{\"type\":\"", e, "\",\"entry\":" + x);
    assert ['"'] + (e + (['"'] + z)) == Print(Str(e)) + z;
  }

  lemma AcceptsWrapper(x: string, below: Stack)
    requires Height(below) < MAX_DEPTH && below.st != Done
    ensures Accepts("{\"value\":" + x, below, true) == Accepts(x, Push(below, true, Wanting), true)
  {
    hide Accepts;
    PlainIsRaw("value");
    assert ['{'] + Head("value") == "{\"value\":";
    SeqFacts.Assoc(['{'], Head("value"), x);
    AcceptsOpen(true, Head("value") + x, below, true);
    AcceptsMember("value", x, below, Fresh, true);
  }

  /** The NUL byte of an accepted payload stands in the value itself. */
  lemma NulInValue(d: Doc)
    requires DocOk(d) && !NoNul(PrintDoc(d))
    ensures !NoNul(Print(d.value))
  {
    if NoNul(Print(d.value)) {
      NoNulJoin(d.lead, Print(d.value));
      NoNulJoin(d.lead + Print(d.value), d.trail);
    }
  }

  lemma NoNulJoin(a: string, b: string)
    requires NoNul(a) && NoNul(b)
    ensures NoNul(a + b)
  {
  }

  /** The entry text of such a payload is the payload cut at its NUL byte, and what follows. */
  lemma SpoiledEntry(d: Doc, block: string, i: nat)
    requires DocOk(d) && FirstNul(Print(d.value), i)
    ensures var x := Cut(Print(d.value), i, "actor\":" + block + "}}");
      Entry(PrintDoc(d), block) == if IsObject(Print(d.value)) then x else "{\"value\":" + x
  {
    var v := Print(d.value);
    TrimPrinted(d);
    ShapeOfPrint(d.value);
    hide *;
    FormattedCut(v, i);
    if IsObject(v) {
      NotEmptyWithNul(d.value, i);
      ObjectEnds(v);
      FirstNulInit(v, i);
      FormattedCut(v[..|v| - 1], i);
      EntryOfObject(PrintDoc(d), v, block, i);
    } else {
      EntryOfOther(PrintDoc(d), v, block, i);
    }
  }

  lemma NextText(block: string)
    ensures ",\"_actor\":" + block + "}}" == NEXT + ("actor\":" + block + "}}")
  {
    assert ",\"_actor\":" == NEXT + "actor\":";
    SeqFacts.Assoc(NEXT, "actor\":", block);
    SeqFacts.Assoc(NEXT, "actor\":" + block, "}}");
  }

  lemma EntryOfObject(payload: string, v: string, block: string, i: nat)
    requires Trim(payload) == v && IsObject(v) && !IsEmptyObject(v)
    requires i <= |v| && Formatted(v[..|v| - 1]) == v[..i]
    ensures Entry(payload, block) == Cut(v, i, "actor\":" + block + "}}")
  {
    NextText(block);
  }

  lemma EntryOfOther(payload: string, v: string, block: string, i: nat)
    requires Trim(payload) == v && !IsObject(v)
    requires i <= |v| && Formatted(v) == v[..i]
    ensures Entry(payload, block) == "{\"value\":" + Cut(v, i, "actor\":" + block + "}}")
  {
    NextText(block);
    SeqFacts.Assoc("{\"value\":", v[..i], NEXT + ("actor\":" + block + "}}"));
  }

  lemma ObjectEnds(v: string)
    requires IsObject(v)
    ensures v != "" && v[|v| - 1] != '\0'
  {
  }

  lemma InsideRecord()
    ensures var k := Push(Bottom(Fresh), true, Wanting); Height(k) < MAX_DEPTH && k.st != Done
  {
  }

  lemma EntryRejected(d: Doc, block: string)
    requires DocOk(d) && Depth(d.value) <= MAX_DEPTH && !NoNul(PrintDoc(d))
    ensures !Accepts(Entry(PrintDoc(d), block), Push(Bottom(Fresh), true, Wanting), true)
  {
    hide *;
    var k := Push(Bottom(Fresh), true, Wanting);
    InsideRecord();
    var v := Print(d.value);
    var u := v + d.trail;
    var more := "actor\":" + block + "}}";
    GrammarAccepts(d);
    NulInValue(d);
    var i := SomeNul(v);
    NulInside(v, d.trail, i);
    SpoiledEntry(d, block, i);
    CutRejected(u, i, Bottom(Fresh), false, k, true, more);
    CutRejected(u, i, Bottom(Fresh), false, Push(k, true, Wanting), true, more);
    AcceptsWrapper(Cut(u, i, more), k);
  }

  /** A payload with a NUL byte passes the validator, and its record never does. */
  lemma NulSpoilsRecord(kind: string, d: Doc, block: string)
    requires DocOk(d) && Depth(d.value) <= MAX_DEPTH && !NoNul(PrintDoc(d))
    ensures InGrammar(PrintDoc(d)) && !InGrammar(Assemble(kind, PrintDoc(d), block))
  {
    hide Accepts, InGrammar, Entry, PrintDoc, Escape, Formatted, NoNul;
    GrammarAccepts(d);
    EntryRejected(d, block);
    EscapeHasNoNul(kind);
    FormattedWhole(Escape(kind));
    AcceptsPrefix(kind, Entry(PrintDoc(d), block));
    AcceptsExactlyTheGrammar(Assemble(kind, PrintDoc(d), block));
  }

  lemma GrammarAccepts(d: Doc)
    requires DocOk(d) && Depth(d.value) <= MAX_DEPTH
    ensures InGrammar(PrintDoc(d)) && Accepts(Print(d.value) + d.trail, Bottom(Fresh), false)
  {
    AcceptedIffShallow(d);
    SeqFacts.Assoc(d.lead, Print(d.value), d.trail);
    AcceptsBlank(d.lead, Print(d.value) + d.trail, Bottom(Fresh), false);
  }

  lemma NulInside(v: string, trail: string, i: nat)
    requires FirstNul(v, i)
    ensures FirstNul(v + trail, i)
    ensures forall more :: Cut(v + trail, i, more) == Cut(v, i, more)
  {
    assert (v + trail)[..i] == v[..i];
  }

  lemma FirstNulInit(v: string, i: nat)
    requires FirstNul(v, i) && v[|v| - 1] != '\0'
    ensures FirstNul(v[..|v| - 1], i) && v[..|v| - 1][..i] == v[..i]
  {
    assert v[..|v| - 1][..i] == v[..i];
  }

  lemma NotEmptyWithNul(v: Value, i: nat)
    requires Loose(v) && FirstNul(Print(v), i)
    ensures !v.Empty?
  {
  }

  /**
   The record of an accepted payload is again accepted exactly when the payload has no NUL byte and
   the members put around it do not push it past the validator's depth.
   */
  lemma WellFormedRecord(kind: string, d: Doc, c: Caller)
    requires DocOk(d) && Depth(d.value) <= MAX_DEPTH
    ensures InGrammar(Assemble(kind, PrintDoc(d), Block(c)))
        <==> NoNul(PrintDoc(d)) && EntryDepth(d.value) < MAX_DEPTH
  {
    hide Assemble, Block, RecordTree, NoNul, Loose, Depth, Accepts, InGrammar;
    if NoNul(PrintDoc(d)) {
      RecordIsDocument(kind, d, c);
      var r := Doc("", RecordTree(kind, d.value, c), "");
      assert PrintDoc(r) == Print(r.value);
      AcceptedIffShallow(r);
      AcceptsExactlyTheGrammar(PrintDoc(r));
    } else {
      NulSpoilsRecord(kind, d, Block(c));
    }
  }
}
