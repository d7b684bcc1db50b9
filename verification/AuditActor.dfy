/**
 Who an audit entry says has acted. The reserved key is looked for as it is written, so a payload can
 bring a member of its own whose key only reads as "_actor".
 */
module AuditActor {
  import opened Wrappers
  import opened JsonSyntax
  import opened JsonEscapes
  import opened JsonValidator
  import opened Texts
  import opened AuditRecord
  import opened AuditDocument
  import opened JsonBuild
  import SeqFacts

  const ACTOR: string := "_actor"

  /** The values of the members whose key reads as `name`, in order. */
  function ReadAs(items: Items, name: string): seq<Value>
    decreases items
  {
    if !(items.More? && items.value.Str?) then []
    else
      (if Unescape(items.value.raw) == Some(name) then [items.rest.value] else [])
      + if items.rest.More? then ReadAs(items.rest.rest, name) else []
  }

  /** The top-level members of a value whose key reads as "_actor". */
  function Actors(v: Value): seq<Value> {
    if v.Box? && v.curly then ReadAs(v.items, ACTOR) else []
  }

  lemma OneReadAs(key: string, v: Value, name: string)
    ensures ReadAs(One(key, v), name) == if Unescape(key) == Some(name) then [v] else []
  {
  }

  lemma {:induction false} BehindReadAs(items: Items, key: string, v: Value, name: string)
    requires StrictMembers(items)
    ensures ReadAs(Behind(items, key, v), name) == ReadAs(items, name) + if Unescape(key) == Some(name) then [v] else []
  {
    hide Behind, Unescape;
    BehindMembers(items, key, v);
    var more := if Unescape(key) == Some(name) then [v] else [];
    var here := if Unescape(items.value.raw) == Some(name) then [items.rest.value] else [];
    if items.rest.More? {
      BehindReadAs(items.rest.rest, key, v, name);
      SeqFacts.Assoc(here, ReadAs(items.rest.rest, name), more);
    } else {
      OneReadAs(key, v, name);
      assert here + [] == here;
    }
  }

  /** The entry's actors are those the payload brings, and the attribution block behind them. */
  lemma EntryActors(v: Value, block: Value)
    requires Strict(v)
    ensures Actors(EntryTree(v, block)) == Actors(v) + [block]
  {
    hide Unescape, Behind;
    PlainReadsBack(ACTOR);
    PlainReadsBack("value");
    OneReadAs(ACTOR, block, ACTOR);
    if v.Box? && v.curly {
      BehindReadAs(v.items, ACTOR, block, ACTOR);
    } else if !(v.Empty? && v.curly) {
      assert "value" != ACTOR by {
        assert |"value"| != |ACTOR|;
      }
      assert ReadAs(Cons("value", v, One(ACTOR, block)), ACTOR) == [] + ReadAs(One(ACTOR, block), ACTOR);
    }
  }

  /**
   For every accepted JSON payload the attribution block is the only member of the entry that reads as
   "_actor" exactly when no top-level key of the payload does. It is always the last one.
   */
  lemma OnlyActorIff(d: Doc, c: Caller)
    requires DocOk(d) && Strict(d.value) && !Contains(PrintDoc(d), RESERVED)
    ensures Actors(EntryTree(d.value, BlockTree(c))) == [BlockTree(c)] <==> Actors(d.value) == []
    ensures var actors := Actors(EntryTree(d.value, BlockTree(c)));
      actors != [] && actors[|actors| - 1] == BlockTree(c)
  {
    hide EntryTree, BlockTree, Actors;
    EntryActors(d.value, BlockTree(c));
    assert |Actors(d.value) + [BlockTree(c)]| == |Actors(d.value)| + 1;
    assert [] + [BlockTree(c)] == [BlockTree(c)];
  }

  // ----- a payload that names an actor -----

  const SPELLING: string := "\\u005factor"

  /** {"\u005factor":true} */
  const SPELLED: Doc := Doc("", Box(true, "", One(SPELLING, Word("true"))), "")

  lemma EscapeOfUnderscore(rest: string)
    ensures Unescape("\\u005f" + rest).Some? == Unescape(rest).Some?
    ensures Unescape(rest).Some? ==> Unescape("\\u005f" + rest) == Some("_" + Unescape(rest).value)
  {
    assert Hex4(0x5f) == "005f" && "\\u" + "005f" == "\\u005f";
    StepPastU(0x5f, rest);
    hide Unescape, UnescapeStep;
    UnescapeSplit("\\u005f" + rest);
  }

  lemma SpelledKey()
    ensures Unescape(SPELLING) == Some(ACTOR)
  {
    assert SPELLING == "\\u005f" + "actor" && "_" + "actor" == ACTOR;
    hide Unescape;
    PlainReadsBack("actor");
    EscapeOfUnderscore("actor");
  }

  lemma SpelledRaw()
    ensures RawOk(SPELLING)
  {
    hide RawOk;
    assert SPELLING[2..] == "005factor";
    PlainIsRaw("005factor");
    EscapeIsRaw(SPELLING);
  }

  lemma EscapeIsRaw(raw: string)
    requires |raw| > 1 && raw[0] == '\\' && RawOk(raw[2..])
    ensures RawOk(raw)
  {
  }

  predicate Clean(s: string) {
    forall i :: 0 <= i < |s| ==> s[i] != '\0' && s[i] != '_'
  }

  lemma SpelledText()
    ensures NoNul(PrintDoc(SPELLED)) && '_' !in PrintDoc(SPELLED)
  {
    var value := SPELLED.value;
    assert value == Box(true, "", One(SPELLING, Word("true")));
    assert PrintDoc(SPELLED) == "" + Print(value) + "" == Print(value);
    assert Clean(Head(SPELLING) + "true");
    hide Print, PrintItems, One, SPELLED;
    OneText(SPELLING, Word("true"));
    ObjectText(One(SPELLING, Word("true")));
    assert Print(Word("true")) == "true" by {
      WordText("true");
    }
    assert Clean(Print(value));
  }

  lemma WordText(text: string)
    ensures Print(Word(text)) == text
  {
  }

  lemma SpelledShape()
    ensures DocOk(SPELLED) && Strict(SPELLED.value) && Depth(SPELLED.value) <= MAX_DEPTH
  {
    SpelledRaw();
    hide RawOk;
    OneIsStrict(SPELLING, Word("true"));
    BoxIsStrict(One(SPELLING, Word("true")));
  }

  lemma SpelledActors()
    ensures Actors(SPELLED.value) == [Word("true")]
  {
    hide Unescape;
    SpelledKey();
    OneReadAs(SPELLING, Word("true"), ACTOR);
  }

  lemma CharOfNeedle(s: string, needle: string, i: int, k: nat)
    requires StandsAt(s, needle, i) && k < |needle|
    ensures needle[k] in s
  {
    assert s[i..i + |needle|][k] == s[i + k];
  }

  lemma NoUnderscore(s: string)
    requires '_' !in s
    ensures !Contains(s, RESERVED)
  {
    if i :| StandsAt(s, RESERVED, i) {
      CharOfNeedle(s, RESERVED, i, 1);
    }
  }

  /** It is accepted, and its entry has two members that read as "_actor", the payload's own first. */
  lemma SpelledActor(c: Caller)
    ensures DocOk(SPELLED) && Strict(SPELLED.value) && NoNul(PrintDoc(SPELLED))
    ensures InGrammar(PrintDoc(SPELLED)) && !Contains(PrintDoc(SPELLED), RESERVED)
    ensures Actors(EntryTree(SPELLED.value, BlockTree(c))) == [Word("true"), BlockTree(c)]
  {
    hide *;
    SpelledActors();
    SpelledShape();
    SpelledText();
    NoUnderscore(PrintDoc(SPELLED));
    AcceptedIffShallow(SPELLED);
    AcceptsExactlyTheGrammar(PrintDoc(SPELLED));
    EntryActors(SPELLED.value, BlockTree(c));
    assert [Word("true")] + [BlockTree(c)] == [Word("true"), BlockTree(c)];
  }
}
