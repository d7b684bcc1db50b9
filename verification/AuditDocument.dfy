/**
 The audit record as a document. For a validated payload without NUL bytes the assembled text is the
 print of a tree built from the payload's own; with a NUL byte it never passes the validator again.
 */
module AuditDocument {
  import opened Wrappers
  import opened JsonSyntax
  import opened JsonEscapes
  import opened JsonScan
  import opened JsonValidator
  import opened Texts
  import opened AuditRecord
  import opened JsonBuild
  import JsonKeys
  import SeqFacts

  // ----- the tree -----

  function DecimalTree(n: int): Value {
    Num(Number(n < 0, DecimalNat(if n < 0 then -n else n), "", NoExp))
  }

  function BlockTree(c: Caller): Value {
    var attested := Word(if c.session.Some? then "true" else "false");
    Box(true, "",
        Cons("session", DecimalTree(if c.session.Some? then c.session.value else 0),
             if c.actor.Some? then Cons("attested", attested, One("actor", Str(Escape(c.actor.value))))
             else One("attested", attested)))
  }

  /** The members with one more behind the last. */
  function Behind(items: Items, key: string, v: Value): Items {
    Snoc(Snoc(items, ',', "", Str(key)), ':', "", v)
  }

  /** The attribution goes into an object, or around anything else. */
  function EntryTree(v: Value, block: Value): Value {
    if v.Box? && v.curly then
      Box(true, v.lead, Behind(v.items, "_actor", block))
    else if v.Empty? && v.curly then Box(true, "", One("_actor", block))
    else Box(true, "", Cons("value", v, One("_actor", block)))
  }

  function RecordTree(kind: string, v: Value, c: Caller): Value {
    Box(true, "", Cons("type", Str(Escape(kind)), One("entry", EntryTree(v, BlockTree(c)))))
  }

  // ----- its text -----

  lemma DecimalText(n: int)
    ensures Print(DecimalTree(n)) == Decimal(n) && DecimalTree(n).Num? && NumberOk(DecimalTree(n).num)
  {
    var d := DecimalNat(if n < 0 then -n else n);
    assert PrintFracExp("", NoExp) == "";
    assert d + "" == d && "" + d == d;
  }

  lemma BlockText(c: Caller)
    ensures Print(BlockTree(c)) == Block(c)
  {
    var n := if c.session.Some? then c.session.value else 0;
    var word := if c.session.Some? then "true" else "false";
    var attested := Word(word);
    var rest := if c.actor.Some? then Cons("attested", attested, One("actor", Str(Escape(c.actor.value))))
                else One("attested", attested);
    var tail := if c.actor.Some? then ",\"actor\":\"" + Escape(c.actor.value) + "\"" else "";
    DecimalText(n);
    ConsText("session", DecimalTree(n), rest);
    ObjectText(BlockTree(c).items);
    if c.actor.Some? {
      var e := Escape(c.actor.value);
      ConsText("attested", attested, One("actor", Str(e)));
      OneText("actor", Str(e));
      AttestedText(word, e);
    } else {
      OneText("attested", attested);
      assert Head("attested") + word == "\"attested\":" + word + "";
    }
    assert PrintItems(rest) == "\"attested\":" + word + tail;
    BlockPieces(Decimal(n), word, tail);
  }

  lemma AttestedText(word: string, e: string)
    ensures Head("attested") + (word + ("," + (Head("actor") + Print(Str(e)))))
         == "\"attested\":" + word + (",\"actor\":\"" + e + "\"")
  {
    assert Head("attested") == "\"attested\":";
    assert Head("actor") == "\"actor\":";
    assert "," + ("\"actor\":" + (['"'] + e + ['"'])) == ",\"actor\":\"" + e + "\"";
  }

  lemma BlockPieces(n: string, word: string, tail: string)
    ensures "{" + (Head("session") + (n + ("," + ("\"attested\":" + word + tail)))) + "}"
         == "{\"session\":" + n + (",\"attested\":" + word) + tail + "}"
  {
    assert "{" + Head("session") == "{\"session\":";
    assert "," + "\"attested\":" == ",\"attested\":";
    assert "," + ("\"attested\":" + word + tail) == ",\"attested\":" + word + tail;
  }

  // ----- the payload's own text -----

  lemma PrintLast(v: Value)
    requires Loose(v)
    ensures Print(v) != "" && !IsWs(Print(v)[|Print(v)| - 1])
    ensures v.Empty? || v.Box? ==> |Print(v)| >= 2 && Print(v)[|Print(v)| - 1] == CloseOf(v.curly)
  {
    hide PrintNumber, PrintItems, LooseItems, NumberOk;
    match v
    case Num(n) => NumberLast(n);
    case _ =>
  }

  lemma NumberLast(n: Number)
    requires NumberOk(n)
    ensures PrintNumber(n) != "" && !IsWs(PrintNumber(n)[|PrintNumber(n)| - 1])
  {
    NumberIsNumberText(n);
    NumberHead(n, "");
    assert IsNumberChar(PrintNumber(n)[|PrintNumber(n)| - 1]);
  }

  lemma {:induction false} TrimEndBlank(s: string, ws: string)
    requires Blank(ws) && s != "" && !IsWs(s[|s| - 1])
    ensures TrimEnd(s + ws) == s
    decreases |ws|
  {
    if ws == "" {
      assert s + ws == s;
    } else {
      var init := ws[..|ws| - 1];
      assert (s + ws)[|s + ws| - 1] == ws[|ws| - 1] && (s + ws)[..|s + ws| - 1] == s + init;
      TrimEndBlank(s, init);
    }
  }

  lemma TrimPrinted(d: Doc)
    requires DocOk(d)
    ensures Trim(PrintDoc(d)) == Print(d.value)
  {
    SeqFacts.Assoc(d.lead, Print(d.value), d.trail);
    PrintHead(d.value);
    PrintLast(d.value);
    assert (Print(d.value) + d.trail)[0] == Print(d.value)[0];
    SkipBlank(d.lead, Print(d.value) + d.trail);
    TrimEndBlank(Print(d.value), d.trail);
  }

  /** Which of the three splices the text takes is which sort of tree it is. */
  lemma ShapeOfPrint(v: Value)
    requires Loose(v)
    ensures IsObject(Print(v)) <==> (v.Empty? || v.Box?) && v.curly
    ensures IsObject(Print(v)) ==> (IsEmptyObject(Print(v)) <==> v.Empty?)
  {
    PrintHead(v);
    PrintLast(v);
    if v.Box? && v.curly {
      var s := Print(v);
      var inner := v.lead + PrintItems(v.items);
      SeqFacts.Assoc("{", v.lead, PrintItems(v.items));
      assert s == "{" + inner + "}";
      assert s[1..|s| - 1] == inner;
      PrintHead(v.items.value);
      assert inner[|v.lead|] == Print(v.items.value)[0];
    } else if v.Empty? && v.curly {
      assert Print(v)[1..|Print(v)| - 1] == v.gap;
    }
  }

  lemma ReservedMember(block: string)
    ensures [','] + ("" + ("\"" + "_actor" + "\"")) + ([':'] + ("" + block)) == ",\"_actor\":" + block
  {
    assert [','] + ("" + ("\"" + "_actor" + "\"")) == ",\"_actor\"";
    assert ",\"_actor\"" + [':'] == ",\"_actor\":";
    assert "" + block == block;
    SeqFacts.Assoc(",\"_actor\"", [':'], block);
  }

  /** The members of a value with the reserved one behind them. */
  lemma BehindText(items: Items, block: Value)
    ensures PrintItems(Behind(items, "_actor", block)) == PrintItems(items) + (",\"_actor\":" + Print(block))
  {
    hide Snoc, PrintItems;
    SnocText(items, ',', "", Str("_actor"));
    SnocText(Snoc(items, ',', "", Str("_actor")), ':', "", block);
    assert Print(Str("_actor")) == "\"" + "_actor" + "\"";
    hide *;
    ReservedMember(Print(block));
    SeqFacts.Assoc(PrintItems(items), [','] + ("" + ("\"" + "_actor" + "\"")), [':'] + ("" + Print(block)));
  }

  lemma SplicedText(v: Value, block: Value)
    requires v.Box? && v.curly
    ensures Print(EntryTree(v, block)) == Print(v)[..|Print(v)| - 1] + (",\"_actor\":" + Print(block) + "}")
  {
    hide Behind, PrintItems;
    BehindText(v.items, block);
    var open := "{" + v.lead + PrintItems(v.items);
    var more := ",\"_actor\":" + Print(block);
    assert Print(v) == open + "}" && (open + "}")[..|open|] == open;
    SeqFacts.Assoc("{" + v.lead, PrintItems(v.items), more);
    SeqFacts.Assoc(open, more, "}");
  }

  lemma WrappedText(v: Value, block: Value)
    ensures Print(Box(true, "", Cons("value", v, One("_actor", block))))
         == "{\"value\":" + Print(v) + (",\"_actor\":" + Print(block) + "}")
  {
    hide *;
    ConsText("value", v, One("_actor", block));
    OneText("_actor", block);
    ObjectText(Cons("value", v, One("_actor", block)));
    WrapHeads();
    SeqFacts.Assoc(",", Head("_actor"), Print(block));
    SeqFacts.Assoc("{", Head("value"), Print(v) + ("," + (Head("_actor") + Print(block))));
    SeqFacts.Assoc("{\"value\":", Print(v), ",\"_actor\":" + Print(block));
    SeqFacts.Assoc("{\"value\":" + Print(v), ",\"_actor\":" + Print(block), "}");
  }

  lemma WrapHeads()
    ensures "," + Head("_actor") == ",\"_actor\":" && "{" + Head("value") == "{\"value\":"
  {
  }

  lemma BareText(block: Value)
    ensures Print(Box(true, "", One("_actor", block))) == "{\"_actor\":" + Print(block) + "}"
  {
    hide *;
    OneText("_actor", block);
    ObjectText(One("_actor", block));
    BareHead();
    SeqFacts.Assoc("{", Head("_actor"), Print(block));
  }

  lemma BareHead()
    ensures "{" + Head("_actor") == "{\"_actor\":"
  {
  }

  lemma Closing(a: string, block: string)
    ensures a + (",\"_actor\":" + block + "}") + "}" == a + (",\"_actor\":" + block + "}}")
    ensures "{\"_actor\":" + block + "}" + "}" == "{\"_actor\":" + block + "}}"
  {
    assert "}" + "}" == "}}";
    SeqFacts.Assoc(",\"_actor\":" + block, "}", "}");
    SeqFacts.Assoc(a, ",\"_actor\":" + block + "}", "}");
    SeqFacts.Assoc("{\"_actor\":" + block, "}", "}");
  }

  lemma ValueHasNoNul(d: Doc)
    requires NoNul(PrintDoc(d))
    ensures NoNul(Print(d.value))
  {
    var s := Print(d.value);
    forall i | 0 <= i < |s|
      ensures s[i] != '\0'
    {
      assert PrintDoc(d)[|d.lead| + i] == s[i];
    }
  }

  /** Without a NUL byte the format string takes the whole of what it is given. */
  lemma EntryIs(payload: string, v: string, block: string)
    requires Trim(payload) == v && NoNul(v) && v != ""
    ensures Entry(payload, block)
         == if IsObject(v) && !IsEmptyObject(v) then v[..|v| - 1] + (",\"_actor\":" + block + "}}")
            else if IsObject(v) then "{\"_actor\":" + block + "}}"
            else "{\"value\":" + v + (",\"_actor\":" + block + "}}")
  {
    hide Trim, Formatted, NoNul, IsObject, IsEmptyObject;
    FormattedWhole(v);
    InitHasNoNul(v);
    FormattedWhole(v[..|v| - 1]);
  }

  lemma EntryText(d: Doc, block: Value)
    requires DocOk(d) && NoNul(PrintDoc(d))
    ensures Entry(PrintDoc(d), Print(block)) == Print(EntryTree(d.value, block)) + "}"
  {
    hide Print, Trim, Formatted, NoNul, IsObject, IsEmptyObject, PrintDoc, Entry, One, Cons, Behind;
    var v, s := d.value, Print(d.value);
    TrimPrinted(d);
    ShapeOfPrint(v);
    PrintLast(v);
    ValueHasNoNul(d);
    EntryIs(PrintDoc(d), s, Print(block));
    if v.Box? && v.curly {
      SplicedText(v, block);
      Closing(s[..|s| - 1], Print(block));
    } else if v.Empty? && v.curly {
      BareText(block);
      Closing("", Print(block));
    } else {
      WrappedText(v, block);
      Closing("{\"value\":" + s, Print(block));
    }
  }

  lemma InitHasNoNul(s: string)
    requires s != "" && NoNul(s)
    ensures NoNul(s[..|s| - 1])
  {
  }

  lemma RecordPieces(e: string, entry: string)
    ensures "{" + (Head("type") + (['"'] + e + ['"'] + ("," + (Head("entry") + entry)))) + "}"
         == "{\"type\":\"" + e + ("\",\"entry\":" + (entry + "}"))
  {
    var rest := "\",\"entry\":" + entry;
    assert "{" + Head("type") + ['"'] == "{\"type\":\"";
    assert ['"'] + ("," + Head("entry")) == "\",\"entry\":";
    SeqFacts.Assoc(",", Head("entry"), entry);
    SeqFacts.Assoc(['"'], "," + Head("entry"), entry);
    assert ['"'] + e + ['"'] + ("," + (Head("entry") + entry)) == ['"'] + (e + rest);
    SeqFacts.Assoc("{" + Head("type"), ['"'], e + rest);
    assert "{" + (Head("type") + (['"'] + (e + rest))) == "{\"type\":\"" + e + rest;
  }

  lemma RecordText(kind: string, entry: Value)
    ensures Print(Box(true, "", Cons("type", Str(Escape(kind)), One("entry", entry))))
         == "{\"type\":\"" + Escape(kind) + ("\",\"entry\":" + (Print(entry) + "}"))
  {
    var e := Escape(kind);
    ConsText("type", Str(e), One("entry", entry));
    OneText("entry", entry);
    ObjectText(Cons("type", Str(e), One("entry", entry)));
    assert Print(Str(e)) == ['"'] + e + ['"'];
    hide Print, PrintItems, Escape, Head;
    RecordPieces(e, Print(entry));
  }

  // ----- what the record is -----

  lemma BlockIsStrict(c: Caller)
    ensures Strict(BlockTree(c)) && Loose(BlockTree(c)) && Depth(BlockTree(c)) == 1
  {
    hide Strict, Loose, Depth, StrictMembers, LooseItems, DepthItems, RawOk, Escape, NumberOk, Print, DecimalTree, One, Cons;
    var n := DecimalTree(if c.session.Some? then c.session.value else 0);
    var attested := Word(if c.session.Some? then "true" else "false");
    DecimalText(if c.session.Some? then c.session.value else 0);
    PlainIsRaw("session");
    PlainIsRaw("attested");
    PlainIsRaw("actor");
    BlockItems(n, attested, c.actor);
    BoxIsStrict(BlockTree(c).items);
  }

  lemma BlockItems(n: Value, attested: Value, actor: Option<string>)
    requires n.Num? && NumberOk(n.num) && attested.Word? && WordOk(attested.text)
    requires RawOk("session") && RawOk("attested") && RawOk("actor")
    ensures var items := Cons("session", n, if actor.Some? then Cons("attested", attested, One("actor", Str(Escape(actor.value))))
                                            else One("attested", attested));
      LooseItems(items) && StrictMembers(items) && DepthItems(items) == 0
  {
    var rest := One("attested", attested);
    OneIsStrict("attested", attested);
    if actor.Some? {
      var last := Str(Escape(actor.value));
      EscapedIsRaw(actor.value);
      OneIsStrict("actor", last);
      rest := Cons("attested", attested, One("actor", last));
      ConsIsStrict("attested", attested, One("actor", last));
    }
    hide StrictMembers, LooseItems, DepthItems, Cons, One;
    ConsIsStrict("session", n, rest);
  }

  lemma BehindMembers(items: Items, key: string, v: Value)
    requires StrictMembers(items)
    ensures Behind(items, key, v)
         == items.(rest := if items.rest.Last? then More(items.rest.value, items.rest.trail, ',', "", One(key, v))
                           else items.rest.(rest := Behind(items.rest.rest, key, v)))
  {
    var rest := items.rest;
    var once := Snoc(items, ',', "", Str(key));
    assert once == items.(rest := Snoc(rest, ',', "", Str(key)));
    assert Behind(items, key, v) == items.(rest := Snoc(once.rest, ':', "", v));
    if rest.Last? {
      assert Snoc(rest, ',', "", Str(key)) == More(rest.value, rest.trail, ',', "", Last(Str(key), ""));
      assert Snoc(Last(Str(key), ""), ':', "", v) == One(key, v);
    } else {
      assert once.rest == rest.(rest := Snoc(rest.rest, ',', "", Str(key)));
    }
  }

  /** A member put behind the last one. */
  lemma {:induction false} StrictBehind(items: Items, key: string, v: Value)
    requires StrictMembers(items) && RawOk(key) && Strict(v) && Loose(v)
    ensures StrictMembers(Behind(items, key, v))
  {
    hide Behind;
    BehindMembers(items, key, v);
    if items.rest.More? {
      StrictBehind(items.rest.rest, key, v);
    } else {
      OneIsStrict(key, v);
    }
  }

  /** An object takes the attribution in; anything else is wrapped, one level deeper. */
  function EntryDepth(v: Value): nat {
    Max(if (v.Empty? || v.Box?) && v.curly then Depth(v) else Depth(v) + 1, 2)
  }

  lemma EntryIsDocument(v: Value, block: Value)
    requires Loose(v) && Strict(block) && Loose(block) && Depth(block) == 1
    ensures Loose(EntryTree(v, block)) && Depth(EntryTree(v, block)) == EntryDepth(v)
    ensures Strict(v) ==> Strict(EntryTree(v, block))
  {
    hide RawOk, Snoc, StrictMembers;
    PlainIsRaw("_actor");
    PlainIsRaw("value");
    OneIsStrict("_actor", block);
    if v.Box? && v.curly {
      if Strict(v) {
        StrictBehind(v.items, "_actor", block);
      }
    } else if v.Empty? && v.curly {
      BoxIsStrict(One("_actor", block));
    } else {
      ConsIsStrict("value", v, One("_actor", block));
      BoxIsStrict(Cons("value", v, One("_actor", block)));
    }
  }

  lemma RecordShape(kind: string, entry: Value)
    requires Loose(entry)
    ensures var record := Box(true, "", Cons("type", Str(Escape(kind)), One("entry", entry)));
      Loose(record) && Depth(record) == 1 + Depth(entry) && (Strict(entry) ==> Strict(record))
  {
    PlainIsRaw("type");
    PlainIsRaw("entry");
    EscapedIsRaw(kind);
    OneIsStrict("entry", entry);
    ConsIsStrict("type", Str(Escape(kind)), One("entry", entry));
    BoxIsStrict(Cons("type", Str(Escape(kind)), One("entry", entry)));
  }

  /**
   For every payload of the grammar without a NUL byte the record is the print of a document of the
   same grammar, one or two levels deeper; a JSON payload gives a JSON record.
   */
  lemma RecordIsDocument(kind: string, d: Doc, c: Caller)
    requires DocOk(d) && NoNul(PrintDoc(d))
    ensures var record := RecordTree(kind, d.value, c);
      && Assemble(kind, PrintDoc(d), Block(c)) == Print(record)
      && Loose(record) && Depth(record) == EntryDepth(d.value) + 1
      && (Strict(d.value) ==> Strict(record))
  {
    hide Strict, Loose, EntryTree, BlockTree, Block, Escape, Entry, Print, PrintDoc, NoNul;
    var block := BlockTree(c);
    var entry := EntryTree(d.value, block);
    BlockText(c);
    BlockIsStrict(c);
    EntryText(d, block);
    EscapeHasNoNul(kind);
    FormattedWhole(Escape(kind));
    RecordText(kind, entry);
    EntryIsDocument(d.value, block);
    RecordShape(kind, entry);
  }

  /** The first member of the record is its type, and it reads back as it was given. */
  lemma TypeReadsBack(kind: string, v: Value, c: Caller)
    ensures var at := JsonKeys.Member(RecordTree(kind, v, c), "type");
      at.Some? && at.value.value.Str? && Unescape(at.value.value.raw) == Some(kind)
  {
    EscapeRoundTrip(kind);
  }

  lemma {:induction false} HolderIsWritten(items: Items, key: string)
    requires StrictMembers(items) && JsonKeys.Holder(items, key).Some?
    ensures Contains(PrintItems(items), "\"" + key + "\"")
  {
    var needle := "\"" + key + "\"";
    var s := PrintItems(items);
    if items.value.raw == key {
      assert Print(items.value) == needle;
      assert s[0..0 + |needle|] == needle;
      assert StandsAt(s, needle, 0);
    } else {
      var deep := items.rest.rest;
      HolderIsWritten(deep, key);
      var i :| StandsAt(PrintItems(deep), needle, i);
      var a := Print(items.value) + items.trail + [items.sep] + items.lead;
      var b := Print(items.rest.value) + items.rest.trail + [items.rest.sep] + items.rest.lead;
      assert s == a + PrintItems(items.rest) && PrintItems(items.rest) == b + PrintItems(deep);
      SeqFacts.Assoc(a, b, PrintItems(deep));
      StandsBehind(a + b, PrintItems(deep), needle, i);
    }
  }

  lemma StandsBehind(before: string, s: string, needle: string, i: int)
    requires StandsAt(s, needle, i)
    ensures Contains(before + s, needle)
  {
    var j := |before| + i;
    assert (before + s)[j..j + |needle|] == s[i..i + |needle|];
    assert StandsAt(before + s, needle, j);
  }

  lemma {:induction false} HolderBehind(items: Items, key: string, v: Value)
    requires StrictMembers(items) && JsonKeys.Holder(items, key).None?
    ensures JsonKeys.Holder(Behind(items, key, v), key) == Some(Last(v, ""))
  {
    BehindMembers(items, key, v);
    if items.rest.More? {
      HolderBehind(items.rest.rest, key, v);
    }
  }

  /**
   In the entry of an accepted JSON payload the attribution block is the first member whose key is
   written "_actor". Keys written in another way are the business of module AuditActor.
   */
  lemma AttributionIsOurs(d: Doc, c: Caller)
    requires DocOk(d) && Strict(d.value) && !Contains(PrintDoc(d), RESERVED)
    ensures JsonKeys.Member(EntryTree(d.value, BlockTree(c)), "_actor") == Some(Last(BlockTree(c), ""))
  {
    var v := d.value;
    if v.Box? && v.curly {
      if JsonKeys.Holder(v.items, "_actor").Some? {
        HolderIsWritten(v.items, "_actor");
        assert RESERVED == "\"" + "_actor" + "\"";
        var i :| StandsAt(PrintItems(v.items), RESERVED, i);
        StandsInDoc(d, i);
        assert false;
      }
      HolderBehind(v.items, "_actor", BlockTree(c));
    } else {
      assert "value" != "_actor" by {
        assert |"value"| != |"_actor"|;
      }
      assert JsonKeys.Holder(One("_actor", BlockTree(c)), "_actor") == Some(Last(BlockTree(c), ""));
    }
  }

  lemma StandsInDoc(d: Doc, i: int)
    requires d.value.Box? && StandsAt(PrintItems(d.value.items), RESERVED, i)
    ensures Contains(PrintDoc(d), RESERVED)
  {
    var v := d.value;
    var items := PrintItems(v.items);
    var before := d.lead + ([OpenOf(v.curly)] + v.lead);
    var after := [CloseOf(v.curly)] + d.trail;
    assert PrintDoc(d) == before + (items + after);
    assert (items + after)[i..i + |RESERVED|] == items[i..i + |RESERVED|];
    assert StandsAt(items + after, RESERVED, i);
    StandsBehind(before, items + after, RESERVED, i);
  }
}
