/**
 What a reader of the chain finds in an audit record, member by member.
 */
module AuditMeaning {
  import opened Wrappers
  import opened JsonSyntax
  import opened JsonEscapes
  import opened JsonValidator
  import opened Texts
  import opened AuditRecord
  import opened AuditDocument
  import opened JsonBuild
  import opened JsonPrivacy
  import JsonKeys
  import SeqFacts

  /** The members of a value with their keys as they are written, in order. */
  function Pairs(v: Value): seq<(string, Value)> {
    if v.Box? && v.curly then MembersOf(v.items) else []
  }

  lemma {:induction false} PairsBehind(items: Items, key: string, v: Value)
    requires StrictMembers(items)
    ensures MembersOf(Behind(items, key, v)) == MembersOf(items) + [(key, v)]
  {
    hide Behind;
    BehindMembers(items, key, v);
    if items.rest.More? {
      PairsBehind(items.rest.rest, key, v);
      SeqFacts.Assoc([(items.value.raw, items.rest.value)], MembersOf(items.rest.rest), [(key, v)]);
    } else {
      assert MembersOf(One(key, v)) == [(key, v)];
    }
  }

  lemma PairsOfCons(key: string, v: Value, rest: Items)
    ensures MembersOf(Cons(key, v, rest)) == [(key, v)] + MembersOf(rest)
    ensures MembersOf(One(key, v)) == [(key, v)]
  {
  }

  /**
   The attribution block: the session's number, or 0 without one; whether there was a session; and the actor,
   when one was named.
   */
  lemma BlockSays(c: Caller) returns (number: Number, actor: string)
    ensures Pairs(BlockTree(c))
         == [("session", Num(number)), ("attested", Word(if c.session.Some? then "true" else "false"))]
            + if c.actor.Some? then [("actor", Str(actor))] else []
    ensures number.frac == "" && number.exp == NoExp && Digits(number.whole)
    ensures var session := if c.session.Some? then c.session.value else 0;
      number.minus == (session < 0) && DigitsValue(number.whole) == if session < 0 then -session else session
    ensures c.actor.Some? ==> Unescape(actor) == c.actor
  {
    hide DecimalNat, DigitsValue, Unescape, Escape, One, Cons, MembersOf;
    var session := if c.session.Some? then c.session.value else 0;
    JsonKeys.DecimalValue(if session < 0 then -session else session);
    number, actor := DecimalTree(session).num, "";
    if c.actor.Some? {
      actor := Escape(c.actor.value);
      EscapeRoundTrip(c.actor.value);
    }
    var attested := Word(if c.session.Some? then "true" else "false");
    var last := if c.actor.Some? then Cons("attested", attested, One("actor", Str(actor))) else One("attested", attested);
    PairsOfCons("session", Num(number), last);
    PairsOfCons("attested", attested, One("actor", Str(actor)));
    PairsOfCons("actor", Str(actor), last);
    BlockItems(c);
  }

  lemma BlockItems(c: Caller)
    ensures BlockTree(c).Box? && BlockTree(c).curly && Pairs(BlockTree(c)) == MembersOf(BlockTree(c).items)
  {
  }

  /** The entry: the payload's own members as they were, or the payload under "value", and then the block. */
  lemma EntrySays(v: Value, block: Value)
    requires Strict(v)
    ensures EntryTree(v, block).Box? && EntryTree(v, block).curly
    ensures Pairs(EntryTree(v, block))
         == (if (v.Box? || v.Empty?) && v.curly then Pairs(v) else [("value", v)]) + [("_actor", block)]
  {
    hide Behind, One, Cons;
    PairsOfCons("value", v, One("_actor", block));
    PairsOfCons("_actor", block, One("_actor", block));
    if v.Box? && v.curly {
      PairsBehind(v.items, "_actor", block);
    }
  }

  /** The record: the type, which reads as it was given, and the entry. */
  lemma RecordSays(kind: string, v: Value, c: Caller) returns (raw: string)
    ensures Pairs(RecordTree(kind, v, c)) == [("type", Str(raw)), ("entry", EntryTree(v, BlockTree(c)))]
    ensures Unescape(raw) == Some(kind)
  {
    hide EntryTree, BlockTree, Escape, Unescape, One, Cons, MembersOf;
    raw := Escape(kind);
    EscapeRoundTrip(kind);
    var entry := EntryTree(v, BlockTree(c));
    PairsOfCons("type", Str(raw), One("entry", entry));
    PairsOfCons("entry", entry, One("entry", entry));
  }

  // ----- what is let in -----

  lemma BlockLength(c: Caller)
    ensures |Block(c)| == 24 + |Decimal(if c.session.Some? then c.session.value else 0)|
                          + (if c.session.Some? then 4 else 5)
                          + (if c.actor.Some? then 11 + |Escape(c.actor.value)| else 0)
  {
    hide Decimal, Escape;
  }

  /**
   A record is written exactly when the latch lets the session through, or none is required; the type has at
   most 256 bytes and the payload at most 64 MiB; the payload is of the validator's grammar and nowhere spells
   the reserved name out; and the actor has at most 256 bytes, and with the session's number not more than
   984 digits and escaped bytes together.
   */
  lemma AcceptableIff(kind: string, payload: string, c: Caller, g: Gate)
    ensures Acceptable(kind, payload, c, g) <==>
      && (if c.session.Some? then !g.latched else !g.requireActor)
      && |kind| <= 256 && |payload| <= 64 * 1024 * 1024
      && InGrammar(payload) && !Contains(payload, "\"_actor\"")
      && (c.actor.Some? ==>
            && |c.actor.value| <= 256
            && if c.session.Some? then |Decimal(c.session.value)| + |Escape(c.actor.value)| <= 984
               else |Escape(c.actor.value)| <= 982)
      && (c.actor.None? && c.session.Some? ==> |Decimal(c.session.value)| <= 995)
  {
    hide Decimal, Escape, InGrammar, Contains, Block;
    BlockLength(c);
    ZeroIsOneDigit();
  }

  lemma ZeroIsOneDigit()
    ensures |Decimal(0)| == 1
  {
  }
}
