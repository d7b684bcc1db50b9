/** Compact JSON objects put together member by member, and their text. */
module JsonBuild {
  import opened JsonSyntax
  import SeqFacts

  /** Compact members. */
  function One(key: string, v: Value): Items {
    More(Str(key), "", ':', "", Last(v, ""))
  }

  function Cons(key: string, v: Value, rest: Items): Items {
    More(Str(key), "", ':', "", More(v, "", ',', "", rest))
  }

  function Head(key: string): string {
    "\"" + key + "\":"
  }

  lemma HeadText(key: string)
    ensures Print(Str(key)) + [':'] == Head(key)
  {
  }

  lemma OneText(key: string, v: Value)
    ensures PrintItems(One(key, v)) == Head(key) + Print(v)
  {
    HeadText(key);
    assert Print(Str(key)) + "" + [':'] + "" == Print(Str(key)) + [':'];
    assert Print(v) + "" == Print(v);
  }

  lemma ConsText(key: string, v: Value, rest: Items)
    ensures PrintItems(Cons(key, v, rest)) == Head(key) + (Print(v) + ("," + PrintItems(rest)))
  {
    var inner := More(v, "", ',', "", rest);
    HeadText(key);
    assert Print(Str(key)) + "" + [':'] + "" == Print(Str(key)) + [':'];
    assert Print(v) + "" + [','] + "" == Print(v) + ",";
    SeqFacts.Assoc(Print(v), ",", PrintItems(rest));
    assert PrintItems(inner) == Print(v) + ("," + PrintItems(rest));
  }

  lemma ObjectText(items: Items)
    ensures Print(Box(true, "", items)) == "{" + PrintItems(items) + "}"
  {
    assert ['{'] + "" == "{";
  }

  /** Text without backslashes, quotes and control characters stands for itself between quotes. */
  lemma {:induction false} PlainIsRaw(s: string)
    requires forall i :: 0 <= i < |s| ==> s[i] != '\\' && s[i] != '"' && s[i] as int >= 0x20
    ensures RawOk(s)
    decreases |s|
  {
    if s != "" {
      PlainIsRaw(s[1..]);
    }
  }

  lemma OneIsStrict(key: string, v: Value)
    requires RawOk(key) && Loose(v)
    ensures LooseItems(One(key, v)) && DepthItems(One(key, v)) == Depth(v)
    ensures Strict(v) ==> StrictMembers(One(key, v))
  {
  }

  lemma ConsIsStrict(key: string, v: Value, rest: Items)
    requires RawOk(key) && Loose(v) && LooseItems(rest)
    ensures LooseItems(Cons(key, v, rest)) && DepthItems(Cons(key, v, rest)) == Max(Depth(v), DepthItems(rest))
    ensures Strict(v) && StrictMembers(rest) ==> StrictMembers(Cons(key, v, rest))
  {
    var inner := More(v, "", ',', "", rest);
    assert LooseItems(inner) && DepthItems(inner) == Max(Depth(v), DepthItems(rest));
  }

  lemma BoxIsStrict(items: Items)
    requires LooseItems(items)
    ensures Loose(Box(true, "", items)) && Depth(Box(true, "", items)) == 1 + DepthItems(items)
    ensures StrictMembers(items) ==> Strict(Box(true, "", items))
  {
  }
}
