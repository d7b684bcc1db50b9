/**
 `fractal_config_session_json`: a session's overrides as a JSON object, and that it reads back as them.
 */
module OverlayJson {
  import opened Wrappers
  import opened JsonSyntax
  import opened JsonEscapes
  import opened JsonBuild
  import opened ConfigKeys
  import opened Overlay
  import opened OverlayTable
  import SeqFacts

  // ----- the text -----

  /** The stored keys from `id` on, in the order of the key table. */
  function Stored(values: map<nat, string>, id: nat): (ids: seq<nat>)
    ensures forall i :: 0 <= i < |ids| ==> id <= ids[i] < KEY_COUNT && ids[i] in values
    ensures forall k :: id <= k < KEY_COUNT && k in values ==> k in ids
    decreases KEY_COUNT - id
  {
    if id >= KEY_COUNT then [] else if id in values then [id] + Stored(values, id + 1) else Stored(values, id + 1)
  }

  predicate Keyed(values: map<nat, string>, ids: seq<nat>) {
    forall i :: 0 <= i < |ids| ==> ids[i] in values && ids[i] < |KEYS|
  }

  function MemberText(values: map<nat, string>, id: nat): string
    requires id in values && id < |KEYS|
  {
    Head(Appended(KEYS[id].name)) + Print(Str(Appended(values[id])))
  }

  /** Members that each bring their comma. */
  function Tail(values: map<nat, string>, ids: seq<nat>): string
    requires Keyed(values, ids)
    decreases |ids|
  {
    if ids == [] then "" else "," + MemberText(values, ids[0]) + Tail(values, ids[1..])
  }

  function Body(values: map<nat, string>, ids: seq<nat>): string
    requires Keyed(values, ids)
  {
    if ids == [] then "" else MemberText(values, ids[0]) + Tail(values, ids[1..])
  }

  function Rendered(values: map<nat, string>): string {
    "{" + Body(values, Stored(values, 0)) + "}"
  }

  /** `json_append_string`, without its quotes. */
  method AppendString(s: string) returns (out: string)
    ensures out == Appended(s)
  {
    out := "";
    var i := 0;
    assert s[0..] == s;
    while i < |s|
      invariant i <= |s| && out + Appended(s[i..]) == Appended(s)
    {
      assert s[i..][1..] == s[i + 1..];
      SeqFacts.Assoc(out, AppendChar(s[i]), Appended(s[i + 1..]));
      out := out + AppendChar(s[i]);
      i := i + 1;
    }
    assert out + Appended(s[i..]) == out;
  }

  /** The loop of `fractal_config_session_json` over the values of an entry. */
  method Render(values: map<nat, string>) returns (out: string)
    ensures out == Rendered(values)
  {
    hide KEYS, Appended, Head, Stored, Body, Tail, Print;
    KeyCount();
    ghost var goal := "{" + Body(values, Stored(values, 0));
    out := "{";
    var i := 0;
    while i < |KEYS|
      invariant i <= |KEYS| && |out| >= 1
      invariant |out| == 1 ==> out == "{" && out + Body(values, Stored(values, i)) == goal
      invariant |out| > 1 ==> out + Tail(values, Stored(values, i)) == goal
    {
      StoredStep(values, i);
      if i in values {
        var name := AppendString(KEYS[i].name);
        var value := AppendString(values[i]);
        var member := Head(name) + Print(Str(value));
        var more := Stored(values, i + 1);
        MemberHere(values, i, more, out, member);
        if |out| > 1 { out := out + ","; }
        out := out + member;
      }
      i := i + 1;
    }
    NoneStored(values, out);
    out := out + "}";
  }

  /** `fractal_config_session_json`: a session without an entry has no overrides. */
  method SessionJson(t: Slots, sid: nat) returns (out: string)
    requires t.Valid()
    ensures out == match RowOf(t.View(), sid)
      case None => "{}"
      case Some(row) => Rendered(row.values)
  {
    hide Rendered, Find, Lists, Held, Rows, OneEach, Stamped;
    var i; ghost var k;
    i, k := t.FindEntry(sid);
    if i == 256 { return "{}"; }
    t.OwnEntry(i, k);
    out := Render(t.entries[i].values);
  }

  lemma StoredStep(values: map<nat, string>, i: nat)
    requires i < |KEYS|
    ensures Stored(values, i) == if i in values then [i] + Stored(values, i + 1) else Stored(values, i + 1)
  {
  }

  lemma NoneStored(values: map<nat, string>, out: string)
    ensures Stored(values, |KEYS|) == [] && out + Body(values, []) == out && out + Tail(values, []) == out
  {
  }

  lemma MemberHere(values: map<nat, string>, id: nat, more: seq<nat>, out: string, member: string)
    requires id in values && id < |KEYS| && Keyed(values, more) && member == MemberText(values, id)
    ensures Keyed(values, [id] + more) && |member| > 0
    ensures out + Body(values, [id] + more) == out + member + Tail(values, more)
    ensures out + Tail(values, [id] + more) == out + "," + member + Tail(values, more)
  {
    assert ([id] + more)[1..] == more;
    SeqFacts.Assoc(out, member, Tail(values, more));
    SeqFacts.Assoc4(out, ",", member, Tail(values, more));
    SeqFacts.Assoc(",", member, Tail(values, more));
  }

  // ----- the document -----

  function TreeItems(values: map<nat, string>, ids: seq<nat>): Items
    requires ids != [] && Keyed(values, ids)
    decreases |ids|
  {
    var name, v := Appended(KEYS[ids[0]].name), Str(Appended(values[ids[0]]));
    if |ids| == 1 then One(name, v) else Cons(name, v, TreeItems(values, ids[1..]))
  }

  function Tree(values: map<nat, string>): Value {
    if Stored(values, 0) == [] then Empty(true, "") else Box(true, "", TreeItems(values, Stored(values, 0)))
  }

  lemma {:induction false} TreeItemsText(values: map<nat, string>, ids: seq<nat>)
    requires ids != [] && Keyed(values, ids)
    ensures PrintItems(TreeItems(values, ids)) == Body(values, ids)
    decreases |ids|
  {
    var name, v := Appended(KEYS[ids[0]].name), Str(Appended(values[ids[0]]));
    if |ids| == 1 {
      OneText(name, v);
      assert MemberText(values, ids[0]) + "" == MemberText(values, ids[0]);
    } else {
      TreeItemsText(values, ids[1..]);
      ConsText(name, v, TreeItems(values, ids[1..]));
      TailIsBody(values, ids[1..]);
      SeqFacts.Assoc(Head(name), Print(v), "," + Body(values, ids[1..]));
    }
  }

  lemma TailIsBody(values: map<nat, string>, ids: seq<nat>)
    requires ids != [] && Keyed(values, ids)
    ensures Tail(values, ids) == "," + Body(values, ids)
  {
    SeqFacts.Assoc(",", MemberText(values, ids[0]), Tail(values, ids[1..]));
  }

  lemma {:induction false} TreeItemsAreStrict(values: map<nat, string>, ids: seq<nat>)
    requires ids != [] && Keyed(values, ids)
    ensures StrictMembers(TreeItems(values, ids)) && LooseItems(TreeItems(values, ids))
    decreases |ids|
  {
    hide KEYS;
    var name, value := KEYS[ids[0]].name, values[ids[0]];
    AppendedReads(name);
    AppendedReads(value);
    if |ids| == 1 {
      OneIsStrict(Appended(name), Str(Appended(value)));
    } else {
      TreeItemsAreStrict(values, ids[1..]);
      ConsIsStrict(Appended(name), Str(Appended(value)), TreeItems(values, ids[1..]));
    }
  }

  /** Reading an object's members back: keys and string values with their escapes resolved. */
  function Members(items: Items): seq<(Option<string>, Option<string>)> {
    match items
    case Last(_, _) => []
    case More(key, _, _, _, Last(v, _)) => [(Text(key), Text(v))]
    case More(key, _, _, _, More(v, _, _, _, rest)) => [(Text(key), Text(v))] + Members(rest)
  }

  function Text(v: Value): Option<string> {
    if v.Str? then Unescape(v.raw) else None
  }

  function Expected(values: map<nat, string>, ids: seq<nat>): seq<(Option<string>, Option<string>)>
    requires Keyed(values, ids)
  {
    seq(|ids|, i requires 0 <= i < |ids| => (Some(KEYS[ids[i]].name), Some(values[ids[i]])))
  }

  lemma {:induction false} MembersReadBack(values: map<nat, string>, ids: seq<nat>)
    requires ids != [] && Keyed(values, ids)
    ensures Members(TreeItems(values, ids)) == Expected(values, ids)
    decreases |ids|
  {
    hide KEYS, Appended, Unescape;
    AppendedReads(KEYS[ids[0]].name);
    AppendedReads(values[ids[0]]);
    if |ids| > 1 {
      MembersReadBack(values, ids[1..]);
      assert Expected(values, ids) == [Expected(values, ids)[0]] + Expected(values, ids[1..]);
    }
  }

  /**
   The rendered text is a JSON object, and its members read back as exactly the stored keys with
   their values, in the order of the key table, whatever bytes the values hold.
   */
  lemma RenderedReadsBack(values: map<nat, string>)
    ensures Print(Tree(values)) == Rendered(values) && Strict(Tree(values))
    ensures Tree(values).Box? ==> Members(Tree(values).items) == Expected(values, Stored(values, 0))
    ensures Tree(values).Empty? <==> forall k :: 0 <= k < |KEYS| ==> k !in values
  {
    var ids := Stored(values, 0);
    if ids == [] {
      assert "{" + Body(values, ids) + "}" == "{}";
      assert ['{'] + "" + ['}'] == "{}";
    } else {
      TreeItemsText(values, ids);
      ObjectText(TreeItems(values, ids));
      TreeItemsAreStrict(values, ids);
      MembersReadBack(values, ids);
    }
  }
}
