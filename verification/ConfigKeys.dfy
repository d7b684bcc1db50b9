/**
 The configuration keys of src/fractalsql_config.c and the validation of a value against its key.
 */
module ConfigKeys {
  import opened Wrappers
  import opened JsonSyntax
  import SeqFacts

  datatype Tier = Reason | Embed | TextSql

  /** The variables of the bridge environment, the FSQL_REASONING_HTTP_ names the plugin reads. */
  datatype Var =
    | Url | Token | Model | AllowPlaintext | Mode | ResponseMode | SystemTag | Think | ThinkProvider | NativeUrl | NumCtx

  datatype Kind = Text | Path | Integer(min: int, max: int) | Flag | Choice(list: string)

  datatype Key = Key(name: string, kind: Kind, sessionOk: bool, envVar: Option<Var>, tiers: set<Tier>)

  const MAX_VALUE: nat := 8192
  const KEY_COUNT: nat := 18

  const REASONING_MODEL: nat := 3
  const EMBED_MODEL: nat := 6
  const THINK: nat := 7
  const THINK_NUM_CTX: nat := 10

  /** The key table, in the order of the source. */
  const KEYS: seq<Key> := [
    Key("reasoning_plugin", Path, false, None, {}),
    Key("reasoning_url", Text, false, None, {}),
    Key("reasoning_token", Text, false, None, {}),
    Key("reasoning_model", Text, true, Some(Model), {Reason, TextSql}),
    Key("reasoning_allow_plaintext", Flag, false, None, {}),
    Key("embed_url", Text, false, None, {}),
    Key("embed_model", Text, true, Some(Model), {Embed}),
    Key("think", Text, true, Some(Think), {Reason, TextSql}),
    Key("think_provider", Text, false, None, {}),
    Key("think_native_url", Text, false, None, {}),
    Key("think_num_ctx", Integer(1, 10000000), true, Some(NumCtx), {Reason, TextSql}),
    Key("t2s_max_attempts", Integer(1, 10), true, None, {}),
    Key("t2s_allowed_statements", Choice("select|select_insert_update"), false, None, {}),
    Key("t2s_use_review", Flag, true, None, {}),
    Key("enterprise_lib", Path, false, None, {}),
    Key("enterprise_ledger_path", Path, false, None, {}),
    Key("enterprise_ledger_key", Text, false, None, {}),
    Key("enterprise_require_signature", Flag, false, None, {})]

  // ----- values -----

  /** isspace, as strtol skips it. */
  predicate IsSpace(c: char) {
    c == ' ' || 9 <= c as int <= 13
  }

  function SkipSpace(s: string): string
    decreases |s|
  {
    if s != "" && IsSpace(s[0]) then SkipSpace(s[1..]) else s
  }

  /** `parse_long`: strtol over the whole value, white space and a sign allowed in front. */
  function ParseLong(s: string): Option<int> {
    var t := SkipSpace(s);
    var digits := if t != "" && (t[0] == '-' || t[0] == '+') then t[1..] else t;
    if digits == "" || !Digits(digits) then None
    else
      var n: int := DigitsValue(digits);
      Some(if t[0] == '-' then -n else n)
  }

  /** `parse_bool`. */
  function ParseBool(s: string): Option<bool> {
    if s in {"true", "on", "1", "yes"} then Some(true)
    else if s in {"false", "off", "0", "no", ""} then Some(false)
    else None
  }

  /** `fractal_config_validate_path` on POSIX: absolute, and no two dots in a row anywhere. */
  predicate PathOk(s: string) {
    0 < |s| < MAX_VALUE && s[0] == '/' && forall i :: 0 <= i < |s| - 1 ==> !(s[i] == '.' && s[i + 1] == '.')
  }

  /** The members of a list separated by bars. */
  function Members(list: string): (m: seq<string>)
    ensures m != []
    decreases |list|
  {
    if list == "" then [""]
    else if list[0] == '|' then [""] + Members(list[1..])
    else
      var rest := Members(list[1..]);
      [[list[0]] + rest[0]] + rest[1..]
  }

  /** `validate_value`: the empty value is always acceptable, it unsets. */
  predicate ValueOk(k: Key, v: string) {
    v == "" ||
    match k.kind
    case Path => PathOk(v)
    case Integer(min, max) => ParseLong(v).Some? && min <= ParseLong(v).value <= max
    case Flag => ParseBool(v).Some?
    case Choice(list) => v in Members(list)
    case Text => |v| < MAX_VALUE
  }

  /** `fractal_config_key_by_name`: with or without the prefix. */
  function KeyIdFrom(name: string, i: nat): (id: Option<nat>)
    requires i <= |KEYS|
    ensures id.Some? ==> i <= id.value < |KEYS| && KEYS[id.value].name == name
    ensures id.None? ==> forall j :: i <= j < |KEYS| ==> KEYS[j].name != name
    decreases |KEYS| - i
  {
    if i == |KEYS| then None else if KEYS[i].name == name then Some(i) else KeyIdFrom(name, i + 1)
  }

  const PREFIX: string := "fractalsql."

  function KeyId(name: string): (id: Option<nat>)
    ensures id.Some? ==> id.value < |KEYS|
  {
    KeyIdFrom(if PREFIX <= name then name[|PREFIX|..] else name, 0)
  }

  predicate DotsAt(s: string, i: int) {
    0 <= i <= |s| - 2 && s[i..i + 2] == ".."
  }

  /** A path is absolute and holds no two dots side by side. */
  lemma PathIs(s: string)
    ensures PathOk(s) <==> 1 <= |s| <= 8191 && s[0] == '/' && forall i :: !DotsAt(s, i)
  {
    forall i
      ensures DotsAt(s, i) <==> 0 <= i < |s| - 1 && s[i] == '.' && s[i + 1] == '.'
    {
      if 0 <= i <= |s| - 2 {
        assert s[i..i + 2] == [s[i], s[i + 1]];
      }
    }
    if PathOk(s) {
      forall i
        ensures !DotsAt(s, i)
      {
        assert 0 <= i < |s| - 1 ==> !(s[i] == '.' && s[i + 1] == '.');
      }
    } else if 1 <= |s| <= 8191 && s[0] == '/' {
      var i :| 0 <= i < |s| - 1 && s[i] == '.' && s[i + 1] == '.';
      assert DotsAt(s, i);
    }
  }

  /** The members of a list are what stands between its bars. */
  lemma {:induction false} MembersAre(member: string, rest: string)
    requires '|' !in member
    ensures Members(member) == [member] && Members(member + "|" + rest) == [member] + Members(rest)
    decreases |member|
  {
    var list := member + "|" + rest;
    if member == "" {
      assert list[0] == '|' && list[1..] == rest;
    } else {
      MembersAre(member[1..], rest);
      assert list[0] == member[0] && list[1..] == member[1..] + "|" + rest;
      SeqFacts.HeadTail(member);
    }
  }

  lemma KeyCount()
    ensures |KEYS| == KEY_COUNT
  {
  }

  /** The keys a session may publish into a tier's environment, and the variables they go to. */
  predicate Bridges(id: nat, tier: Tier) {
    id < |KEYS| && KEYS[id].sessionOk && KEYS[id].envVar.Some? && tier in KEYS[id].tiers
  }

  lemma BridgedKeys(id: nat, tier: Tier)
    requires id < |KEYS| && tier != TextSql
    ensures Bridges(id, tier) <==>
      (tier == Reason && id in {REASONING_MODEL, THINK, THINK_NUM_CTX}) || (tier == Embed && id == EMBED_MODEL)
    ensures Bridges(id, tier) ==> KEYS[id].kind != Flag
  {
  }
}
