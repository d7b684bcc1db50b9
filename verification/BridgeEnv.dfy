/**
 The bridge environment: what each tier publishes into it, the bracket around an embedding call, and
 the byte stream its fingerprint is taken over.
 */
module BridgeEnv {
  import opened Wrappers
  import opened ConfigKeys
  import opened Overlay
  import SeqFacts

  /** The bridge variables of the process environment that are set. */
  type Env = map<Var, string>

  /** `cognition_config`; None stands for a null pointer. */
  datatype Config = Config(
    plugin: Option<string>, url: Option<string>, token: Option<string>, model: Option<string>,
    embedUrl: Option<string>, embedModel: Option<string>, plaintext: bool, think: Option<string>,
    thinkProvider: Option<string>, nativeUrl: Option<string>, numCtx: Option<string>, responseMode: Option<string>)

  const NO_CONFIG: Config := Config(None, None, None, None, None, None, false, None, None, None, None, None)

  function Get(env: Env, v: Var): Option<string> {
    if v in env then Some(env[v]) else None
  }

  /** setenv, or unsetenv. */
  function Put(env: Env, v: Var, o: Option<string>): (r: Env)
    ensures Get(r, v) == o && forall u :: u != v ==> Get(r, u) == Get(env, u)
  {
    if o.Some? then env[v := o.value] else env - {v}
  }

  function Bit(b: bool): Option<string> {
    if b then Some("1") else None
  }

  /** `apply_reason_env_locked`. */
  function ReasonEnv(c: Config, e: Env): Env {
    var e1 := Put(Put(Put(e, Url, c.url), Token, c.token), Model, c.model);
    var e2 := Put(Put(Put(e1, AllowPlaintext, Bit(c.plaintext)), Think, c.think), ThinkProvider, c.thinkProvider);
    var e3 := Put(Put(e2, NativeUrl, c.nativeUrl), NumCtx, c.numCtx);
    Put(Put(Put(e3, Mode, None), ResponseMode, c.responseMode), SystemTag, None)
  }

  /** `apply_embed_env_locked`; its caller has checked that there is an endpoint. */
  function EmbedEnv(c: Config, e: Env): Env
    requires c.embedUrl.Some?
  {
    var e1 := Put(Put(Put(e, Url, c.embedUrl), Token, c.token), Model, c.embedModel);
    var e2 := Put(Put(Put(e1, AllowPlaintext, Bit(c.plaintext)), Mode, Some("embedding")), ResponseMode, None);
    var e3 := Put(Put(Put(e2, SystemTag, None), Think, None), ThinkProvider, None);
    Put(Put(e3, NativeUrl, None), NumCtx, None)
  }

  function BaseEnv(c: Config, tier: Tier, e: Env): Env
    requires tier == Reason || (tier == Embed && c.embedUrl.Some?)
  {
    if tier == Reason then ReasonEnv(c, e) else EmbedEnv(c, e)
  }

  /** One key of `fractal_config_apply_env_overrides`. */
  function Overridden(t: Table, sid: nat, tier: Tier, e: Env, key: nat): Env {
    if !Bridges(key, tier) || Fetched(t, sid, key, MAX_VALUE).None? then e
    else
      var v := Fetched(t, sid, key, MAX_VALUE).value;
      if KEYS[key].kind == Flag then
        if ParseBool(v).None? then e else Put(e, KEYS[key].envVar.value, Bit(ParseBool(v).value))
      else Put(e, KEYS[key].envVar.value, Some(v))
  }

  function LookedAt(t: Table, sid: nat, tier: Tier, key: nat): Table {
    if Bridges(key, tier) then Looked(t, sid, key) else t
  }

  /** The whole table of keys from `key` on: every lookup that finds a value also touches the session. */
  function Overrides(t: Table, sid: nat, tier: Tier, e: Env, key: nat): (Env, Table)
    decreases KEY_COUNT - key
  {
    if key >= KEY_COUNT then (e, t)
    else Overrides(LookedAt(t, sid, tier, key), sid, tier, Overridden(t, sid, tier, e, key), key + 1)
  }

  // ----- what is published -----

  function Over(t: Table, sid: nat, key: nat, otherwise: Option<string>): Option<string> {
    if Fetched(t, sid, key, MAX_VALUE).Some? then Fetched(t, sid, key, MAX_VALUE) else otherwise
  }

  /** What a tier's configuration, overlaid by a session's overrides, says about each variable. */
  function Effective(c: Config, t: Table, sid: nat, tier: Tier, v: Var): Option<string>
    requires tier != TextSql
  {
    match v
    case Url => if tier == Reason then c.url else c.embedUrl
    case Token => c.token
    case Model => if tier == Reason then Over(t, sid, REASONING_MODEL, c.model) else Over(t, sid, EMBED_MODEL, c.embedModel)
    case AllowPlaintext => Bit(c.plaintext)
    case Mode => if tier == Reason then None else Some("embedding")
    case ResponseMode => if tier == Reason then c.responseMode else None
    case SystemTag => None
    case Think => if tier == Reason then Over(t, sid, THINK, c.think) else None
    case ThinkProvider => if tier == Reason then c.thinkProvider else None
    case NativeUrl => if tier == Reason then c.nativeUrl else None
    case NumCtx => if tier == Reason then Over(t, sid, THINK_NUM_CTX, c.numCtx) else None
  }

  /** The variables that no session can override. */
  predicate IsFixed(v: Var) {
    v != Model && v != Think && v != NumCtx
  }

  /** What a tier's configuration alone says about a variable. */
  function Fixed(c: Config, tier: Tier, v: Var): Option<string>
    requires tier != TextSql
  {
    Effective(c, [], 0, tier, v)
  }

  lemma FixedStays(c: Config, t: Table, sid: nat, tier: Tier, v: Var)
    requires tier != TextSql && IsFixed(v)
    ensures Effective(c, t, sid, tier, v) == Fixed(c, tier, v)
  {
  }

  lemma {:induction false} SkipKeys(t: Table, sid: nat, tier: Tier, e: Env, from: nat, upto: nat)
    requires from <= upto <= KEY_COUNT && forall k :: from <= k < upto ==> !Bridges(k, tier)
    ensures Overrides(t, sid, tier, e, from) == Overrides(t, sid, tier, e, upto)
    decreases upto - from
  {
    hide Bridges;
    if from < upto {
      SkipKeys(t, sid, tier, e, from + 1, upto);
    }
  }

  lemma PutSame(e: Env, v: Var)
    ensures Put(e, v, Get(e, v)) == e
  {
  }

  lemma OverriddenIs(t: Table, sid: nat, tier: Tier, e: Env, key: nat, v: Var)
    requires Bridges(key, tier) && KEYS[key].kind != Flag && KEYS[key].envVar == Some(v)
    ensures Overridden(t, sid, tier, e, key) == Put(e, v, Over(t, sid, key, Get(e, v)))
  {
    PutSame(e, v);
    hide KEYS, Put, Get, Override;
  }

  /** A key of the tier: its variable is overridden, and the rest of the keys read the same overrides. */
  lemma TakeKey(t: Table, sid: nat, tier: Tier, e: Env, key: nat, v: Var)
    requires TableOk(t) && key < KEY_COUNT && tier != TextSql && Bridges(key, tier) && KEYS[key].envVar == Some(v)
    ensures Overrides(t, sid, tier, e, key)
         == Overrides(Looked(t, sid, key), sid, tier, Put(e, v, Over(t, sid, key, Get(e, v))), key + 1)
    ensures TableOk(Looked(t, sid, key))
    ensures forall other, key' :: Override(Looked(t, sid, key), other, key') == Override(t, other, key')
  {
    BridgedKeys(key, tier);
    OverriddenIs(t, sid, tier, e, key, v);
    hide KEYS, Bridges, TableOk, Looked, RowOf, Put, Get, Over, Overridden;
    LookedReads(t, sid, key, sid);
    forall other, key'
      ensures Override(Looked(t, sid, key), other, key') == Override(t, other, key')
    {
      LookedReads(t, sid, key, other);
    }
  }

  lemma NotBridged(tier: Tier)
    requires tier != TextSql
    ensures forall k :: 0 <= k < KEY_COUNT ==>
      (Bridges(k, tier) <==> if tier == Reason then k in {REASONING_MODEL, THINK, THINK_NUM_CTX} else k == EMBED_MODEL)
  {
    forall k | 0 <= k < KEY_COUNT
      ensures Bridges(k, tier) <==> if tier == Reason then k in {REASONING_MODEL, THINK, THINK_NUM_CTX} else k == EMBED_MODEL
    {
      BridgedKeys(k, tier);
    }
  }

  lemma BridgeVars()
    ensures KEYS[REASONING_MODEL].envVar == Some(Model) && KEYS[THINK].envVar == Some(Think)
    ensures KEYS[THINK_NUM_CTX].envVar == Some(NumCtx) && KEYS[EMBED_MODEL].envVar == Some(Model)
  {
  }

  /** On to the next key of the tier. */
  lemma NextKey(t: Table, sid: nat, tier: Tier, e: Env, from: nat, key: nat, v: Var)
    requires TableOk(t) && from <= key < KEY_COUNT && tier != TextSql && Bridges(key, tier) && KEYS[key].envVar == Some(v)
    requires forall k :: from <= k < key ==> !Bridges(k, tier)
    ensures var t' := Looked(t, sid, key);
      && Overrides(t, sid, tier, e, from) == Overrides(t', sid, tier, Put(e, v, Over(t, sid, key, Get(e, v))), key + 1)
      && TableOk(t') && (forall other, key' :: Override(t', other, key') == Override(t, other, key'))
  {
    KeyCount();
    hide *;
    SkipKeys(t, sid, tier, e, from, key);
    TakeKey(t, sid, tier, e, key, v);
  }

  lemma LastReasonKeys(t: Table, sid: nat, e: Env)
    requires TableOk(t)
    ensures Overrides(t, sid, Reason, e, 8).0 == Put(e, NumCtx, Over(t, sid, THINK_NUM_CTX, Get(e, NumCtx)))
  {
    hide KEYS, Bridges, Put, Get, Looked, Override, Fetched, TableOk, Overrides, Over;
    NotBridged(Reason);
    BridgeVars();
    KeyCount();
    NextKey(t, sid, Reason, e, 8, THINK_NUM_CTX, NumCtx);
    var t1, e1 := Looked(t, sid, THINK_NUM_CTX), Put(e, NumCtx, Over(t, sid, THINK_NUM_CTX, Get(e, NumCtx)));
    SkipKeys(t1, sid, Reason, e1, 11, KEY_COUNT);
    NoMoreKeys(t1, sid, Reason, e1);
  }

  lemma LaterReasonKeys(t: Table, sid: nat, e: Env)
    requires TableOk(t)
    ensures Overrides(t, sid, Reason, e, 4).0
         == Put(Put(e, Think, Over(t, sid, THINK, Get(e, Think))), NumCtx, Over(t, sid, THINK_NUM_CTX, Get(e, NumCtx)))
  {
    hide KEYS, Bridges, Put, Get, Looked, Override, Clipped, TableOk, Overrides;
    NotBridged(Reason);
    BridgeVars();
    KeyCount();
    NextKey(t, sid, Reason, e, 4, THINK, Think);
    var t1, e1 := Looked(t, sid, THINK), Put(e, Think, Over(t, sid, THINK, Get(e, Think)));
    LastReasonKeys(t1, sid, e1);
    assert Over(t1, sid, THINK_NUM_CTX, Get(e1, NumCtx)) == Over(t, sid, THINK_NUM_CTX, Get(e, NumCtx));
  }

  /** The overrides of the reason tier, applied in the order of the key table. */
  lemma ReasonOverrides(t: Table, sid: nat, e: Env)
    requires TableOk(t)
    ensures Overrides(t, sid, Reason, e, 0).0
         == Put(Put(Put(e, Model, Over(t, sid, REASONING_MODEL, Get(e, Model))),
                    Think, Over(t, sid, THINK, Get(e, Think))),
                NumCtx, Over(t, sid, THINK_NUM_CTX, Get(e, NumCtx)))
  {
    hide KEYS, Bridges, Put, Get, Looked, Override, Clipped, TableOk, Overrides;
    NotBridged(Reason);
    BridgeVars();
    KeyCount();
    NextKey(t, sid, Reason, e, 0, REASONING_MODEL, Model);
    var t1, e1 := Looked(t, sid, REASONING_MODEL), Put(e, Model, Over(t, sid, REASONING_MODEL, Get(e, Model)));
    LaterReasonKeys(t1, sid, e1);
    assert Over(t1, sid, THINK, Get(e1, Think)) == Over(t, sid, THINK, Get(e, Think));
    assert Over(t1, sid, THINK_NUM_CTX, Get(e1, NumCtx)) == Over(t, sid, THINK_NUM_CTX, Get(e, NumCtx));
  }

  lemma NoMoreKeys(t: Table, sid: nat, tier: Tier, e: Env)
    ensures Overrides(t, sid, tier, e, KEY_COUNT) == (e, t)
  {
  }

  lemma EmbedOverrides(t: Table, sid: nat, e: Env)
    requires TableOk(t)
    ensures Overrides(t, sid, Embed, e, 0).0 == Put(e, Model, Over(t, sid, EMBED_MODEL, Get(e, Model)))
  {
    hide KEYS, Bridges, Put, Looked, Override, Fetched, Clipped, TableOk, Overrides;
    NotBridged(Embed);
    BridgeVars();
    SkipKeys(t, sid, Embed, e, 0, 6);
    TakeKey(t, sid, Embed, e, 6, Model);
    var t1, e1 := Looked(t, sid, 6), Put(e, Model, Over(t, sid, 6, Get(e, Model)));
    SkipKeys(t1, sid, Embed, e1, 7, KEY_COUNT);
    NoMoreKeys(t1, sid, Embed, e1);
  }

  /** `apply_*_env_locked` and then the session's overrides. */
  function Published(c: Config, t: Table, sid: nat, tier: Tier, e: Env): (Env, Table)
    requires tier == Reason || (tier == Embed && c.embedUrl.Some?)
  {
    Overrides(t, sid, tier, BaseEnv(c, tier, e), 0)
  }

  /** Three variables in a row. */
  lemma Put3Reads(e: Env, a: Var, x: Option<string>, b: Var, y: Option<string>, c: Var, z: Option<string>, v: Var)
    requires a != b && b != c && a != c
    ensures Get(Put(Put(Put(e, a, x), b, y), c, z), v)
         == if v == a then x else if v == b then y else if v == c then z else Get(e, v)
  {
    hide Get, Put;
  }

  lemma ReasonBase(c: Config, e: Env, v: Var)
    ensures Get(ReasonEnv(c, e), v) == Effective(c, [], 0, Reason, v)
  {
    hide Put, Get, KEYS, Override;
    NoOverrides(REASONING_MODEL);
    NoOverrides(THINK);
    NoOverrides(THINK_NUM_CTX);
    var e1 := Put(Put(Put(e, Url, c.url), Token, c.token), Model, c.model);
    var e2 := Put(Put(Put(e1, AllowPlaintext, Bit(c.plaintext)), Think, c.think), ThinkProvider, c.thinkProvider);
    var e3 := Put(Put(e2, NativeUrl, c.nativeUrl), NumCtx, c.numCtx);
    Put3Reads(e, Url, c.url, Token, c.token, Model, c.model, v);
    Put3Reads(e1, AllowPlaintext, Bit(c.plaintext), Think, c.think, ThinkProvider, c.thinkProvider, v);
    Put3Reads(e3, Mode, None, ResponseMode, c.responseMode, SystemTag, None, v);
  }

  lemma EmbedBaseReads(c: Config, e: Env, v: Var)
    requires c.embedUrl.Some?
    ensures Get(EmbedEnv(c, e), v)
         == match v
            case Url => c.embedUrl
            case Token => c.token
            case Model => c.embedModel
            case AllowPlaintext => Bit(c.plaintext)
            case Mode => Some("embedding")
            case _ => None
  {
    hide Put, Get;
    var e1 := Put(Put(Put(e, Url, c.embedUrl), Token, c.token), Model, c.embedModel);
    var e2 := Put(Put(Put(e1, AllowPlaintext, Bit(c.plaintext)), Mode, Some("embedding")), ResponseMode, None);
    Put3Reads(e, Url, c.embedUrl, Token, c.token, Model, c.embedModel, v);
    Put3Reads(e1, AllowPlaintext, Bit(c.plaintext), Mode, Some("embedding"), ResponseMode, None, v);
    Put3Reads(e2, SystemTag, None, Think, None, ThinkProvider, None, v);
  }

  lemma EmbedBase(c: Config, e: Env, v: Var)
    requires c.embedUrl.Some?
    ensures Get(EmbedEnv(c, e), v) == Effective(c, [], 0, Embed, v)
  {
    hide EmbedEnv, Get, Put, KEYS, Override;
    NoOverrides(EMBED_MODEL);
    EmbedBaseReads(c, e, v);
  }

  /** Whatever stood in the environment before, a tier publishes exactly its effective configuration. */
  lemma PublishesEffective(c: Config, t: Table, sid: nat, tier: Tier, e: Env, v: Var)
    requires tier == Reason || (tier == Embed && c.embedUrl.Some?)
    requires TableOk(t)
    ensures Get(Published(c, t, sid, tier, e).0, v) == Effective(c, t, sid, tier, v)
  {
    hide Put, Get, KEYS, Override, TableOk, Overrides, ReasonEnv, EmbedEnv;
    if tier == Reason {
      ReasonOverrides(t, sid, ReasonEnv(c, e));
      ReasonBase(c, e, v);
      ReasonBase(c, e, Model);
      ReasonBase(c, e, Think);
      ReasonBase(c, e, NumCtx);
    } else {
      EmbedOverrides(t, sid, EmbedEnv(c, e));
      EmbedBase(c, e, v);
      EmbedBase(c, e, Model);
    }
    NoOverrides(REASONING_MODEL);
    NoOverrides(THINK);
    NoOverrides(THINK_NUM_CTX);
    NoOverrides(EMBED_MODEL);
  }

  /** The environment that says just that. */
  function EffectiveEnv(c: Config, t: Table, sid: nat, tier: Tier): Env
    requires tier != TextSql
  {
    map v: Var | Effective(c, t, sid, tier, v).Some? :: Effective(c, t, sid, tier, v).value
  }

  lemma EffectiveEnvReads(c: Config, t: Table, sid: nat, tier: Tier, v: Var)
    requires tier != TextSql
    ensures Get(EffectiveEnv(c, t, sid, tier), v) == Effective(c, t, sid, tier, v)
  {
  }

  lemma PublishedIs(c: Config, t: Table, sid: nat, tier: Tier, e: Env)
    requires tier == Reason || (tier == Embed && c.embedUrl.Some?)
    requires TableOk(t)
    ensures Published(c, t, sid, tier, e).0 == EffectiveEnv(c, t, sid, tier)
  {
    hide Published, EffectiveEnv, Effective, TableOk;
    forall v
      ensures Get(Published(c, t, sid, tier, e).0, v) == Get(EffectiveEnv(c, t, sid, tier), v)
    {
      PublishesEffective(c, t, sid, tier, e, v);
      EffectiveEnvReads(c, t, sid, tier, v);
    }
    SameReads(Published(c, t, sid, tier, e).0, EffectiveEnv(c, t, sid, tier));
  }

  lemma NoOverrides(key: nat)
    ensures Override([], 0, key) == None
  {
  }

  /** Publishing changes no session's overrides. */
  lemma {:induction false} OverridesKeepRows(t: Table, sid: nat, tier: Tier, e: Env, key: nat, other: nat)
    requires TableOk(t)
    ensures var t' := Overrides(t, sid, tier, e, key).1;
      TableOk(t') && RowOf(t', other) == RowOf(t, other)
    decreases KEY_COUNT - key
  {
    hide TableOk, RowOf, Looked, Overridden, Bridges;
    if key < KEY_COUNT {
      LookedReads(t, sid, key, other);
      OverridesKeepRows(LookedAt(t, sid, tier, key), sid, tier, Overridden(t, sid, tier, e, key), key + 1, other);
    }
  }

  // ----- the bracket around an embedding call -----

  const VARS: seq<Var> :=
    [Url, Token, Model, AllowPlaintext, Mode, ResponseMode, SystemTag, Think, ThinkProvider, NativeUrl, NumCtx]

  lemma EveryVar(v: Var)
    ensures v in VARS
  {
    assert VARS[0] == Url && VARS[1] == Token && VARS[2] == Model && VARS[3] == AllowPlaintext;
    assert VARS[4] == Mode && VARS[5] == ResponseMode && VARS[6] == SystemTag && VARS[7] == Think;
    assert VARS[8] == ThinkProvider && VARS[9] == NativeUrl && VARS[10] == NumCtx;
  }

  /** A saved slot: the variable was not set, its copy, or the marker of a copy that failed. */
  datatype Saved = Absent | Copy(value: string) | Lost

  /** What is put back for one variable. */
  function PutBack(e: Env, v: Var, s: Saved): Env {
    match s
    case Absent => Put(e, v, None)
    case Copy(value) => Put(e, v, Some(value))
    case Lost => e
  }

  /** `embed_env_restore`. */
  function Restored(e: Env, saved: seq<Saved>, i: nat): Env
    requires |saved| == |VARS|
    decreases |VARS| - i
  {
    if i >= |VARS| then e else Restored(PutBack(e, VARS[i], saved[i]), saved, i + 1)
  }

  function SavedFrom(v: Var, e: Env, copied: bool): Saved {
    if v !in e then Absent else if copied then Copy(e[v]) else Lost
  }

  /** What `embed_env_save` leaves in the slots; `copies[i]` says whether the i-th copy got its memory. */
  function Save(e: Env, copies: seq<bool>): (saved: seq<Saved>)
    requires |copies| == |VARS|
    ensures |saved| == |VARS|
  {
    seq(|VARS|, i requires 0 <= i < |VARS| => SavedFrom(VARS[i], e, copies[i]))
  }

  predicate AllSaved(saved: seq<Saved>) {
    forall i :: 0 <= i < |saved| ==> saved[i] != Lost
  }

  /** Whatever was published in between, a variable whose copy was taken is back as it was; the others are as published. */
  lemma {:induction false} RestoreReads(was: Env, e: Env, copies: seq<bool>, i: nat, v: Var)
    requires |copies| == |VARS| && i <= |VARS|
    ensures var r := Restored(e, Save(was, copies), i);
      (forall j :: i <= j < |VARS| && VARS[j] == v ==>
         Get(r, v) == if v in was && !copies[j] then Get(e, v) else Get(was, v))
      && ((forall j :: i <= j < |VARS| ==> VARS[j] != v) ==> Get(r, v) == Get(e, v))
    decreases |VARS| - i
  {
    hide VARS, Put;
    if i < |VARS| {
      VarsDiffer();
      RestoreReads(was, PutBack(e, VARS[i], Save(was, copies)[i]), copies, i + 1, v);
    }
  }

  lemma VarsDiffer()
    ensures forall i, j :: 0 <= i < j < |VARS| ==> VARS[i] != VARS[j]
  {
  }

  lemma SameReads(a: Env, b: Env)
    requires forall v :: Get(a, v) == Get(b, v)
    ensures a == b
  {
    forall v
      ensures v in a <==> v in b
      ensures v in a ==> a[v] == b[v]
    {
      assert Get(a, v) == Get(b, v);
    }
  }

  /** With every copy taken the bracket puts the environment back exactly, whatever was published. */
  lemma BracketRestores(was: Env, published: Env, copies: seq<bool>)
    requires |copies| == |VARS| && AllSaved(Save(was, copies))
    ensures Restored(published, Save(was, copies), 0) == was
  {
    forall v
      ensures Get(Restored(published, Save(was, copies), 0), v) == Get(was, v)
    {
      EveryVar(v);
      RestoreReads(was, published, copies, 0, v);
      var j :| 0 <= j < |VARS| && VARS[j] == v;
      assert Save(was, copies)[j] != Lost;
    }
    SameReads(Restored(published, Save(was, copies), 0), was);
  }

  /** With nothing published the restore changes nothing, even where copies failed. */
  lemma FailedBracketRestores(was: Env, copies: seq<bool>)
    requires |copies| == |VARS|
    ensures Restored(was, Save(was, copies), 0) == was
  {
    forall v
      ensures Get(Restored(was, Save(was, copies), 0), v) == Get(was, v)
    {
      EveryVar(v);
      RestoreReads(was, was, copies, 0, v);
    }
    SameReads(Restored(was, Save(was, copies), 0), was);
  }
}
