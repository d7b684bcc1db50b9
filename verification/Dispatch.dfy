/**
 Tier dispatch as a state machine. A reason or embed call holds the tiers' lock from its publish to its
 end; what the environment lock covers is one step, and other threads may come between the steps. A
 loaded instance has the plugin path and the environment of its load baked in.
 */
module Dispatch {
  import opened Wrappers
  import opened ConfigKeys
  import opened Overlay
  import opened BridgeEnv
  import opened Fingerprint
  import SeqFacts

  datatype Instance = Instance(plugin: Option<string>, env: Env)

  /** A tier's plugin context: its instance, and the fingerprint while that is valid. */
  datatype TierState = TierState(fp: Option<nat>, inst: Option<Instance>)

  /**
   `g_load_lock` of src/fractalsql_cognition.c, and what the thread that holds it knows: whose call it
   is, whether publish and load succeeded, the saved environment, and how much of it has been put back.
   `at` remembers the overlay as it was when the call published.
   */
  datatype Lock = Free | Held(tier: Tier, sid: nat, at: Table, ready: bool, saved: seq<Saved>, next: nat)

  /** The process environment, the tier configuration and its boot snapshot, both contexts, the overlay. */
  datatype World = World(env: Env, cfg: Config, boot: Option<Config>, initialized: bool, applied: bool,
                         reason: TierState, embed: TierState, table: Table, lock: Lock)

  const START: World :=
    World(map[], NO_CONFIG, None, false, false, TierState(None, None), TierState(None, None), [], Free)

  // ----- configuration -----

  /** The FRACTALSQL_ variables of the environment the process was started in. */
  datatype Legacy = Legacy(
    plugin: Option<string>, url: Option<string>, token: Option<string>, model: Option<string>,
    embedUrl: Option<string>, embedModel: Option<string>, plaintext: Option<string>, think: Option<string>,
    thinkProvider: Option<string>, nativeUrl: Option<string>, numCtx: Option<string>)

  /** `dup_env_into`: an empty value counts as none. */
  function Nonempty(o: Option<string>): Option<string> {
    if o == Some("") then None else o
  }

  /** `dup_env_pref_into`. */
  function Prefer(a: Option<string>, b: Option<string>): Option<string> {
    if Nonempty(a).Some? then a else Nonempty(b)
  }

  /** What `capture_env_fb` copies. */
  function Captured(e: Env, l: Legacy): Config {
    var plain := Prefer(Get(e, AllowPlaintext), l.plaintext);
    Config(Nonempty(l.plugin), Prefer(Get(e, Url), l.url), Prefer(Get(e, Token), l.token), Prefer(Get(e, Model), l.model),
           Nonempty(l.embedUrl), Nonempty(l.embedModel), plain.Some? && plain.value != "0",
           Prefer(Get(e, Think), l.think), Prefer(Get(e, ThinkProvider), l.thinkProvider),
           Prefer(Get(e, NativeUrl), l.nativeUrl), Prefer(Get(e, NumCtx), l.numCtx), Nonempty(Get(e, ResponseMode)))
  }

  function Capture(w: World, l: Legacy, memory: bool): (bool, World) {
    if w.boot.Some? then (true, w)
    else if !memory then (false, w)
    else (true, w.(boot := Some(Captured(w.env, l))))
  }

  /** `ensure_env_config`. */
  function EnsureConfig(w: World, l: Legacy, memory: bool, copyMemory: bool): (bool, World) {
    var (ok, w1) := Capture(w, l, memory);
    if ok && !w1.applied && !w1.initialized && copyMemory
    then (ok, w1.(cfg := w1.boot.value, initialized := true))
    else (ok, w1)
  }

  /** A pushed configuration: None for a key that is not in the file. */
  datatype Provider = Provider(
    plugin: Option<Option<string>>, url: Option<Option<string>>, token: Option<Option<string>>,
    model: Option<Option<string>>, embedUrl: Option<Option<string>>, embedModel: Option<Option<string>>,
    plaintext: Option<bool>, think: Option<Option<string>>, thinkProvider: Option<Option<string>>,
    nativeUrl: Option<Option<string>>, numCtx: Option<Option<string>>)

  function Pick<T>(p: Option<T>, otherwise: T): T {
    if p.Some? then p.value else otherwise
  }

  function Provided(p: Provider, b: Config): Config {
    Config(Pick(p.plugin, b.plugin), Pick(p.url, b.url), Pick(p.token, b.token), Pick(p.model, b.model),
           Pick(p.embedUrl, b.embedUrl), Pick(p.embedModel, b.embedModel), Pick(p.plaintext, b.plaintext),
           Pick(p.think, b.think), Pick(p.thinkProvider, b.thinkProvider), Pick(p.nativeUrl, b.nativeUrl),
           Pick(p.numCtx, b.numCtx), b.responseMode)
  }

  /** `fractalsql_cognition_apply_provider`: all or nothing, and no instance counts as current afterwards. */
  function ApplyProvider(w: World, p: Provider, l: Legacy, memory: bool, copyMemory: bool): (bool, World) {
    var (ok, w1) := Capture(w, l, memory);
    if !ok || !copyMemory then (false, w1)
    else (true, w1.(cfg := Provided(p, w1.boot.value), initialized := true, applied := true,
                    reason := w1.reason.(fp := None), embed := w1.embed.(fp := None)))
  }

  // ----- publishing and loading -----

  predicate CanPublish(c: Config, tier: Tier) {
    tier == Reason || (tier == Embed && c.embedUrl.Some?)
  }

  function Publish(w: World, tier: Tier, sid: nat): World
    requires CanPublish(w.cfg, tier)
  {
    var (e, t) := Published(w.cfg, w.table, sid, tier, w.env);
    w.(env := e, table := t)
  }

  function At(w: World, tier: Tier): TierState {
    if tier == Reason then w.reason else w.embed
  }

  function WithTier(w: World, tier: Tier, s: TierState): World {
    if tier == Reason then w.(reason := s) else w.(embed := s)
  }

  /** The instance is loaded again unless its fingerprint is that of the published environment. */
  function Reload(h: Hash, w: World, tier: Tier, loads: bool): (bool, World) {
    if At(w, tier).fp == Some(Of(h, w.env)) then (true, w)
    else if !loads then (false, w)
    else (true, WithTier(w, tier, TierState(Some(Of(h, w.env)), Some(Instance(w.cfg.plugin, w.env)))))
  }

  /** `reason_env_and_reload`. */
  function ReasonReload(h: Hash, w: World, sid: nat, loads: bool): (bool, World) {
    Reload(h, Publish(w, Reason, sid), Reason, loads)
  }

  /** `embed_env_open`: with a copy missing nothing is published. */
  function EmbedOpen(h: Hash, w: World, sid: nat, copies: seq<bool>, loads: bool): (bool, World)
    requires |copies| == |VARS| && CanPublish(w.cfg, Embed)
  {
    if !AllSaved(Save(w.env, copies)) then (false, w) else Reload(h, Publish(w, Embed, sid), Embed, loads)
  }

  // ----- the steps -----

  /**
   What may happen next, in any order. `Begin` takes the lock, publishes and loads, for a call as for a
   mere load; it needs a configuration that has been filled in, which the functions that lead to it see
   to, and for an embedding an endpoint. `Release` is one step of the end: one variable put back, or the
   lock given up. The text-to-SQL tiers have a lock of their own: their writes to the environment
   (`OtherWrite`) and their lookups (`OtherLookup`) may come between any two steps of a call.
   */
  datatype Op =
    | Configure(legacy: Legacy, memory: bool, copyMemory: bool)
    | Provide(provider: Provider, legacy: Legacy, memory: bool, copyMemory: bool)
    | Begin(tier: Tier, sid: nat, copies: seq<bool>, loads: bool)
    | Dispatch
    | Release
    | SetKey(sid: nat, name: string, value: string)
    | ResetKeys(sid: nat)
    | OtherLookup(sid: nat, key: nat)
    | OtherWrite(v: Var, written: Option<string>)

  predicate Ready(w: World, op: Op) {
    match op
    case Configure(_, _, _) => w.lock.Free?
    case Provide(_, _, _, _) => w.lock.Free?
    case Begin(tier, _, copies, _) =>
      w.lock.Free? && w.initialized && CanPublish(w.cfg, tier) && (tier == Embed ==> |copies| == |VARS|)
    case Dispatch => w.lock.Held? && w.lock.ready && w.lock.next == 0 && At(w, w.lock.tier).inst.Some?
    case Release => w.lock.Held?
    case _ => true
  }

  function BeginCall(h: Hash, w: World, tier: Tier, sid: nat, copies: seq<bool>, loads: bool): World
    requires CanPublish(w.cfg, tier) && (tier == Embed ==> |copies| == |VARS|)
  {
    var (ok, w') := if tier == Reason then ReasonReload(h, w, sid, loads) else EmbedOpen(h, w, sid, copies, loads);
    w'.(lock := Held(tier, sid, w.table, ok, if tier == Reason then [] else Save(w.env, copies), 0))
  }

  /** The saved variables go back one by one, with no environment lock held; then the call is over. */
  function ReleaseStep(w: World): World
    requires w.lock.Held?
  {
    var i := w.lock.next;
    if i < |w.lock.saved| && i < |VARS|
    then w.(env := PutBack(w.env, VARS[i], w.lock.saved[i]), lock := w.lock.(next := i + 1))
    else w.(lock := Free)
  }

  /** A dispatch shows the instance that serves it and the environment in place at that moment. */
  datatype Outcome = Silent | Dispatched(inst: Instance, env: Env)

  function Step(h: Hash, w: World, op: Op): (Outcome, World) {
    if !Ready(w, op) then (Silent, w)
    else
      match op
      case Configure(l, memory, copyMemory) => (Silent, EnsureConfig(w, l, memory, copyMemory).1)
      case Provide(p, l, memory, copyMemory) => (Silent, ApplyProvider(w, p, l, memory, copyMemory).1)
      case Begin(tier, sid, copies, loads) => (Silent, BeginCall(h, w, tier, sid, copies, loads))
      case Dispatch => (Dispatched(At(w, w.lock.tier).inst.value, w.env), w)
      case Release => (Silent, ReleaseStep(w))
      case SetKey(sid, name, value) => (Silent, w.(table := SetValue(w.table, sid, name, value)))
      case ResetKeys(sid) => (Silent, w.(table := Reset(w.table, sid)))
      case OtherLookup(sid, key) => (Silent, w.(table := Looked(w.table, sid, key)))
      case OtherWrite(v, written) => (Silent, w.(env := Put(w.env, v, written)))
  }

  function Run(h: Hash, w: World, ops: seq<Op>): World
    decreases |ops|
  {
    if ops == [] then w else Run(h, Step(h, w, ops[0]).1, ops[1..])
  }

  lemma {:induction false} RunSplit(h: Hash, w: World, a: seq<Op>, b: seq<Op>)
    ensures Run(h, w, a + b) == Run(h, Run(h, w, a), b)
    decreases |a|
  {
    if a == [] {
      assert a + b == b;
    } else {
      SeqFacts.Uncons(a, b);
      RunSplit(h, Step(h, w, a[0]).1, a[1..], b);
    }
  }

  // ----- the invariant -----

  /**
   A valid fingerprint is that of the environment its instance was loaded in, from the current plugin
   and with the current configuration in every variable that sessions cannot override.
   */
  predicate TierOk(h: Hash, s: TierState, c: Config, tier: Tier)
    requires tier != TextSql
  {
    s.fp.Some? ==>
      && s.inst.Some? && s.inst.value.plugin == c.plugin
      && s.fp.value == Of(h, s.inst.value.env) && FixedEnv(c, tier, s.inst.value.env)
  }

  predicate FixedEnv(c: Config, tier: Tier, e: Env)
    requires tier != TextSql
  {
    forall v :: IsFixed(v) ==> Get(e, v) == Fixed(c, tier, v)
  }

  /** What the call that holds the lock wants: its tier's configuration under its session's overrides. */
  function Wanted(w: World): Env
    requires w.lock.Held? && w.lock.tier != TextSql
  {
    EffectiveEnv(w.cfg, w.lock.at, w.lock.sid, w.lock.tier)
  }

  /** A call that is ready has its tier's fingerprint valid, and it is that of the environment it wants. */
  predicate LockOk(h: Hash, w: World) {
    w.lock.Held? ==>
      && w.initialized && w.lock.tier != TextSql && TableOk(w.lock.at)
      && (w.lock.ready ==> At(w, w.lock.tier).fp == Some(Of(h, Wanted(w))))
  }

  predicate Inv(h: Hash, w: World) {
    && TierOk(h, w.reason, w.cfg, Reason) && TierOk(h, w.embed, w.cfg, Embed) && TableOk(w.table)
    && (w.reason.fp.Some? || w.embed.fp.Some? ==> w.initialized)
    && LockOk(h, w)
  }

  lemma PublishInv(h: Hash, w: World, tier: Tier, sid: nat)
    requires Inv(h, w) && w.lock.Free? && CanPublish(w.cfg, tier)
    ensures var p := Publish(w, tier, sid);
      && Inv(h, p) && p == w.(env := p.env, table := p.table)
      && p.env == EffectiveEnv(w.cfg, w.table, sid, tier) && FixedEnv(w.cfg, tier, p.env)
  {
    PublishedOk(w.cfg, w.table, sid, tier, w.env);
    PublishedIs(w.cfg, w.table, sid, tier, w.env);
    hide TableOk, Published, EffectiveEnv, Of, FixedEnv;
  }

  lemma LoadInv(h: Hash, w: World, tier: Tier, loads: bool)
    requires Inv(h, w) && w.lock.Free? && w.initialized && CanPublish(w.cfg, tier) && FixedEnv(w.cfg, tier, w.env)
    ensures var (ok, w') := Reload(h, w, tier, loads);
      && Inv(h, w') && w' == WithTier(w, tier, At(w', tier))
      && (ok ==> At(w', tier).fp == Some(Of(h, w.env)))
      && (!ok ==> At(w', tier) == At(w, tier))
  {
    hide TableOk, Of, FixedEnv;
  }

  /** Publishing and reloading: the invariant holds again, and on success the tier's fingerprint is the environment's. */
  lemma ReloadInv(h: Hash, w: World, tier: Tier, sid: nat, loads: bool)
    requires Inv(h, w) && w.lock.Free? && w.initialized && CanPublish(w.cfg, tier)
    ensures var (ok, w') := Reload(h, Publish(w, tier, sid), tier, loads);
      && Inv(h, w') && w' == WithTier(w.(env := w'.env, table := w'.table), tier, At(w', tier))
      && w'.env == EffectiveEnv(w.cfg, w.table, sid, tier)
      && (ok ==> At(w', tier).fp == Some(Of(h, w'.env)))
      && (!ok ==> At(w', tier) == At(w, tier))
  {
    PublishInv(h, w, tier, sid);
    hide Inv, Publish, EffectiveEnv, Reload, FixedEnv, Of;
    LoadInv(h, Publish(w, tier, sid), tier, loads);
  }

  lemma PublishedOk(c: Config, t: Table, sid: nat, tier: Tier, e: Env)
    requires TableOk(t) && CanPublish(c, tier)
    ensures var (e', t') := Published(c, t, sid, tier, e);
      TableOk(t') && FixedEnv(c, tier, e')
  {
    hide TableOk, Published, Effective, Fixed;
    forall v | IsFixed(v)
      ensures Get(Published(c, t, sid, tier, e).0, v) == Fixed(c, tier, v)
    {
      PublishesEffective(c, t, sid, tier, e, v);
      FixedStays(c, t, sid, tier, v);
    }
    PublishedKeeps(c, t, sid, tier, e);
  }

  lemma PublishedKeeps(c: Config, t: Table, sid: nat, tier: Tier, e: Env)
    requires TableOk(t) && CanPublish(c, tier)
    ensures TableOk(Published(c, t, sid, tier, e).1)
  {
    OverridesKeepRows(t, sid, tier, BaseEnv(c, tier, e), 0, sid);
  }

  /** What the first step of a call leaves: on success the environment it wants, with its fingerprint. */
  predicate Begun(h: Hash, w: World, w': World, tier: Tier, sid: nat, saved: seq<Saved>)
    requires tier != TextSql
  {
    && w'.lock.Held? && w'.lock == Held(tier, sid, w.table, w'.lock.ready, saved, 0)
    && w'.cfg == w.cfg && w'.boot == w.boot && w'.applied == w.applied
    && (w'.lock.ready ==> w'.env == Wanted(w'))
    && (!w'.lock.ready ==> At(w', tier) == At(w, tier))
    && (tier == Reason ==> w'.embed == w.embed) && (tier == Embed ==> w'.reason == w.reason)
  }

  lemma LockTaken(h: Hash, w: World, lock: Lock)
    requires Inv(h, w) && w.lock.Free? && w.initialized && lock.Held? && lock.tier != TextSql && TableOk(lock.at)
    requires lock.ready ==> At(w, lock.tier).fp == Some(Of(h, EffectiveEnv(w.cfg, lock.at, lock.sid, lock.tier)))
    ensures Inv(h, w.(lock := lock))
  {
    hide TableOk, Of, FixedEnv, EffectiveEnv;
  }

  lemma TableIsOk(h: Hash, w: World)
    requires Inv(h, w)
    ensures TableOk(w.table)
  {
  }

  lemma ReasonBegins(h: Hash, w: World, sid: nat, copies: seq<bool>, loads: bool)
    requires Inv(h, w) && Ready(w, Begin(Reason, sid, copies, loads))
    ensures var w' := BeginCall(h, w, Reason, sid, copies, loads);
      Inv(h, w') && Begun(h, w, w', Reason, sid, [])
  {
    hide Inv, TableOk, Of, EffectiveEnv, Publish, Reload;
    TableIsOk(h, w);
    ReloadInv(h, w, Reason, sid, loads);
    var (ok, w') := ReasonReload(h, w, sid, loads);
    LockTaken(h, w', Held(Reason, sid, w.table, ok, [], 0));
  }

  lemma EmbedBegins(h: Hash, w: World, sid: nat, copies: seq<bool>, loads: bool)
    requires Inv(h, w) && Ready(w, Begin(Embed, sid, copies, loads))
    ensures var w' := BeginCall(h, w, Embed, sid, copies, loads);
      && Inv(h, w') && Begun(h, w, w', Embed, sid, Save(w.env, copies))
      && (!AllSaved(Save(w.env, copies)) ==> w'.env == w.env && !w'.lock.ready)
  {
    hide Inv, TableOk, Of, EffectiveEnv, Publish, Reload, Save, AllSaved;
    TableIsOk(h, w);
    if AllSaved(Save(w.env, copies)) {
      ReloadInv(h, w, Embed, sid, loads);
    }
    var (ok, w') := EmbedOpen(h, w, sid, copies, loads);
    LockTaken(h, w', Held(Embed, sid, w.table, ok, Save(w.env, copies), 0));
  }

  lemma StepInv(h: Hash, w: World, op: Op)
    requires Inv(h, w)
    ensures Inv(h, Step(h, w, op).1)
  {
    hide TableOk, Of, Captured, Provided, SetValue, Reset, Looked, FixedEnv, EffectiveEnv, BeginCall, VARS;
    if Ready(w, op) {
      match op
      case Begin(tier, sid, copies, loads) =>
        if tier == Reason {
          ReasonBegins(h, w, sid, copies, loads);
        } else {
          EmbedBegins(h, w, sid, copies, loads);
        }
      case SetKey(sid, name, value) => SetValueOk(w.table, sid, name, value, sid);
      case ResetKeys(sid) => ResetReads(w.table, sid, sid, 0);
      case OtherLookup(sid, key) => LookedReads(w.table, sid, key, sid);
      case _ =>
    }
  }

  lemma {:induction false} RunInv(h: Hash, w: World, ops: seq<Op>)
    requires Inv(h, w)
    ensures Inv(h, Run(h, w, ops))
    decreases |ops|
  {
    if ops != [] {
      StepInv(h, w, ops[0]);
      RunInv(h, Step(h, w, ops[0]).1, ops[1..]);
    }
  }

  lemma StartInv(h: Hash)
    ensures Inv(h, START)
  {
  }

  // ----- what a dispatch runs on -----

  /**
   The instance that serves the call comes from the configured plugin and was loaded in an environment
   with the fingerprint of the one the call wants, and right in every variable no session can override.
   */
  predicate Serves(h: Hash, w: World, inst: Instance)
    requires w.lock.Held? && w.lock.tier != TextSql
  {
    && inst.plugin == w.cfg.plugin
    && Of(h, inst.env) == Of(h, Wanted(w))
    && FixedEnv(w.cfg, w.lock.tier, inst.env)
  }

  /** In every run, wherever other tiers write to the environment, a dispatched call is served by its own instance. */
  lemma DispatchIsOwn(h: Hash, ops: seq<Op>, d: Outcome)
    requires d == Step(h, Run(h, START, ops), Dispatch).0 && d.Dispatched?
    ensures var w := Run(h, START, ops);
      w.lock.Held? && w.lock.tier != TextSql && Serves(h, w, d.inst)
  {
    StartInv(h);
    RunInv(h, START, ops);
    hide Run, START, TableOk, Of, EffectiveEnv, FixedEnv;
  }

  /** Sessions override no two neighbouring variables, so what they publish differs sparsely. */
  lemma OverridesAreSparse(c: Config, tier: Tier, a: Env, b: Env)
    requires tier != TextSql && FixedEnv(c, tier, a) && FixedEnv(c, tier, b)
    ensures Sparse(a, b)
  {
    hide Fixed, Get;
    forall i | 0 <= i < |COUNTED| - 1
      ensures Get(a, COUNTED[i]) == Get(b, COUNTED[i]) || Get(a, COUNTED[i + 1]) == Get(b, COUNTED[i + 1])
    {
      assert IsFixed(COUNTED[i]) || IsFixed(COUNTED[i + 1]);
    }
  }

  lemma WantedIsFixed(c: Config, t: Table, sid: nat, tier: Tier)
    requires tier != TextSql
    ensures FixedEnv(c, tier, EffectiveEnv(c, t, sid, tier))
  {
    hide EffectiveEnv, Effective, Fixed;
    forall v | IsFixed(v)
      ensures Get(EffectiveEnv(c, t, sid, tier), v) == Fixed(c, tier, v)
    {
      EffectiveEnvReads(c, t, sid, tier, v);
      FixedStays(c, t, sid, tier, v);
    }
  }

  /**
   So, as long as the hash does not collide on the two streams, the instance that serves a call has
   exactly the environment baked in that the call wants, in every variable. Nothing that other tiers or
   sessions do between its publish and its dispatch changes that.
   */
  lemma DispatchIsBaked(h: Hash, ops: seq<Op>, d: Outcome)
    requires d == Step(h, Run(h, START, ops), Dispatch).0 && d.Dispatched?
    ensures var w := Run(h, START, ops);
      && w.lock.Held? && w.lock.tier != TextSql
      && (CStrings(Wanted(w)) && CStrings(d.inst.env) && !Collide(h, Stream(Wanted(w)), Stream(d.inst.env))
          ==> d.inst.env == Wanted(w))
  {
    DispatchIsOwn(h, ops, d);
    var w := Run(h, START, ops);
    if CStrings(Wanted(w)) && CStrings(d.inst.env) && !Collide(h, Stream(Wanted(w)), Stream(d.inst.env)) {
      hide Run, START, Step, CStrings, Collide, Stream, FixedEnv, Of, EffectiveEnv;
      WantedIsFixed(w.cfg, w.lock.at, w.lock.sid, w.lock.tier);
      ServedIsWanted(h, w.cfg, w.lock.tier, Wanted(w), d.inst.env);
    }
  }

  lemma ServedIsWanted(h: Hash, c: Config, tier: Tier, wanted: Env, baked: Env)
    requires tier != TextSql && FixedEnv(c, tier, wanted) && FixedEnv(c, tier, baked)
    requires CStrings(wanted) && CStrings(baked) && !Collide(h, Stream(wanted), Stream(baked))
    requires Of(h, baked) == Of(h, wanted)
    ensures baked == wanted
  {
    hide Of, Stream, CStrings, Agree, Collide, Fixed, Sparse, Get;
    OverridesAreSparse(c, tier, wanted, baked);
    FingerprintDecides(h, wanted, baked);
    forall v
      ensures Get(baked, v) == Get(wanted, v)
    {
      if v != SystemTag {
        CountedCovers(v, wanted, baked);
      } else {
        assert IsFixed(v);
      }
    }
    SameReads(baked, wanted);
  }

  lemma CountedCovers(v: Var, a: Env, b: Env)
    requires Agree(a, b) && v != SystemTag
    ensures Get(a, v) == Get(b, v)
  {
    assert COUNTED[0] == Url && COUNTED[1] == Token && COUNTED[2] == Model && COUNTED[3] == AllowPlaintext;
    assert COUNTED[4] == Mode && COUNTED[5] == ResponseMode && COUNTED[6] == Think;
    assert COUNTED[7] == ThinkProvider && COUNTED[8] == NativeUrl && COUNTED[9] == NumCtx;
  }

  // ----- loads -----

  /** A failed load leaves both tiers with the instance and the fingerprint they had. */
  lemma FailedLoadKeepsInstance(h: Hash, w: World, tier: Tier, sid: nat, copies: seq<bool>, loads: bool)
    requires Inv(h, w) && Ready(w, Begin(tier, sid, copies, loads))
    requires !BeginCall(h, w, tier, sid, copies, loads).lock.ready
    ensures var w' := BeginCall(h, w, tier, sid, copies, loads);
      w'.reason == w.reason && w'.embed == w.embed
  {
    hide Inv, BeginCall, Wanted;
    if tier == Reason {
      ReasonBegins(h, w, sid, copies, loads);
    } else {
      EmbedBegins(h, w, sid, copies, loads);
    }
  }

  /** A call whose effective configuration is the one already baked in is ready without a load. */
  lemma NoNeedlessReload(h: Hash, w: World, tier: Tier, sid: nat, copies: seq<bool>)
    requires Inv(h, w) && Ready(w, Begin(tier, sid, copies, false)) && At(w, tier).fp.Some?
    requires tier == Embed ==> AllSaved(Save(w.env, copies))
    requires forall v :: v != SystemTag ==> Get(At(w, tier).inst.value.env, v) == Effective(w.cfg, w.table, sid, tier, v)
    ensures var w' := BeginCall(h, w, tier, sid, copies, false);
      w'.lock.ready && w'.reason == w.reason && w'.embed == w.embed
  {
    hide TableOk, EffectiveEnv, Publish, Effective, Of, Save, AllSaved, FixedEnv;
    PublishInv(h, w, tier, sid);
    SameFingerprint(h, w.cfg, w.table, sid, tier, At(w, tier).inst.value.env);
  }

  lemma SameFingerprint(h: Hash, c: Config, t: Table, sid: nat, tier: Tier, baked: Env)
    requires tier != TextSql && forall v :: v != SystemTag ==> Get(baked, v) == Effective(c, t, sid, tier, v)
    ensures Of(h, baked) == Of(h, EffectiveEnv(c, t, sid, tier))
  {
    BakedStreams(c, t, sid, tier, baked);
  }

  lemma BakedStreams(c: Config, t: Table, sid: nat, tier: Tier, baked: Env)
    requires tier != TextSql && forall v :: v != SystemTag ==> Get(baked, v) == Effective(c, t, sid, tier, v)
    ensures Stream(baked) == Stream(EffectiveEnv(c, t, sid, tier))
  {
    hide EffectiveEnv, Effective, COUNTED;
    var e := EffectiveEnv(c, t, sid, tier);
    forall j | 0 <= j < |COUNTED|
      ensures Get(baked, COUNTED[j]) == Get(e, COUNTED[j])
    {
      EffectiveEnvReads(c, t, sid, tier, COUNTED[j]);
      NotSystemTag(j);
    }
    AgreeingStreams(baked, e, 0);
  }

  lemma NotSystemTag(j: nat)
    requires j < |COUNTED|
    ensures COUNTED[j] != SystemTag
  {
  }

  // ----- which configuration is in force -----

  /** A pushed configuration replaces the one before it entirely: keys it leaves out fall back to the boot snapshot. */
  lemma LastProviderWins(w: World, p: Provider, q: Provider, l: Legacy)
    ensures ApplyProvider(ApplyProvider(w, p, l, true, true).1, q, l, true, true) == ApplyProvider(w, q, l, true, true)
  {
  }

  predicate IsProvide(op: Op) {
    op.Provide?
  }

  /** Once a configuration has been pushed, only another push changes it, whatever else happens. */
  lemma {:induction false} ProviderSticks(h: Hash, w: World, ops: seq<Op>)
    requires w.applied && w.boot.Some? && forall i :: 0 <= i < |ops| ==> !IsProvide(ops[i])
    ensures Run(h, w, ops).cfg == w.cfg && Run(h, w, ops).boot == w.boot
    decreases |ops|
  {
    if ops != [] {
      StepKeepsProvider(h, w, ops[0]);
      ProviderSticks(h, Step(h, w, ops[0]).1, ops[1..]);
    }
  }

  lemma StepKeepsProvider(h: Hash, w: World, op: Op)
    requires w.applied && w.boot.Some? && !IsProvide(op)
    ensures var w' := Step(h, w, op).1; w'.cfg == w.cfg && w'.boot == w.boot && w'.applied
  {
    hide Published, Of, Save, SetValue, Reset, Looked, AllSaved, VARS;
  }

  /**
   So over every run the configuration in force is the last one pushed, with the keys it leaves out as
   they were when the daemon started.
   */
  lemma LastPushIsInForce(h: Hash, before: seq<Op>, push: Op, since: seq<Op>)
    requires push.Provide? && push.memory && push.copyMemory && Run(h, START, before).lock.Free?
    requires forall i :: 0 <= i < |since| ==> !IsProvide(since[i])
    ensures var w := Run(h, Step(h, Run(h, START, before), push).1, since);
      w.boot.Some? && w.cfg == Provided(push.provider, w.boot.value)
  {
    hide *;
    var w := Run(h, START, before);
    PushTaken(h, w, push);
    ProviderSticks(h, Step(h, w, push).1, since);
  }

  lemma PushTaken(h: Hash, w: World, push: Op)
    requires push.Provide? && push.memory && push.copyMemory && w.lock.Free?
    ensures var w' := Step(h, w, push).1;
      w'.applied && w'.boot.Some? && w'.cfg == Provided(push.provider, w'.boot.value)
  {
    hide Provided, Captured, SetValue, Reset, Looked, Put, BeginCall;
  }
}
