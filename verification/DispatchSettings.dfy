/**
 Which setting comes from where: the boot environment, a pushed configuration file, or neither. Read variable by
 variable in what a tier publishes, and in the instance that serves its calls.
 */
module DispatchSettings {
  import opened Wrappers
  import opened ConfigKeys
  import opened Overlay
  import opened BridgeEnv
  import opened Fingerprint
  import opened Dispatch
  import SeqFacts

  // ----- the boot snapshot -----

  /** The plugin's own variable wins when it is set and not empty; else the FRACTALSQL_ one does on the same terms. */
  predicate FirstSet(r: Option<string>, own: Option<string>, legacy: Option<string>) {
    r == if own.Some? && own.value != "" then own
         else if legacy.Some? && legacy.value != "" then legacy
         else None
  }

  /** Every setting of a snapshot, with the variables it is taken from. */
  ghost predicate SnapshotOf(b: Config, e: Env, l: Legacy) {
    && FirstSet(b.plugin, None, l.plugin)
    && FirstSet(b.url, Get(e, Url), l.url)
    && FirstSet(b.token, Get(e, Token), l.token)
    && FirstSet(b.model, Get(e, Model), l.model)
    && FirstSet(b.embedUrl, None, l.embedUrl)
    && FirstSet(b.embedModel, None, l.embedModel)
    && FirstSet(b.think, Get(e, Think), l.think)
    && FirstSet(b.thinkProvider, Get(e, ThinkProvider), l.thinkProvider)
    && FirstSet(b.nativeUrl, Get(e, NativeUrl), l.nativeUrl)
    && FirstSet(b.numCtx, Get(e, NumCtx), l.numCtx)
    && FirstSet(b.responseMode, Get(e, ResponseMode), None)
    && (b.plaintext <==> exists plain :: FirstSet(Some(plain), Get(e, AllowPlaintext), l.plaintext) && plain != "0")
  }

  lemma PreferIs(a: Option<string>, b: Option<string>)
    ensures FirstSet(Prefer(a, b), a, b)
  {
  }

  lemma CapturedIs(e: Env, l: Legacy)
    ensures SnapshotOf(Captured(e, l), e, l)
  {
    hide Get, FirstSet, Prefer, Nonempty;
    PreferIs(None, l.plugin);
    PreferIs(Get(e, Url), l.url);
    PreferIs(Get(e, Token), l.token);
    PreferIs(Get(e, Model), l.model);
    PreferIs(None, l.embedUrl);
    PreferIs(None, l.embedModel);
    PreferIs(Get(e, Think), l.think);
    PreferIs(Get(e, ThinkProvider), l.thinkProvider);
    PreferIs(Get(e, NativeUrl), l.nativeUrl);
    PreferIs(Get(e, NumCtx), l.numCtx);
    PreferIs(Get(e, ResponseMode), None);
    NonemptyIs();
    PreferIs(Get(e, AllowPlaintext), l.plaintext);
    OneIsFirst(Get(e, AllowPlaintext), l.plaintext);
  }

  lemma NonemptyIs()
    ensures forall o :: Nonempty(o) == Prefer(None, o) && Nonempty(o) == Prefer(o, None)
  {
  }

  lemma OneIsFirst(a: Option<string>, b: Option<string>)
    ensures forall r, s :: FirstSet(r, a, b) && FirstSet(s, a, b) ==> r == s
  {
  }

  /** The snapshot is taken at the first of these steps that has the memory for it. */
  function Captures(op: Op): Option<Legacy> {
    if (op.Configure? || op.Provide?) && op.memory then Some(op.legacy) else None
  }

  lemma BeginKeeps(h: Hash, w: World, tier: Tier, sid: nat, copies: seq<bool>, loads: bool)
    requires CanPublish(w.cfg, tier) && (tier == Embed ==> |copies| == |VARS|)
    ensures var w' := BeginCall(h, w, tier, sid, copies, loads);
      w'.boot == w.boot && w'.cfg == w.cfg && w'.applied == w.applied && w'.initialized == w.initialized
  {
    hide Published, Of, Save, AllSaved, VARS;
  }

  lemma SnapshotStep(h: Hash, w: World, op: Op)
    ensures w.boot.Some? ==> Step(h, w, op).1.boot == w.boot
    ensures w.boot.None? && Step(h, w, op).1.boot.Some? ==>
      Captures(op).Some? && SnapshotOf(Step(h, w, op).1.boot.value, w.env, Captures(op).value)
  {
    hide SetValue, Reset, Looked, Put, Captured, Provided, SnapshotOf, BeginCall, VARS, PutBack;
    if Captures(op).Some? {
      CapturedIs(w.env, Captures(op).value);
    }
    if op.Begin? && Ready(w, op) {
      BeginKeeps(h, w, op.tier, op.sid, op.copies, op.loads);
    }
  }

  /** Over every run the snapshot, once taken, stays, and it is that of the environment it was taken from. */
  lemma {:induction false} SnapshotOfRun(h: Hash, w: World, ops: seq<Op>) returns (at: nat)
    requires w.boot.None? && Run(h, w, ops).boot.Some?
    ensures at < |ops| && Captures(ops[at]).Some?
    ensures Run(h, w, ops[..at]).boot.None?
    ensures SnapshotOf(Run(h, w, ops).boot.value, Run(h, w, ops[..at]).env, Captures(ops[at]).value)
    decreases |ops|
  {
    hide Step, SnapshotOf;
    SnapshotStep(h, w, ops[0]);
    var w1 := Step(h, w, ops[0]).1;
    if w1.boot.Some? {
      at := 0;
      assert ops[..0] == [];
      SnapshotStays(h, w1, ops[1..]);
    } else {
      var i := SnapshotOfRun(h, w1, ops[1..]);
      at := i + 1;
      assert ops[..at][1..] == ops[1..][..i] && ops[..at][0] == ops[0];
    }
  }

  lemma {:induction false} SnapshotStays(h: Hash, w: World, ops: seq<Op>)
    requires w.boot.Some?
    ensures Run(h, w, ops).boot == w.boot
    decreases |ops|
  {
    hide Step;
    if ops != [] {
      SnapshotStep(h, w, ops[0]);
      SnapshotStays(h, Step(h, w, ops[0]).1, ops[1..]);
    }
  }

  // ----- when a configuration comes into force -----

  /** `ensure_env_config` fills the configuration in once, from the snapshot, and never over a pushed one. */
  lemma ConfigureFills(w: World, l: Legacy, memory: bool, copyMemory: bool)
    ensures var (ok, w') := EnsureConfig(w, l, memory, copyMemory);
      && (ok <==> w.boot.Some? || memory)
      && (w'.initialized <==> w.initialized || (ok && !w.applied && copyMemory))
      && w'.cfg == (if !w.initialized && w'.initialized then w'.boot.value else w.cfg)
      && w' == w.(boot := w'.boot, cfg := w'.cfg, initialized := w'.initialized)
  {
    hide Captured;
  }

  /** A push is taken whole or not at all; taken, it leaves both instances but no fingerprint that would keep them. */
  lemma PushIsWhole(w: World, p: Provider, l: Legacy, memory: bool, copyMemory: bool)
    ensures var (ok, w') := ApplyProvider(w, p, l, memory, copyMemory);
      && (ok <==> (w.boot.Some? || memory) && copyMemory)
      && (!ok ==> w' == w.(boot := w'.boot))
      && (ok ==> w'.applied && w'.initialized && w'.reason == TierState(None, w.reason.inst)
                 && w'.embed == TierState(None, w.embed.inst)
                 && w'.env == w.env && w'.table == w.table && w'.lock == w.lock)
  {
    hide Captured, Provided;
  }

  // ----- what is published -----

  /** The session overrides nothing. */
  ghost predicate OverridesNothing(t: Table, sid: nat) {
    forall key :: Override(t, sid, key).None?
  }

  /** The variable has the value of the file when the key is in the file, and that of the boot snapshot when not. */
  predicate Says(e: Env, v: Var, file: Option<Option<string>>, boot: Option<string>) {
    Get(e, v) == if file.Some? then file.value else boot
  }

  /** The plaintext switch is published as "1" or not at all. */
  predicate SaysPlain(e: Env, file: Option<bool>, boot: bool) {
    Get(e, AllowPlaintext) == if (if file.Some? then file.value else boot) then Some("1") else None
  }

  /** What the reason tier publishes for a session without overrides. */
  predicate ReasonSettings(e: Env, p: Provider, b: Config) {
    && Says(e, Url, p.url, b.url)
    && Says(e, Token, p.token, b.token)
    && Says(e, Model, p.model, b.model)
    && SaysPlain(e, p.plaintext, b.plaintext)
    && Says(e, Think, p.think, b.think)
    && Says(e, ThinkProvider, p.thinkProvider, b.thinkProvider)
    && Says(e, NativeUrl, p.nativeUrl, b.nativeUrl)
    && Says(e, NumCtx, p.numCtx, b.numCtx)
    && Get(e, ResponseMode) == b.responseMode
    && Get(e, Mode) == None && Get(e, SystemTag) == None
  }

  /** And the embed tier: its own endpoint and model, the common token and switch, and nothing of the chat settings. */
  predicate EmbedSettings(e: Env, p: Provider, b: Config) {
    && Says(e, Url, p.embedUrl, b.embedUrl)
    && Says(e, Token, p.token, b.token)
    && Says(e, Model, p.embedModel, b.embedModel)
    && SaysPlain(e, p.plaintext, b.plaintext)
    && Get(e, Mode) == Some("embedding")
    && Get(e, Think) == None && Get(e, ThinkProvider) == None && Get(e, NativeUrl) == None && Get(e, NumCtx) == None
    && Get(e, ResponseMode) == None && Get(e, SystemTag) == None
  }

  predicate Settings(tier: Tier, e: Env, p: Provider, b: Config) {
    if tier == Reason then ReasonSettings(e, p, b) else EmbedSettings(e, p, b)
  }

  lemma NothingOver(t: Table, sid: nat, key: nat, otherwise: Option<string>)
    requires Override(t, sid, key).None?
    ensures Over(t, sid, key, otherwise) == otherwise
  {
    hide Override;
  }

  lemma WantedSettings(p: Provider, b: Config, t: Table, sid: nat, tier: Tier)
    requires tier != TextSql && OverridesNothing(t, sid)
    ensures Settings(tier, EffectiveEnv(Provided(p, b), t, sid, tier), p, b)
  {
    hide EffectiveEnv, Over, Override, Get;
    var c := Provided(p, b);
    forall v
      ensures Get(EffectiveEnv(c, t, sid, tier), v) == Effective(c, t, sid, tier, v)
    {
      EffectiveEnvReads(c, t, sid, tier, v);
    }
    forall key, otherwise
      ensures Over(t, sid, key, otherwise) == otherwise
    {
      NothingOver(t, sid, key, otherwise);
    }
  }

  /**
   After a push, and whatever happens until the next one, what a tier publishes for a session without overrides
   is, variable by variable, the value of the pushed file where it has the key and the boot value where not.
   */
  lemma PushedSettings(h: Hash, before: seq<Op>, push: Op, since: seq<Op>, tier: Tier, sid: nat)
    requires push.Provide? && push.memory && push.copyMemory && Run(h, START, before).lock.Free?
    requires forall i :: 0 <= i < |since| ==> !IsProvide(since[i])
    requires var w := Run(h, Step(h, Run(h, START, before), push).1, since);
      OverridesNothing(w.table, sid) && CanPublish(w.cfg, tier)
    ensures var w := Run(h, Step(h, Run(h, START, before), push).1, since);
      w.boot.Some? && Settings(tier, Publish(w, tier, sid).env, push.provider, w.boot.value)
  {
    hide Run, Step, Provided, OverridesNothing, Settings, EffectiveEnv, TableOk, Inv;
    var w1 := Run(h, START, before);
    var w2 := Step(h, w1, push).1;
    var w := Run(h, w2, since);
    LastPushIsInForce(h, before, push, since);
    WantedSettings(push.provider, w.boot.value, w.table, sid, tier);
    StartInv(h);
    RunInv(h, START, before);
    StepInv(h, w1, push);
    RunInv(h, w2, since);
    TableIsOk(h, w);
    PublishedIs(w.cfg, w.table, sid, tier, w.env);
  }

  /** The instance that serves a call comes from the pushed plugin path, or the boot one, with these settings baked in. */
  lemma ServedSettings(h: Hash, before: seq<Op>, push: Op, since: seq<Op>, d: Outcome)
    requires push.Provide? && push.memory && push.copyMemory && Run(h, START, before).lock.Free?
    requires forall i :: 0 <= i < |since| ==> !IsProvide(since[i])
    requires d == Step(h, Run(h, START, before + ([push] + since)), Op.Dispatch).0 && d.Dispatched?
    ensures var w := Run(h, START, before + ([push] + since));
      && w.boot.Some? && w.lock.Held? && w.lock.tier != TextSql
      && d.inst.plugin == (if push.provider.plugin.Some? then push.provider.plugin.value else w.boot.value.plugin)
      && (OverridesNothing(w.lock.at, w.lock.sid) && CStrings(Wanted(w)) && CStrings(d.inst.env)
          && !Collide(h, Stream(Wanted(w)), Stream(d.inst.env))
          ==> Settings(w.lock.tier, d.inst.env, push.provider, w.boot.value))
  {
    hide Run, Step, OverridesNothing, Settings, CStrings, EffectiveEnv, Collide, StreamFrom, FixedEnv, Of;
    var ops := before + ([push] + since);
    var w := Run(h, START, ops);
    RunSplit(h, START, before, [push] + since);
    RunPush(h, Run(h, START, before), push, since);
    LastPushIsInForce(h, before, push, since);
    DispatchIsOwn(h, ops, d);
    DispatchIsBaked(h, ops, d);
    if OverridesNothing(w.lock.at, w.lock.sid) {
      WantedSettings(push.provider, w.boot.value, w.lock.at, w.lock.sid, w.lock.tier);
    }
  }

  lemma RunPush(h: Hash, w: World, push: Op, since: seq<Op>)
    ensures Run(h, w, [push] + since) == Run(h, Step(h, w, push).1, since)
  {
    hide Step;
    assert ([push] + since)[0] == push && ([push] + since)[1..] == since;
  }

  // ----- without a push -----

  const NOTHING_PUSHED: Provider := Provider(None, None, None, None, None, None, None, None, None, None, None)

  /** Until something is pushed, a configuration that has been filled in is the boot snapshot. */
  predicate FromBoot(w: World) {
    !w.applied && (w.initialized ==> w.boot.Some? && w.cfg == w.boot.value)
  }

  lemma StepFromBoot(h: Hash, w: World, op: Op)
    requires FromBoot(w) && !IsProvide(op)
    ensures FromBoot(Step(h, w, op).1)
  {
    hide SetValue, Reset, Looked, Put, Captured, BeginCall, VARS, PutBack;
    if op.Begin? && Ready(w, op) {
      BeginKeeps(h, w, op.tier, op.sid, op.copies, op.loads);
    }
  }

  lemma {:induction false} RunFromBoot(h: Hash, w: World, ops: seq<Op>)
    requires FromBoot(w) && forall i :: 0 <= i < |ops| ==> !IsProvide(ops[i])
    ensures FromBoot(Run(h, w, ops))
    decreases |ops|
  {
    hide Step, FromBoot;
    if ops != [] {
      StepFromBoot(h, w, ops[0]);
      RunFromBoot(h, Step(h, w, ops[0]).1, ops[1..]);
    }
  }

  lemma StartFromBoot()
    ensures FromBoot(START)
  {
  }

  lemma NothingProvided(b: Config)
    ensures Provided(NOTHING_PUSHED, b) == b
  {
  }

  /** So without a push what a tier publishes is the boot snapshot, variable by variable. */
  lemma BootSettings(h: Hash, ops: seq<Op>, tier: Tier, sid: nat)
    requires forall i :: 0 <= i < |ops| ==> !IsProvide(ops[i])
    requires var w := Run(h, START, ops); w.initialized && OverridesNothing(w.table, sid) && CanPublish(w.cfg, tier)
    ensures var w := Run(h, START, ops);
      w.boot.Some? && Settings(tier, Publish(w, tier, sid).env, NOTHING_PUSHED, w.boot.value)
  {
    hide Run, Provided, OverridesNothing, Settings, EffectiveEnv, TableOk, Inv;
    var w := Run(h, START, ops);
    StartFromBoot();
    RunFromBoot(h, START, ops);
    NothingProvided(w.boot.value);
    WantedSettings(NOTHING_PUSHED, w.boot.value, w.table, sid, tier);
    StartInv(h);
    RunInv(h, START, ops);
    TableIsOk(h, w);
    PublishedIs(w.cfg, w.table, sid, tier, w.env);
  }
}
