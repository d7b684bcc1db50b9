/**
 The reason and embed tiers as the source keeps them: static configuration, fingerprints with their
 valid flags, and the process environment written variable by variable. Every method is proved
 against the steps of module Dispatch that it takes; other threads may come between two methods.
 */
module Cognition {
  import opened Wrappers
  import opened ConfigKeys
  import opened Overlay
  import opened OverlayTable
  import opened BridgeEnv
  import opened Fingerprint
  import opened Dispatch
  import opened DispatchWindow
  import SeqFacts

  class Tiers {
    const sessions: Slots
    const hash: Hash
    const legacy: Legacy
    var env: Env
    var cfg: Config
    var boot: Option<Config>
    var cfgInitialized: bool
    var providerApplied: bool
    var reasonFp: nat
    var reasonFpValid: bool
    var reasonInst: Option<Instance>
    var embedFp: nat
    var embedFpValid: bool
    var embedInst: Option<Instance>
    /** Who holds `g_load_lock`, with that thread's local variables. */
    ghost var lock: Lock

    ghost predicate Valid()
      reads this, sessions, sessions.entries
    {
      sessions.Valid()
    }

    ghost function View(): (w: World)
      reads this, sessions, sessions.entries
      requires Valid()
      ensures w.env == env && w.cfg == cfg && w.lock == lock && w.table == sessions.View()
    {
      World(env, cfg, boot, cfgInitialized, providerApplied,
            TierState(if reasonFpValid then Some(reasonFp) else None, reasonInst),
            TierState(if embedFpValid then Some(embedFp) else None, embedInst), sessions.View(), lock)
    }

    constructor (hash: Hash, legacy: Legacy, start: Env)
      ensures Valid() && fresh(sessions) && fresh(sessions.entries)
      ensures View() == START.(env := start) && this.hash == hash && this.legacy == legacy
    {
      this.hash, this.legacy := hash, legacy;
      sessions := new Slots();
      env, cfg, boot, cfgInitialized, providerApplied := start, NO_CONFIG, None, false, false;
      reasonFp, reasonFpValid, reasonInst := 0, false, None;
      embedFp, embedFpValid, embedInst := 0, false, None;
      lock := Free;
    }

    /** setenv when there is a value, unsetenv when there is none. */
    method SetVar(v: Var, o: Option<string>)
      modifies this`env
      ensures env == Put(old(env), v, o)
    {
      if o.Some? {
        env := env[v := o.value];
      } else {
        env := env - {v};
      }
    }

    /** `apply_reason_env_locked`. */
    method ApplyReasonEnv()
      modifies this`env
      ensures env == ReasonEnv(cfg, old(env))
    {
      SetVar(Url, cfg.url);
      SetVar(Token, cfg.token);
      SetVar(Model, cfg.model);
      SetVar(AllowPlaintext, if cfg.plaintext then Some("1") else None);
      SetVar(Think, cfg.think);
      SetVar(ThinkProvider, cfg.thinkProvider);
      SetVar(NativeUrl, cfg.nativeUrl);
      SetVar(NumCtx, cfg.numCtx);
      SetVar(Mode, None);
      SetVar(ResponseMode, cfg.responseMode);
      SetVar(SystemTag, None);
    }

    /** `apply_embed_env_locked`. */
    method ApplyEmbedEnv()
      requires cfg.embedUrl.Some?
      modifies this`env
      ensures env == EmbedEnv(cfg, old(env))
    {
      SetVar(Url, cfg.embedUrl);
      SetVar(Token, cfg.token);
      SetVar(Model, cfg.embedModel);
      SetVar(AllowPlaintext, if cfg.plaintext then Some("1") else None);
      SetVar(Mode, Some("embedding"));
      SetVar(ResponseMode, None);
      SetVar(SystemTag, None);
      SetVar(Think, None);
      SetVar(ThinkProvider, None);
      SetVar(NativeUrl, None);
      SetVar(NumCtx, None);
    }

    /** One key of `fractal_config_apply_env_overrides`. */
    method OverrideKey(sid: nat, tier: Tier, i: nat)
      requires Valid() && i < |KEYS|
      modifies this`env, sessions, sessions.entries
      ensures Valid() && sessions.View() == LookedAt(old(sessions.View()), sid, tier, i)
      ensures env == Overridden(old(sessions.View()), sid, tier, old(env), i)
    {
      hide KEYS, Override, Looked, Put, ParseBool;
      var k := KEYS[i];
      if !k.sessionOk || k.envVar.None? || tier !in k.tiers { return; }
      var found := sessions.Lookup(sid, i, MAX_VALUE);
      if found.None? { return; }
      if k.kind == Flag {
        var b := ParseBool(found.value);
        if b.None? { return; }
        SetVar(k.envVar.value, if b.value then Some("1") else None);
      } else {
        SetVar(k.envVar.value, found);
      }
    }

    /** `fractal_config_apply_env_overrides`. */
    method ApplyEnvOverrides(sid: nat, tier: Tier)
      requires Valid()
      modifies this`env, sessions, sessions.entries
      ensures Valid() && (env, sessions.View()) == Overrides(old(sessions.View()), sid, tier, old(env), 0)
    {
      KeyCount();
      hide KEYS, Overrides, Overridden, LookedAt;
      var i := 0;
      while i < |KEYS|
        invariant i <= |KEYS| && Valid()
        invariant Overrides(sessions.View(), sid, tier, env, i) == Overrides(old(sessions.View()), sid, tier, old(env), 0)
        decreases |KEYS| - i
      {
        OverridesStep(sessions.View(), sid, tier, env, i);
        OverrideKey(sid, tier, i);
        i := i + 1;
      }
      OverridesEnd(sessions.View(), sid, tier, env);
    }

    /** `fnv_bytes` of a text: its bytes, then the NUL. */
    method FnvBytes(h0: nat, s: string) returns (h: nat)
      ensures h == Fold(hash, h0, Token0(s))
    {
      h := h0;
      var i := 0;
      assert s[0..] == s;
      while i < |s|
        invariant i <= |s| && Fold(hash, h, Token0(s[i..])) == Fold(hash, h0, Token0(s))
      {
        SeqFacts.Uncons(s[i..], ['\0']);
        assert s[i..][1..] == s[i + 1..];
        h := hash.step(h, s[i]);
        i := i + 1;
      }
      assert Token0(s[i..]) == ['\0'];
      h := hash.step(h, '\0');
    }

    /** `fractal_config_env_fingerprint`. */
    method EnvFingerprint() returns (h: nat)
      ensures h == Of(hash, env)
    {
      h := hash.basis;
      var i := 0;
      while i < |COUNTED|
        invariant i <= |COUNTED| && Fold(hash, h, StreamFrom(env, i)) == Of(hash, env)
      {
        hide COUNTED, Name, Token0, Fold;
        var v := COUNTED[i];
        ghost var value := ValueToken(env, v);
        StreamSteps(env, i);
        FoldSplit(hash, h, Token0(Name(v)), value + StreamFrom(env, i + 1));
        h := FnvBytes(h, Name(v));
        FoldSplit(hash, h, value, StreamFrom(env, i + 1));
        if v in env {
          h := FnvBytes(h, env[v]);
        } else {
          FoldNothing(hash, h);
        }
        i := i + 1;
      }
      StreamEnds(env);
    }

    /** `embed_env_save`: whether every copy was taken. */
    method EmbedEnvSave(saved: array<Saved>, copies: seq<bool>) returns (ok: bool)
      requires saved.Length == |VARS| == |copies|
      modifies saved
      ensures saved[..] == Save(env, copies) && ok == AllSaved(saved[..])
    {
      ok := true;
      var i := 0;
      while i < |VARS|
        invariant i <= |VARS| && forall j :: 0 <= j < i ==> saved[j] == SavedFrom(VARS[j], env, copies[j])
        invariant ok <==> forall j :: 0 <= j < i ==> saved[j] != Lost
      {
        hide VARS;
        var v := VARS[i];
        if v !in env {
          saved[i] := Absent;
        } else if copies[i] {
          saved[i] := Copy(env[v]);
        } else {
          saved[i] := Lost;
          ok := false;
        }
        i := i + 1;
      }
    }

    /** One turn of the loop of `embed_env_restore`. */
    method PutBackNext(saved: array<Saved>, i: nat)
      requires Valid() && lock.Held? && |lock.saved| == |VARS| == saved.Length && lock.next == i < |VARS|
      requires saved[i] == lock.saved[i]
      modifies this`env, this`lock, saved
      ensures Valid() && View() == Step(hash, old(View()), Release).1
      ensures forall j :: 0 <= j < saved.Length && j != i ==> saved[j] == old(saved[j])
    {
      hide VARS, Step, Put, SetValue, Reset, Looked, Lists, OverlayTable.Held, OneEach, Stamped, Rows;
      PutBackStep(hash, View());
      match saved[i] {
        case Lost =>
        case Copy(value) => SetVar(VARS[i], Some(value));
        case Absent => SetVar(VARS[i], None);
      }
      saved[i] := Absent;
      lock := lock.(next := i + 1);
    }

    /** `embed_env_restore`, which is all of `embed_env_close`, when no other write comes into it. */
    method EmbedEnvRestore(saved: array<Saved>)
      requires Valid() && lock.Held? && |lock.saved| == |VARS| && lock.next == 0 && saved[..] == lock.saved
      modifies this`env, this`lock, saved
      ensures Valid()
      ensures View() == old(View()).(env := Restored(old(env), old(lock.saved), 0), lock := old(lock).(next := |VARS|))
    {
      hide VARS, Restored, PutBack, Step;
      ghost var was := View();
      var i := 0;
      while i < |VARS|
        invariant i <= |VARS| && Valid() && forall j :: i <= j < |VARS| ==> saved[j] == was.lock.saved[j]
        invariant View() == was.(env := env, lock := was.lock.(next := i))
        invariant Restored(env, was.lock.saved, i) == Restored(was.env, was.lock.saved, 0)
      {
        RestoredStep(env, was.lock.saved, i);
        PutBackStep(hash, View());
        PutBackNext(saved, i);
        i := i + 1;
      }
      RestoredStep(env, was.lock.saved, i);
    }

    /** `capture_env_fb`. */
    method CaptureEnvFb(memory: bool) returns (ok: bool)
      requires Valid()
      modifies this`boot
      ensures Valid() && (ok, View()) == Capture(old(View()), legacy, memory)
    {
      if boot.Some? { return true; }
      if !memory { return false; }
      boot := Some(Captured(env, legacy));
      return true;
    }

    /** `ensure_env_config`. */
    method EnsureEnvConfig(memory: bool, copyMemory: bool) returns (ok: bool)
      requires Valid()
      modifies this`boot, this`cfg, this`cfgInitialized
      ensures Valid() && (ok, View()) == EnsureConfig(old(View()), legacy, memory, copyMemory)
    {
      ok := CaptureEnvFb(memory);
      if ok && !providerApplied && !cfgInitialized && copyMemory {
        cfg, cfgInitialized := boot.value, true;
      }
    }

    /** `fractalsql_cognition_apply_provider`. */
    method ApplyProviderCfg(p: Provider, memory: bool, copyMemory: bool) returns (ok: bool)
      requires Valid()
      modifies this`boot, this`cfg, this`cfgInitialized, this`providerApplied, this`reasonFpValid, this`embedFpValid
      ensures Valid() && (ok, View()) == ApplyProvider(old(View()), p, legacy, memory, copyMemory)
    {
      hide Provided, Captured, Capture, Lists, OverlayTable.Held, OneEach, Stamped, Rows;
      ok := CaptureEnvFb(memory);
      BootKept(old(View()), legacy, memory);
      if !ok || !copyMemory { return false; }
      cfg := Provided(p, boot.value);
      providerApplied, cfgInitialized := true, true;
      reasonFpValid, embedFpValid := false, false;
    }

    /** The publishing half of `reason_env_and_reload`. */
    method PublishReason(sid: nat)
      requires Valid()
      modifies this`env, sessions, sessions.entries
      ensures Valid() && View() == Publish(old(View()), Reason, sid)
    {
      hide Overrides, ReasonEnv;
      ApplyReasonEnv();
      ApplyEnvOverrides(sid, Reason);
    }

    /** Its loading half; `loads` is whether the plugin verifies and loads when it is asked to. */
    method ReloadReason(loads: bool) returns (ok: bool)
      requires Valid()
      modifies this`reasonInst, this`reasonFp, this`reasonFpValid
      ensures Valid() && (ok, View()) == Reload(hash, old(View()), Reason, loads)
    {
      hide Of;
      var fp := EnvFingerprint();
      if !reasonFpValid || fp != reasonFp {
        if !loads { return false; }
        reasonInst := Some(Instance(cfg.plugin, env));
        reasonFp := EnvFingerprint();
        reasonFpValid := true;
      }
      return true;
    }

    /** `reason_env_and_reload`. */
    method ReasonEnvAndReload(sid: nat, loads: bool) returns (ok: bool)
      requires Valid()
      modifies this, sessions, sessions.entries
      ensures Valid() && (ok, View()) == ReasonReload(hash, old(View()), sid, loads)
    {
      hide Publish, Reload, View;
      PublishReason(sid);
      ok := ReloadReason(loads);
    }

    method PublishEmbed(sid: nat)
      requires Valid() && cfg.embedUrl.Some?
      modifies this`env, sessions, sessions.entries
      ensures Valid() && View() == Publish(old(View()), Embed, sid)
    {
      hide Overrides, EmbedEnv;
      ApplyEmbedEnv();
      ApplyEnvOverrides(sid, Embed);
    }

    method ReloadEmbed(loads: bool) returns (ok: bool)
      requires Valid()
      modifies this`embedInst, this`embedFp, this`embedFpValid
      ensures Valid() && (ok, View()) == Reload(hash, old(View()), Embed, loads)
    {
      hide Of;
      var fp := EnvFingerprint();
      if !embedFpValid || fp != embedFp {
        if !loads { return false; }
        embedInst := Some(Instance(cfg.plugin, env));
        embedFp := EnvFingerprint();
        embedFpValid := true;
      }
      return true;
    }

    /** `embed_env_open`; the caller closes the bracket. */
    method EmbedEnvOpen(sid: nat, saved: array<Saved>, copies: seq<bool>, loads: bool) returns (ok: bool)
      requires Valid() && cfg.embedUrl.Some? && saved.Length == |VARS| == |copies|
      modifies this, sessions, sessions.entries, saved
      ensures Valid() && saved[..] == Save(old(env), copies)
      ensures (ok, View()) == EmbedOpen(hash, old(View()), sid, copies, loads)
    {
      hide Publish, Reload, Save, AllSaved, VARS;
      ok := EmbedEnvSave(saved, copies);
      if !ok { return; }
      hide View;
      PublishEmbed(sid);
      ok := ReloadEmbed(loads);
    }

    /** A reason call takes the lock, publishes and loads. */
    method BeginReason(sid: nat, loads: bool) returns (ok: bool)
      requires Valid() && Ready(View(), Begin(Reason, sid, [], loads))
      modifies this, sessions, sessions.entries
      ensures Valid() && View() == Step(hash, old(View()), Begin(Reason, sid, [], loads)).1
      ensures lock.Held? && ok == lock.ready
    {
      hide ReasonReload;
      ghost var at := sessions.View();
      ok := ReasonEnvAndReload(sid, loads);
      lock := Held(Reason, sid, at, ok, [], 0);
    }

    /** An embed call takes the lock, saves, publishes and loads. */
    method BeginEmbed(sid: nat, saved: array<Saved>, copies: seq<bool>, loads: bool) returns (ok: bool)
      requires Valid() && Ready(View(), Begin(Embed, sid, copies, loads)) && saved.Length == |VARS|
      modifies this, sessions, sessions.entries, saved
      ensures Valid() && View() == Step(hash, old(View()), Begin(Embed, sid, copies, loads)).1
      ensures lock.Held? && ok == lock.ready && saved[..] == lock.saved
    {
      hide EmbedOpen, Save;
      ghost var at := sessions.View();
      ok := EmbedEnvOpen(sid, saved, copies, loads);
      lock := Held(Embed, sid, at, ok, saved[..], 0);
    }

    /** `fsql_dispatch_ai` on the context of the tier that holds the lock. */
    method DispatchAi(tier: Tier) returns (outcome: Outcome)
      requires Valid() && Inv(hash, View()) && lock.Held? && lock.tier == tier && lock.ready && lock.next == 0
      ensures outcome == Step(hash, View(), Op.Dispatch).0 && outcome.Dispatched?
    {
      hide Inv, SetValue, Reset, Looked, BeginCall;
      ReadyToDispatch(hash, View());
      outcome := Dispatched(if tier == Reason then reasonInst.value else embedInst.value, env);
    }

    /** The end of the call. */
    method Unlock()
      requires Valid()
      modifies this`lock
      ensures Valid() && View() == old(View()).(lock := Free)
    {
      lock := Free;
    }

    /** What the thread that holds the lock does once it has tried to publish and load. */
    method DispatchIfReady(tier: Tier, ok: bool) returns (outcome: Outcome)
      requires Valid() && Inv(hash, View()) && lock.Held? && lock.tier == tier && lock.ready == ok && lock.next == 0
      ensures outcome == Step(hash, View(), Op.Dispatch).0
    {
      hide *;
      outcome := Silent;
      if ok {
        outcome := DispatchAi(tier);
      } else {
        NotDispatched(hash, View());
      }
    }

    /** The locked region of `fractal_reason`, when nobody comes between its steps. */
    method FractalReason(sid: nat, loads: bool) returns (outcome: Outcome)
      requires Valid() && Inv(hash, View()) && Ready(View(), Begin(Reason, sid, [], loads))
      modifies this, sessions, sessions.entries
      ensures Valid() && (outcome, View()) == Call(hash, old(View()), Begin(Reason, sid, [], loads))
    {
      hide *;
      ghost var was, begin := View(), Begin(Reason, sid, [], loads);
      StepInv(hash, was, begin);
      BeginSaves(hash, was, begin);
      CallIs(hash, was, begin);
      var ok := BeginReason(sid, loads);
      outcome := DispatchIfReady(Reason, ok);
      ReasonEnds(hash, View());
      Unlock();
    }

    /** The locked region of `fractal_embed`, likewise. */
    method FractalEmbed(sid: nat, copies: seq<bool>, loads: bool) returns (outcome: Outcome)
      requires Valid() && Inv(hash, View()) && Ready(View(), Begin(Embed, sid, copies, loads))
      modifies this, sessions, sessions.entries
      ensures Valid() && (outcome, View()) == Call(hash, old(View()), Begin(Embed, sid, copies, loads))
    {
      hide *;
      ghost var was, begin := View(), Begin(Embed, sid, copies, loads);
      StepInv(hash, was, begin);
      BeginSaves(hash, was, begin);
      CallIs(hash, was, begin);
      var saved := new Saved[|VARS|](_ => Absent);
      var ok := BeginEmbed(sid, saved, copies, loads);
      outcome := DispatchIfReady(Embed, ok);
      EmbedEnds(hash, View(), |VARS|);
      EmbedEnvRestore(saved);
      Unlock();
    }
  }

  lemma CallIs(h: Hash, w: World, begin: Op)
    requires begin.Begin? && Ready(w, begin)
    ensures var w1 := Step(h, w, begin).1;
      Call(h, w, begin)
      == (Step(h, w1, Op.Dispatch).0, Run(h, w1, Releases(if begin.tier == Embed then |VARS| + 1 else 1)))
  {
    hide Step, Run, Releases, VARS;
  }

  lemma ReadyToDispatch(h: Hash, w: World)
    requires Inv(h, w) && w.lock.Held? && w.lock.ready && w.lock.next == 0
    ensures Ready(w, Op.Dispatch)
  {
  }

  lemma NotDispatched(h: Hash, w: World)
    requires w.lock.Held? && !w.lock.ready
    ensures Step(h, w, Op.Dispatch).0 == Silent
  {
  }

  lemma BeginSaves(h: Hash, w: World, begin: Op)
    requires begin.Begin? && Ready(w, begin)
    ensures var l := Step(h, w, begin).1.lock;
      && l.Held? && l.tier == begin.tier && l.next == 0
      && l.saved == (if begin.tier == Reason then [] else Save(w.env, begin.copies))
  {
    hide ReasonReload, EmbedOpen, Save;
  }

  lemma BootKept(w: World, l: Legacy, memory: bool)
    ensures var (ok, w') := Capture(w, l, memory);
      (ok ==> w'.boot.Some?) && w' == w.(boot := w'.boot)
  {
    hide Captured;
  }

  lemma PutBackStep(h: Hash, w: World)
    requires w.lock.Held? && w.lock.next < |w.lock.saved| == |VARS|
    ensures Step(h, w, Release).1
         == w.(env := PutBack(w.env, VARS[w.lock.next], w.lock.saved[w.lock.next]),
               lock := w.lock.(next := w.lock.next + 1))
  {
    hide VARS, PutBack;
  }

  lemma RestoredStep(e: Env, saved: seq<Saved>, i: nat)
    requires |saved| == |VARS| && i <= |VARS|
    ensures i < |VARS| ==> Restored(e, saved, i) == Restored(PutBack(e, VARS[i], saved[i]), saved, i + 1)
    ensures i == |VARS| ==> Restored(e, saved, i) == e
  {
    hide VARS, PutBack;
  }

  lemma OverridesStep(t: Table, sid: nat, tier: Tier, e: Env, key: nat)
    requires key < KEY_COUNT
    ensures Overrides(t, sid, tier, e, key)
         == Overrides(LookedAt(t, sid, tier, key), sid, tier, Overridden(t, sid, tier, e, key), key + 1)
  {
  }

  lemma OverridesEnd(t: Table, sid: nat, tier: Tier, e: Env)
    ensures Overrides(t, sid, tier, e, KEY_COUNT) == (e, t)
  {
  }

  lemma {:induction false} FoldSplit(h: Hash, acc: nat, s: string, t: string)
    ensures Fold(h, acc, s + t) == Fold(h, Fold(h, acc, s), t)
    decreases |s|
  {
    if s == "" {
      assert s + t == t;
    } else {
      SeqFacts.Uncons(s, t);
      FoldSplit(h, h.step(acc, s[0]), s[1..], t);
    }
  }

  lemma FoldNothing(h: Hash, acc: nat)
    ensures Fold(h, acc, "") == acc
  {
  }
}
