/**
 What other threads can do to the process environment while a reason or embed call is under way. The
 text-to-SQL tiers share the environment with the tiers of src/fractalsql_cognition.c, but not their lock.
 */
module DispatchWindow {
  import opened Wrappers
  import opened ConfigKeys
  import opened Overlay
  import opened BridgeEnv
  import opened Fingerprint
  import opened Dispatch
  import SeqFacts

  // ----- what is written in between -----

  /** The environment after the writes of other tiers among the steps. */
  function Writes(e: Env, ops: seq<Op>): Env
    decreases |ops|
  {
    if ops == [] then e
    else Writes(if ops[0].OtherWrite? then Put(e, ops[0].v, ops[0].written) else e, ops[1..])
  }

  /** What another tier wrote last to a variable, if one did. */
  function LastWrite(ops: seq<Op>, v: Var): Option<Option<string>>
    decreases |ops|
  {
    if ops == [] then None
    else if LastWrite(ops[1..], v).Some? then LastWrite(ops[1..], v)
    else if ops[0].OtherWrite? && ops[0].v == v then Some(ops[0].written)
    else None
  }

  function OrElse(last: Option<Option<string>>, otherwise: Option<string>): Option<string> {
    if last.Some? then last.value else otherwise
  }

  lemma {:induction false} WritesRead(e: Env, ops: seq<Op>, v: Var)
    ensures Get(Writes(e, ops), v) == OrElse(LastWrite(ops, v), Get(e, v))
    decreases |ops|
  {
    if ops != [] {
      WritesRead(if ops[0].OtherWrite? then Put(e, ops[0].v, ops[0].written) else e, ops[1..], v);
    }
  }

  lemma LastWriteStep(ops: seq<Op>, v: Var)
    requires ops != []
    ensures LastWrite(ops, v)
         == if LastWrite(ops[1..], v).Some? then LastWrite(ops[1..], v)
            else if ops[0].OtherWrite? && ops[0].v == v then Some(ops[0].written) else None
  {
  }

  lemma {:induction false} LastWriteSplit(a: seq<Op>, b: seq<Op>, v: Var)
    ensures LastWrite(a + b, v) == if LastWrite(b, v).Some? then LastWrite(b, v) else LastWrite(a, v)
    decreases |a|
  {
    if a == [] {
      assert a + b == b;
    } else {
      SeqFacts.Uncons(a, b);
      LastWriteSplit(a[1..], b, v);
    }
  }

  /** No step gives up anything of the lock. */
  predicate StaysOpen(ops: seq<Op>) {
    forall i :: 0 <= i < |ops| ==> !ops[i].Release?
  }

  /** While a call holds the lock, only the environment and the overlay can change. */
  lemma {:induction false} WhileHeld(h: Hash, w: World, ops: seq<Op>)
    requires w.lock.Held? && StaysOpen(ops)
    ensures var w' := Run(h, w, ops); w' == w.(env := Writes(w.env, ops), table := w'.table)
    decreases |ops|
  {
    if ops != [] {
      StepWhileHeld(h, w, ops[0]);
      hide Step;
      WhileHeld(h, Step(h, w, ops[0]).1, ops[1..]);
    }
  }

  lemma StepWhileHeld(h: Hash, w: World, op: Op)
    requires w.lock.Held? && !op.Release?
    ensures var w' := Step(h, w, op).1;
      w' == w.(env := if op.OtherWrite? then Put(w.env, op.v, op.written) else w.env, table := w'.table)
  {
    hide SetValue, Reset, Looked, Put, KEYS;
  }

  // ----- the environment at a dispatch -----

  /** The call that `begin` starts, after the steps in between, with its lock still held. */
  function Window(h: Hash, w: World, begin: Op, between: seq<Op>): World {
    Run(h, Step(h, w, begin).1, between)
  }

  predicate Opens(w: World, begin: Op, between: seq<Op>) {
    begin.Begin? && Ready(w, begin) && StaysOpen(between)
  }

  lemma BeginStep(h: Hash, w: World, begin: Op)
    requires begin.Begin? && Ready(w, begin)
    ensures Step(h, w, begin).1 == BeginCall(h, w, begin.tier, begin.sid, begin.copies, begin.loads)
  {
    hide BeginCall;
  }

  lemma CallBegins(h: Hash, w: World, begin: Op)
    requires Inv(h, w) && begin.Begin? && Ready(w, begin)
    ensures var w' := Step(h, w, begin).1;
      && Inv(h, w')
      && Begun(h, w, w', begin.tier, begin.sid, if begin.tier == Reason then [] else Save(w.env, begin.copies))
      && (begin.tier == Embed && !AllSaved(Save(w.env, begin.copies)) ==> w'.env == w.env && !w'.lock.ready)
  {
    BeginStep(h, w, begin);
    hide Inv, BeginCall, Begun, Step, Save, AllSaved;
    if begin.tier == Reason {
      ReasonBegins(h, w, begin.sid, begin.copies, begin.loads);
    } else {
      EmbedBegins(h, w, begin.sid, begin.copies, begin.loads);
    }
  }

  /** A dispatch finds what its call has published, overwritten by what other tiers have written since. */
  lemma EnvironmentAtDispatch(h: Hash, w: World, begin: Op, between: seq<Op>, d: Outcome)
    requires Inv(h, w) && Opens(w, begin, between)
    requires d == Step(h, Window(h, w, begin, between), Op.Dispatch).0 && d.Dispatched?
    ensures d.env == Writes(EffectiveEnv(w.cfg, w.table, begin.sid, begin.tier), between)
  {
    hide Inv, Save, AllSaved, Writes, EffectiveEnv, Run;
    CallBegins(h, w, begin);
    WhileHeld(h, Step(h, w, begin).1, between);
  }

  /**
   That is the call's own environment exactly when no other tier has left a different value in some
   variable since the call published.
   */
  lemma OwnEnvironmentIff(h: Hash, w: World, begin: Op, between: seq<Op>, d: Outcome)
    requires Inv(h, w) && Opens(w, begin, between)
    requires d == Step(h, Window(h, w, begin, between), Op.Dispatch).0 && d.Dispatched?
    ensures (forall v :: Get(d.env, v) == Effective(w.cfg, w.table, begin.sid, begin.tier, v))
       <==> (forall v :: LastWrite(between, v).Some? ==>
               LastWrite(between, v).value == Effective(w.cfg, w.table, begin.sid, begin.tier, v))
  {
    EnvironmentAtDispatch(h, w, begin, between, d);
    hide Inv, Opens, Step, Window, Writes, LastWrite, Effective, EffectiveEnv;
    forall v
      ensures Get(d.env, v) == OrElse(LastWrite(between, v), Effective(w.cfg, w.table, begin.sid, begin.tier, v))
    {
      WritesRead(EffectiveEnv(w.cfg, w.table, begin.sid, begin.tier), between, v);
      EffectiveEnvReads(w.cfg, w.table, begin.sid, begin.tier, v);
    }
  }

  // ----- a text-to-SQL call in the window -----

  /** `apply_generate_env_locked`, or `apply_review_env_locked`, with the configuration of its own file. */
  function TextToSql(c: Config, generate: bool, tag: Option<string>): seq<Op> {
    [OtherWrite(Url, c.url), OtherWrite(Token, c.token), OtherWrite(Model, c.model),
     OtherWrite(AllowPlaintext, Bit(c.plaintext)), OtherWrite(Think, c.think),
     OtherWrite(ThinkProvider, c.thinkProvider), OtherWrite(NativeUrl, c.nativeUrl), OtherWrite(NumCtx, c.numCtx),
     OtherWrite(Mode, None), OtherWrite(ResponseMode, if generate then Some("code") else None),
     OtherWrite(SystemTag, if generate && tag != Some("") then tag else None)]
  }

  lemma TextToSqlWrites(c: Config, generate: bool, tag: Option<string>)
    ensures LastWrite(TextToSql(c, generate, tag), Mode) == Some(None)
    ensures LastWrite(TextToSql(c, generate, tag), ResponseMode) == Some(if generate then Some("code") else None)
  {
    var ops := TextToSql(c, generate, tag);
    var head, mode, code, tag' := ops[..8], [ops[8]], [ops[9]], [ops[10]];
    assert ops == head + mode + code + tag';
    forall v
      ensures LastWrite(mode, v) == (if v == Mode then Some(None) else None)
      ensures LastWrite(code, v) == (if v == ResponseMode then Some(ops[9].written) else None)
      ensures LastWrite(tag', v) == (if v == SystemTag then Some(ops[10].written) else None)
    {
      LastWriteStep(mode, v);
      LastWriteStep(code, v);
      LastWriteStep(tag', v);
    }
    hide LastWrite;
    forall v | v == Mode || v == ResponseMode
      ensures LastWrite(ops, v) == if v == Mode then Some(None) else Some(ops[9].written)
    {
      LastWriteSplit(head + mode + code, tag', v);
      LastWriteSplit(head + mode, code, v);
      LastWriteSplit(head, mode, v);
    }
  }

  lemma LastIsTextToSql(before: seq<Op>, c: Config, generate: bool, tag: Option<string>, after: seq<Op>, v: Var)
    requires LastWrite(after, v).None? && (v == Mode || v == ResponseMode)
    ensures LastWrite(before + TextToSql(c, generate, tag) + after, v)
         == Some(if v == ResponseMode && generate then Some("code") else None)
  {
    TextToSqlWrites(c, generate, tag);
    hide TextToSql, LastWrite;
    LastWriteSplit(before + TextToSql(c, generate, tag), after, v);
    LastWriteSplit(before, TextToSql(c, generate, tag), v);
  }

  /**
   An embedding request that a text-to-SQL publish comes before finds a chat environment, whatever the
   two configurations are: the comment on the embed bracket is wrong about this.
   */
  lemma TextToSqlSpoilsEmbed(h: Hash, w: World, begin: Op, between: seq<Op>, d: Outcome,
                             before: seq<Op>, c: Config, generate: bool, tag: Option<string>, after: seq<Op>)
    requires Inv(h, w) && Opens(w, begin, between) && begin.tier == Embed
    requires d == Step(h, Window(h, w, begin, between), Op.Dispatch).0 && d.Dispatched?
    requires between == before + TextToSql(c, generate, tag) + after && LastWrite(after, Mode).None?
    ensures Get(d.env, Mode) == None && Effective(w.cfg, w.table, begin.sid, Embed, Mode) == Some("embedding")
  {
    var wanted := EffectiveEnv(w.cfg, w.table, begin.sid, begin.tier);
    hide *;
    LastIsTextToSql(before, c, generate, tag, after, Mode);
    EnvironmentAtDispatch(h, w, begin, between, d);
    WritesRead(wanted, between, Mode);
    TiersDiffer(w.cfg, w.table, begin.sid);
    LastReads(LastWrite(between, Mode), Get(wanted, Mode));
  }

  lemma LastReads(last: Option<Option<string>>, otherwise: Option<string>)
    ensures last.Some? ==> OrElse(last, otherwise) == last.value
  {
  }

  lemma TiersDiffer(c: Config, t: Table, sid: nat)
    ensures Effective(c, t, sid, Embed, Mode) == Some("embedding")
    ensures Effective(c, t, sid, Reason, ResponseMode) == c.responseMode
  {
  }

  /** A reason request behind a generate publish has its response mode exactly when the operator asks for "code" too. */
  lemma GenerateSpoilsReason(h: Hash, w: World, begin: Op, between: seq<Op>, d: Outcome,
                             before: seq<Op>, c: Config, tag: Option<string>, after: seq<Op>)
    requires Inv(h, w) && Opens(w, begin, between) && begin.tier == Reason
    requires d == Step(h, Window(h, w, begin, between), Op.Dispatch).0 && d.Dispatched?
    requires between == before + TextToSql(c, true, tag) + after && LastWrite(after, ResponseMode).None?
    ensures Get(d.env, ResponseMode) == Some("code")
    ensures Get(d.env, ResponseMode) == Effective(w.cfg, w.table, begin.sid, Reason, ResponseMode)
       <==> w.cfg.responseMode == Some("code")
  {
    var wanted := EffectiveEnv(w.cfg, w.table, begin.sid, begin.tier);
    hide *;
    LastIsTextToSql(before, c, true, tag, after, ResponseMode);
    EnvironmentAtDispatch(h, w, begin, between, d);
    WritesRead(wanted, between, ResponseMode);
    TiersDiffer(w.cfg, w.table, begin.sid);
    LastReads(LastWrite(between, ResponseMode), Get(wanted, ResponseMode));
  }

  // ----- what a call leaves behind -----

  function Releases(n: nat): (ops: seq<Op>)
    ensures |ops| == n
  {
    if n == 0 then [] else [Release] + Releases(n - 1)
  }

  /** The end of a reason call. */
  lemma ReasonEnds(h: Hash, w: World)
    requires w.lock.Held? && w.lock.saved == []
    ensures Run(h, w, Releases(1)) == w.(lock := Free)
  {
    assert Releases(1) == [Release] && [Release][1..] == [];
  }

  /** The end of an embed call that no other write comes into is `embed_env_restore`. */
  lemma {:induction false} EmbedEnds(h: Hash, w: World, n: nat)
    requires w.lock.Held? && |w.lock.saved| == |VARS| && w.lock.next + n == |VARS|
    ensures Run(h, w, Releases(n + 1)) == w.(env := Restored(w.env, w.lock.saved, w.lock.next), lock := Free)
    decreases n
  {
    var ops := Releases(n + 1);
    assert ops[0] == Release && ops[1..] == Releases(n);
    hide VARS, PutBack;
    if n == 0 {
      assert Step(h, w, Release).1 == w.(lock := Free);
    } else {
      EmbedEnds(h, Step(h, w, Release).1, n - 1);
    }
  }

  /** A whole call that nobody comes between: begin, dispatch, release. */
  function Call(h: Hash, w: World, begin: Op): (Outcome, World)
    requires begin.Begin? && Ready(w, begin)
  {
    var w1 := Step(h, w, begin).1;
    (Step(h, w1, Op.Dispatch).0, Run(h, w1, Releases(if begin.tier == Embed then |VARS| + 1 else 1)))
  }

  /** Both parts of what a bracket leaves, once the environment it closes over is known. */
  lemma Closed(was: Env, e: Env, copies: seq<bool>)
    requires |copies| == |VARS|
    ensures AllSaved(Save(was, copies)) ==> Restored(e, Save(was, copies), 0) == was
    ensures e == was ==> Restored(e, Save(was, copies), 0) == was
  {
    hide Save, Restored, AllSaved;
    if AllSaved(Save(was, copies)) {
      BracketRestores(was, e, copies);
    }
    if e == was {
      FailedBracketRestores(was, copies);
    }
  }

  lemma {:induction false} NothingWritten(e: Env, ops: seq<Op>)
    requires forall i :: 0 <= i < |ops| ==> !ops[i].OtherWrite?
    ensures Writes(e, ops) == e
    decreases |ops|
  {
    if ops != [] {
      NothingWritten(e, ops[1..]);
    }
  }

  /**
   An embed call that no other tier's write comes into while it closes leaves the environment as it found
   it: whatever was published in its bracket when every copy was taken, and otherwise, when nothing was.
   */
  lemma EmbedLeavesEnv(h: Hash, w: World, begin: Op, between: seq<Op>)
    requires Inv(h, w) && Opens(w, begin, between) && begin.tier == Embed
    ensures var end := Run(h, Window(h, w, begin, between), Releases(|VARS| + 1));
      && end.lock.Free?
      && (AllSaved(Save(w.env, begin.copies)) || (forall i :: 0 <= i < |between| ==> !between[i].OtherWrite?)
          ==> end.env == w.env)
  {
    hide Inv, Save, AllSaved, Writes, Restored, Run, Step, VARS;
    CallBegins(h, w, begin);
    var w1 := Step(h, w, begin).1;
    WhileHeld(h, w1, between);
    EmbedEnds(h, Window(h, w, begin, between), |VARS|);
    Closed(w.env, Writes(w1.env, between), begin.copies);
    if forall i :: 0 <= i < |between| ==> !between[i].OtherWrite? {
      NothingWritten(w1.env, between);
    }
  }

  /** So what another tier writes into the bracket is lost, unless it is what had been there before. */
  lemma BracketLosesWrites(h: Hash, w: World, begin: Op, between: seq<Op>, v: Var)
    requires Inv(h, w) && Opens(w, begin, between) && begin.tier == Embed
    requires AllSaved(Save(w.env, begin.copies)) && LastWrite(between, v).Some?
    ensures var end := Run(h, Window(h, w, begin, between), Releases(|VARS| + 1));
      Get(end.env, v) == LastWrite(between, v).value <==> LastWrite(between, v).value == Get(w.env, v)
  {
    hide Inv, Save, AllSaved, Run, Step, VARS, LastWrite, Window;
    EmbedLeavesEnv(h, w, begin, between);
  }

  predicate NoBegin(ops: seq<Op>) {
    forall i :: 0 <= i < |ops| ==> !ops[i].Begin?
  }

  /** The place of the variable has been put back, or the call is over. */
  predicate IsBack(w: World, v: Var) {
    w.lock.Held? ==> |w.lock.saved| == |VARS| && exists j :: 0 <= j < |VARS| && j < w.lock.next && VARS[j] == v
  }

  /**
   While the bracket closes no environment lock is held, so other writes may come into the middle of it. A
   variable ends as it was put back exactly when no other tier has left another value in it after that.
   */
  lemma {:induction false} LateWriteStays(h: Hash, w: World, ops: seq<Op>, v: Var)
    requires IsBack(w, v) && NoBegin(ops)
    ensures Get(Run(h, w, ops).env, v) == OrElse(LastWrite(ops, v), Get(w.env, v))
    decreases |ops|
  {
    if ops != [] {
      LateStep(h, w, ops[0], v);
      hide Step, IsBack, LastWrite;
      LateWriteStays(h, Step(h, w, ops[0]).1, ops[1..], v);
      LastWriteStep(ops, v);
    } else {
      assert LastWrite(ops, v) == None;
    }
  }

  lemma LateRelease(w: World, v: Var)
    requires w.lock.Held? && IsBack(w, v)
    ensures IsBack(ReleaseStep(w), v) && Get(ReleaseStep(w).env, v) == Get(w.env, v)
  {
    hide VARS, Get, PutBack;
    VarsDiffer();
    var i := w.lock.next;
    if i < |w.lock.saved| && i < |VARS| && VARS[i] != v {
      PutBackElsewhere(w.env, VARS[i], w.lock.saved[i], v);
    }
  }

  lemma PutBackElsewhere(e: Env, a: Var, s: Saved, v: Var)
    requires a != v
    ensures Get(PutBack(e, a, s), v) == Get(e, v)
  {
    hide Get, Put;
  }

  lemma LateStep(h: Hash, w: World, op: Op, v: Var)
    requires IsBack(w, v) && !op.Begin?
    ensures var w' := Step(h, w, op).1;
      IsBack(w', v) && Get(w'.env, v) == if op.OtherWrite? && op.v == v then op.written else Get(w.env, v)
  {
    hide VARS, SetValue, Reset, Looked, KEYS, Captured, Provided, Get, Put, ReleaseStep;
    if op.Release? && w.lock.Held? {
      LateRelease(w, v);
    }
  }
}
