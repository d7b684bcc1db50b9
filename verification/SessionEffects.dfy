/**
 What each call of the registry does to each session, read by lookup and written out field by field, and
 when a session can disappear at all.
 */
module SessionEffects {
  import opened Wrappers
  import opened SessionModel
  import opened SessionProtocol
  import opened SeqFacts

  /** Nobody holds the session. */
  predicate Idle(o: Option<Session>) {
    o.Some? && o.value.refcount == 0 && !o.value.busy
  }

  // ----- the sweep -----

  lemma IndexWithout(v: Sessions, k: nat, id: nat)
    requires Unique(v) && k < |v| && id != v[k].id
    ensures Index(Without(v, k), id) == if Index(v, id) < k then Index(v, id) else Index(v, id) - 1
  {
    var w := Without(v, k);
    assert forall j :: 0 <= j < |w| ==> w[j] == v[if j < k then j else j + 1];
    WithoutUnique(v, k);
    var i := Index(v, id);
    if i < |v| {
      LookupAt(w, if i < k then i else i - 1);
    }
  }

  lemma SweepAtReads(v: Sessions, k: nat, now: int, id: nat)
    requires Unique(v) && k < |v|
    ensures var w := SweepAt(v, k, now);
      && Unique(w)
      && (Idle(Lookup(v, id)) && Index(v, id) == k && now - Lookup(v, id).value.lastUsed >= 21600
          ==> Lookup(w, id).None? && Index(w, id) == |w|)
      && (!(Idle(Lookup(v, id)) && Index(v, id) == k && now - Lookup(v, id).value.lastUsed >= 21600)
          ==> Lookup(w, id) == Lookup(v, id) && (Index(v, id) < k <==> Index(w, id) < k)
              && (Index(v, id) < k ==> Index(w, id) == Index(v, id)))
  {
    hide Without;
    LookupAt(v, k);
    if Stale(v[k], now) {
      WithoutUnique(v, k);
      if id != v[k].id {
        IndexWithout(v, k, id);
      }
    }
  }

  lemma {:induction false} SweepReads(v: Sessions, i: nat, limit: nat, now: int, id: nat)
    requires Unique(v) && i <= |v|
    ensures var w := Sweep(v, i, limit, now);
      && Unique(w)
      && Lookup(w, id)
         == if Idle(Lookup(v, id)) && Index(v, id) < i <= Index(v, id) + limit
               && now - Lookup(v, id).value.lastUsed >= 21600
            then None else Lookup(v, id)
    decreases i
  {
    hide Sweep, SweepAt, Idle, Lookup, Index;
    SweepSteps(v, i, limit, now);
    if i > 0 && limit > 0 {
      SweepAtReads(v, i - 1, now, id);
      SweepReads(SweepAt(v, i - 1, now), i - 1, limit - 1, now, id);
    }
  }

  /**
   A sweep forgets exactly the sessions among the eight least recently used places that nobody holds and
   that have been idle for six hours.
   */
  lemma SweptReads(v: Sessions, now: int, id: nat)
    requires Unique(v)
    ensures Unique(Swept(v, now)) && |Swept(v, now)| <= |v|
    ensures Lookup(Swept(v, now), id)
         == if Idle(Lookup(v, id)) && Index(v, id) + 8 >= |v| && now - Lookup(v, id).value.lastUsed >= 21600
            then None else Lookup(v, id)
  {
    SweepReads(v, |v|, SCAN_LIMIT, now, id);
  }

  // ----- making room -----

  /** The session that has to go when a full table takes in a new one: the one nearest to the old end. */
  ghost predicate IsOldestIdle(v: Sessions, id: nat) {
    Idle(Lookup(v, id)) && forall i :: 0 <= i < |v| && v[i].refcount == 0 && !v[i].busy ==> i <= Index(v, id)
  }

  predicate AllHeld(v: Sessions) {
    forall i :: 0 <= i < |v| ==> v[i].refcount != 0 || v[i].busy
  }

  lemma EvictedReads(v: Sessions, other: nat) returns (gone: Option<nat>)
    requires Unique(v)
    ensures gone.Some? <==> Evicted(v).Some?
    ensures gone.None? <==> AllHeld(v)
    ensures gone.Some? ==> IsOldestIdle(v, gone.value) && Unique(Evicted(v).value) && |Evicted(v).value| == |v| - 1
    ensures gone.Some? ==> Lookup(Evicted(v).value, other) == if other == gone.value then None else Lookup(v, other)
  {
    var k := LastUnpinned(v, |v|);
    gone := None;
    if k >= 0 {
      gone := Some(v[k].id);
      LookupAt(v, k);
      WithoutUnique(v, k);
    }
  }

  /**
   `find_or_create_entry_locked` on every session. A session it finds costs no other. With a place free a new
   one costs no other either. A full table gives up exactly one session for it, the idle one nearest to the
   old end, and that before the allocation is tried; when every session is held nothing happens.
   */
  lemma FindOrCreateReads(v: Sessions, id: nat, now: int, memory: bool, other: nat) returns (gone: Option<nat>)
    requires Unique(v) && |v| <= 4096
    ensures gone.Some? <==> Lookup(v, id).None? && |v| == 4096 && !AllHeld(v)
    ensures gone.Some? ==> IsOldestIdle(v, gone.value)
    ensures var (ok, w) := FindOrCreate(v, id, now, memory);
      && Unique(w) && |w| <= 4096
      && (ok <==> Lookup(v, id).Some? || (memory && (|v| < 4096 || gone.Some?)))
      && (other != id ==> Lookup(w, other) == if gone == Some(other) then None else Lookup(v, other))
      && Lookup(w, id) == (if Lookup(v, id).Some? then
                             var e := Lookup(v, id).value;
                             Some(Session(id, e.ctx, e.refcount + 1, e.busy, e.shared, now, e.partial, e.diversify))
                           else if ok then Some(Session(id, None, 1, false, 0, now, false, false))
                           else None)
      && (ok ==> Lookup(w, id) == Some(w[0]))
  {
    var k := Index(v, id);
    gone := None;
    FoundOrCreated(v, id, now, memory);
    if k < |v| {
      LookupAt(v, k);
      WithoutUnique(v, k);
      Fronted(Without(v, k), Used(v[k], now));
    } else if |v| >= 4096 {
      gone := EvictedReads(v, other);
      var _ := EvictedReads(v, id);
      if gone.Some? && memory {
        Fronted(Evicted(v).value, NewSession(id, now));
      }
    } else if memory {
      Fronted(v, NewSession(id, now));
    }
  }

  // ----- the acquires -----

  /** The session as an acquire finds it, or as it would be made. */
  function Blank(v: Sessions, id: nat, now: int): Session {
    if Lookup(v, id).Some? then Lookup(v, id).value else Session(id, None, 0, false, 0, now, false, false)
  }

  /**
   `fractal_session_acquire` on every session: first the sweep; then an exclusive hold turns it away; then
   room is made; and the holder gets the session's context, or a new one when it has none.
   */
  lemma AcquireReads(v: Sessions, id: nat, now: int, memory: bool, newCtx: Option<nat>, other: nat)
    returns (gone: Option<nat>)
    requires Unique(v) && |v| <= 4096
    ensures var v1 := Swept(v, now);
      var (ctx, w) := Acquire(v, id, now, memory, newCtx);
      var e := Blank(v1, id, now);
      var c := if e.ctx.Some? then e.ctx else newCtx;
      && (gone.Some? <==> Lookup(v1, id).None? && |v1| == 4096 && !AllHeld(v1))
      && (gone.Some? ==> IsOldestIdle(v1, gone.value))
      && (other != id ==> Lookup(w, other) == if gone == Some(other) then None else Lookup(v1, other))
      && if e.busy then ctx == None && Lookup(w, id) == Lookup(v1, id)
         else if Lookup(v1, id).None? && (!memory || (|v1| == 4096 && gone.None?)) then
           ctx == None && Lookup(w, id) == None
         else if c.None? then ctx == None && Lookup(w, id) == Some(e.(lastUsed := now))
         else
           ctx == c
           && Lookup(w, id) == Some(Session(id, c, e.refcount + 1, false, e.shared + 1, now, e.partial, e.diversify))
  {
    hide Swept, FindOrCreate;
    var v1 := Swept(v, now);
    SweptReads(v, now, id);
    gone := FindOrCreateReads(v1, id, now, memory, other);
    var (ok, v2) := FindOrCreate(v1, id, now, memory);
    if !Blank(v1, id, now).busy && ok {
      Replaced(v2, 0, Shared(v2[0], newCtx));
    }
  }

  /** `fractal_session_acquire_exclusive`, which any hold of the session turns away. */
  lemma ExclusiveReads(v: Sessions, id: nat, now: int, memory: bool, newCtx: Option<nat>, other: nat)
    returns (gone: Option<nat>)
    requires Unique(v) && |v| <= 4096
    ensures var v1 := Swept(v, now);
      var (r, w) := AcquireExclusive(v, id, now, memory, newCtx);
      var e := Blank(v1, id, now);
      var c := if e.ctx.Some? then e.ctx else newCtx;
      && (gone.Some? <==> Lookup(v1, id).None? && |v1| == 4096 && !AllHeld(v1))
      && (gone.Some? ==> IsOldestIdle(v1, gone.value))
      && (other != id ==> Lookup(w, other) == if gone == Some(other) then None else Lookup(v1, other))
      && if e.busy || e.shared > 0 then r == Busy && Lookup(w, id) == Lookup(v1, id)
         else if Lookup(v1, id).None? && (!memory || (|v1| == 4096 && gone.None?)) then
           r == Unavailable && Lookup(w, id) == None
         else if c.None? then r == Unavailable && Lookup(w, id) == Some(e.(lastUsed := now))
         else r == Granted(c.value)
              && Lookup(w, id) == Some(Session(id, c, e.refcount + 1, true, 0, now, e.partial, e.diversify))
  {
    hide Swept, FindOrCreate;
    var v1 := Swept(v, now);
    SweptReads(v, now, id);
    gone := FindOrCreateReads(v1, id, now, memory, other);
    var (ok, v2) := FindOrCreate(v1, id, now, memory);
    if !Blank(v1, id, now).busy && Blank(v1, id, now).shared == 0 && ok {
      Replaced(v2, 0, Taken(v2[0], newCtx));
    }
  }

  // ----- releases and flags -----

  /** `fractal_session_release` takes one off both counters, neither below zero, and touches nothing else. */
  lemma ReleaseReads(v: Sessions, id: nat, other: nat)
    requires Unique(v)
    ensures Unique(Release(v, id))
    ensures other != id ==> Lookup(Release(v, id), other) == Lookup(v, other)
    ensures Lookup(Release(v, id), id)
         == if Lookup(v, id).None? then None
            else
              var e := Lookup(v, id).value;
              Some(Session(id, e.ctx, if e.refcount == 0 then 0 else e.refcount - 1, e.busy,
                           if e.shared == 0 then 0 else e.shared - 1, e.lastUsed, e.partial, e.diversify))
  {
    var k := Index(v, id);
    if k < |v| {
      Replaced(v, k, Released(v[k]));
    }
  }

  /** `fractal_session_release_exclusive` ends the exclusive hold. */
  lemma ReleaseExclusiveReads(v: Sessions, id: nat, other: nat)
    requires Unique(v)
    ensures Unique(ReleaseExclusive(v, id))
    ensures other != id ==> Lookup(ReleaseExclusive(v, id), other) == Lookup(v, other)
    ensures Lookup(ReleaseExclusive(v, id), id)
         == if Lookup(v, id).None? then None
            else
              var e := Lookup(v, id).value;
              Some(Session(id, e.ctx, if e.refcount == 0 then 0 else e.refcount - 1, false,
                           e.shared, e.lastUsed, e.partial, e.diversify))
  {
    var k := Index(v, id);
    if k < |v| {
      Replaced(v, k, Unref(v[k].(busy := false)));
    }
  }

  /** What `fractal_session_get_agent_partial` and `fractal_session_get_diversify_enabled` answer. */
  function PartialOf(v: Sessions, id: nat): bool {
    Lookup(v, id).Some? && Lookup(v, id).value.partial
  }

  function DiversifyOf(v: Sessions, id: nat): bool {
    Lookup(v, id).Some? && Lookup(v, id).value.diversify
  }

  /** The entry that a flag is written to, when there is one: made if need be, and then held by nobody. */
  lemma EnsureReads(v: Sessions, id: nat, now: int, memory: bool, other: nat) returns (gone: Option<nat>)
    requires Unique(v) && |v| <= 4096
    ensures gone.Some? <==> Lookup(v, id).None? && |v| == 4096 && !AllHeld(v)
    ensures gone.Some? ==> IsOldestIdle(v, gone.value)
    ensures var w := Ensure(v, id, now, memory);
      && Unique(w)
      && (other != id ==> Lookup(w, other) == if gone == Some(other) then None else Lookup(v, other))
      && Lookup(w, id) == (if Lookup(v, id).Some? then Lookup(v, id)
                           else if memory && (|v| < 4096 || gone.Some?) then
                             Some(Session(id, None, 0, false, 0, now, false, false))
                           else None)
  {
    hide FindOrCreate;
    gone := None;
    if !Has(v, id) {
      gone := FindOrCreateReads(v, id, now, memory, other);
      var (ok, w) := FindOrCreate(v, id, now, memory);
      if ok {
        Replaced(w, 0, Unref(w[0]));
      }
    }
  }

  /** A flag that was written is read back, and no other field of any session changes by that. */
  lemma PartialReads(v: Sessions, id: nat, on: bool, now: int, memory: bool, other: nat) returns (gone: Option<nat>)
    requires Unique(v) && |v| <= 4096
    ensures gone.Some? <==> Lookup(v, id).None? && |v| == 4096 && !AllHeld(v)
    ensures gone.Some? ==> IsOldestIdle(v, gone.value)
    ensures var w := SetPartial(v, id, on, now, memory);
      && (other != id ==> Lookup(w, other) == if gone == Some(other) then None else Lookup(v, other))
      && (Lookup(w, id).Some? <==> Lookup(v, id).Some? || (memory && (|v| < 4096 || gone.Some?)))
      && (Lookup(w, id).Some? ==> PartialOf(w, id) == on && DiversifyOf(w, id) == DiversifyOf(v, id))
      && (Lookup(v, id).Some? ==> Lookup(w, id).value == Lookup(v, id).value.(partial := on))
      && (Lookup(v, id).None? && Lookup(w, id).Some? ==> Idle(Lookup(w, id)) && Lookup(w, id).value.lastUsed == now)
  {
    hide Ensure;
    gone := EnsureReads(v, id, now, memory, other);
    var w := Ensure(v, id, now, memory);
    var k := Index(w, id);
    if k < |w| {
      Replaced(w, k, w[k].(partial := on));
    }
  }

  lemma DiversifyReads(v: Sessions, id: nat, on: bool, now: int, memory: bool, other: nat) returns (gone: Option<nat>)
    requires Unique(v) && |v| <= 4096
    ensures gone.Some? <==> Lookup(v, id).None? && |v| == 4096 && !AllHeld(v)
    ensures gone.Some? ==> IsOldestIdle(v, gone.value)
    ensures var w := SetDiversify(v, id, on, now, memory);
      && (other != id ==> Lookup(w, other) == if gone == Some(other) then None else Lookup(v, other))
      && (Lookup(w, id).Some? <==> Lookup(v, id).Some? || (memory && (|v| < 4096 || gone.Some?)))
      && (Lookup(w, id).Some? ==> DiversifyOf(w, id) == on && PartialOf(w, id) == PartialOf(v, id))
      && (Lookup(v, id).Some? ==> Lookup(w, id).value == Lookup(v, id).value.(diversify := on))
      && (Lookup(v, id).None? && Lookup(w, id).Some? ==> Idle(Lookup(w, id)) && Lookup(w, id).value.lastUsed == now)
  {
    hide Ensure;
    gone := EnsureReads(v, id, now, memory, other);
    var w := Ensure(v, id, now, memory);
    var k := Index(w, id);
    if k < |w| {
      Replaced(w, k, w[k].(diversify := on));
    }
  }

  // ----- how a session can disappear -----

  /** The table an event makes room in: the acquires sweep it first. */
  function Cleared(v: Sessions, ev: Event): Sessions {
    match ev
    case PlainAcquire(_, now, _, _) => Swept(v, now)
    case ExclusiveAcquire(_, now, _, _) => Swept(v, now)
    case _ => v
  }

  /** The new session an event may have to make room for. */
  function Newcomer(v: Sessions, ev: Event): Option<nat> {
    match ev
    case GiveBack(_) => None
    case CloseId(_) => None
    case _ => if Lookup(Cleared(v, ev), ev.id).None? then Some(ev.id) else None
  }

  lemma StepForgets(w: World, ev: Event, other: nat) returns (gone: Option<nat>)
    requires Unique(w.v) && |w.v| <= 4096
    requires !ev.CloseId? && (ev.GiveBack? || ev.id != other)
    ensures gone.Some? ==>
      Newcomer(w.v, ev).Some? && |Cleared(w.v, ev)| == 4096 && IsOldestIdle(Cleared(w.v, ev), gone.value)
    ensures Lookup(Step(w, ev).v, other).None? <==> Lookup(Cleared(w.v, ev), other).None? || gone == Some(other)
  {
    hide Acquire, AcquireExclusive, SetPartial, SetDiversify, Release, ReleaseExclusive, Swept, IsOldestIdle, Lookup;
    gone := None;
    match ev
    case PlainAcquire(id, now, memory, newCtx) => gone := AcquireReads(w.v, id, now, memory, newCtx, other);
    case ExclusiveAcquire(id, now, memory, newCtx) => gone := ExclusiveReads(w.v, id, now, memory, newCtx, other);
    case WritePartial(id, on, now, memory) => gone := PartialReads(w.v, id, on, now, memory, other);
    case WriteDiversify(id, on, now, memory) => gone := DiversifyReads(w.v, id, on, now, memory, other);
    case GiveBack(i) =>
      if i < |w.holds| {
        SameThere(w.v, w.holds[i].id, other);
      }
  }

  lemma SameThere(v: Sessions, id: nat, other: nat)
    requires Unique(v)
    ensures Lookup(Release(v, id), other).None? <==> Lookup(v, other).None?
    ensures Lookup(ReleaseExclusive(v, id), other).None? <==> Lookup(v, other).None?
  {
    hide Release, ReleaseExclusive, Lookup;
    ReleaseReads(v, id, other);
    ReleaseExclusiveReads(v, id, other);
  }

  /** What an event can make another session go for. */
  ghost predicate MayGo(v: Sessions, ev: Event, now: int, other: nat)
    requires Lookup(v, other).Some?
  {
    var e := Lookup(v, other).value;
    && e.refcount == 0 && !e.busy
    && (|| now - e.lastUsed >= 21600
        || (Newcomer(v, ev).Some? && |Cleared(v, ev)| == 4096
            && forall id :: Idle(Lookup(Cleared(v, ev), id)) ==> e.lastUsed <= Lookup(Cleared(v, ev), id).value.lastUsed))
  }

  lemma OldestIsLeastUsed(v: Sessions, gone: nat, now: int)
    requires Unique(v) && Ordered(v, now) && IsOldestIdle(v, gone)
    ensures forall id :: Idle(Lookup(v, id)) ==> Lookup(v, gone).value.lastUsed <= Lookup(v, id).value.lastUsed
  {
  }

  /**
   Over every run under a clock that does not run backwards: an event about one session makes another one
   go only if nobody holds that one, and either it has been idle for six hours, or 4096 sessions are left
   after the sweep, a new one has to be taken in, and no session that nobody holds was used less recently.
   */
  lemma GoesOnlyWhen(evs: seq<Event>, last: int, ev: Event, other: nat) returns (now: int)
    requires ClockMonotone(last, evs + [ev])
    requires !ev.CloseId? && (ev.GiveBack? || ev.id != other)
    ensures !ev.GiveBack? ==> now == ev.now
    ensures var w := Run(START, evs);
      Lookup(w.v, other).Some? && Lookup(Step(w, ev).v, other).None? ==> MayGo(w.v, ev, now, other)
  {
    hide Step, Swept, IsOldestIdle;
    var w := Run(START, evs);
    var end := RunOrderedUpTo(START, evs, ev, last);
    now := if ev.GiveBack? then end else ev.now;
    RunInv(START, evs);
    var gone := StepForgets(w, ev, other);
    if ev.PlainAcquire? || ev.ExclusiveAcquire? {
      SweptReads(w.v, now, other);
      OrderedLater(w.v, end, now);
      SweptOrdered(w.v, now);
    } else {
      OrderedLater(w.v, end, now);
    }
    if gone == Some(other) {
      OldestIsLeastUsed(Cleared(w.v, ev), other, now);
      OldestIsIdle(Cleared(w.v, ev), other);
    }
  }

  lemma OldestIsIdle(v: Sessions, id: nat)
    requires IsOldestIdle(v, id)
    ensures Idle(Lookup(v, id))
  {
  }

  lemma SweptOrdered(v: Sessions, now: int)
    requires Ordered(v, now)
    ensures Ordered(Swept(v, now), now)
  {
    OrderedSweep(v, |v|, SCAN_LIMIT, now);
  }

  /** The clock at the next event is not behind the list. */
  lemma {:induction false} RunOrderedUpTo(w: World, evs: seq<Event>, ev: Event, last: int) returns (end: int)
    requires Ordered(w.v, last) && ClockMonotone(last, evs + [ev])
    ensures Ordered(Run(w, evs).v, end) && end <= Clock(ev, end)
    decreases |evs|
  {
    hide Step, Ordered;
    if evs == [] {
      assert evs + [ev] == [ev];
      return last;
    }
    assert (evs + [ev])[0] == evs[0] && (evs + [ev])[1..] == evs[1..] + [ev];
    StepOrdered(w, evs[0], last);
    end := RunOrderedUpTo(Step(w, evs[0]), evs[1..], ev, Clock(evs[0], last));
  }
}
