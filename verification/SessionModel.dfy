/**
 The session registry as a value: its entries from most to least recently used. Every operation
 of src/fractalsql_session.c is a function on that list; SessionRegistry proves that the hash
 table and the linked list compute it, SessionProtocol what follows over whole histories.
 */
module SessionModel {
  import opened Wrappers
  import opened SeqFacts

  const MAX_ENTRIES: nat := 4096
  const IDLE_TTL: int := 21600
  const SCAN_LIMIT: nat := 8

  /** A core context is known by a number; nothing is assumed about which one a new context gets. */
  datatype Session = Session(id: nat, ctx: Option<nat>, refcount: nat, busy: bool, shared: nat, lastUsed: int,
                             partial: bool, diversify: bool)

  type Sessions = seq<Session>

  predicate Pinned(e: Session) {
    e.refcount != 0 || e.busy
  }

  predicate Stale(e: Session, now: int) {
    !Pinned(e) && now - e.lastUsed >= IDLE_TTL
  }

  function IndexFrom(v: Sessions, id: nat, i: nat): (k: nat)
    requires i <= |v|
    ensures i <= k <= |v|
    ensures k < |v| ==> v[k].id == id
    ensures forall j :: i <= j < k ==> v[j].id != id
    decreases |v| - i
  {
    if i < |v| && v[i].id != id then IndexFrom(v, id, i + 1) else i
  }

  /** Where the session is, or the length when there is none. */
  function Index(v: Sessions, id: nat): nat {
    IndexFrom(v, id, 0)
  }

  predicate Has(v: Sessions, id: nat) {
    Index(v, id) < |v|
  }

  function SweepAt(v: Sessions, k: nat, now: int): (w: Sessions)
    requires k < |v|
    ensures k <= |w| <= |v|
  {
    if Stale(v[k], now) then Without(v, k) else v
  }

  /** `sweep_stale`: from position i - 1 towards the front, at most `limit` entries are looked at. */
  function Sweep(v: Sessions, i: nat, limit: nat, now: int): (w: Sessions)
    requires i <= |v|
    ensures |w| <= |v|
    decreases i
  {
    if i == 0 || limit == 0 then v else Sweep(SweepAt(v, i - 1, now), i - 1, limit - 1, now)
  }

  lemma SweepSteps(v: Sessions, i: nat, limit: nat, now: int)
    requires i <= |v|
    ensures i > 0 && limit > 0 ==> Sweep(v, i, limit, now) == Sweep(SweepAt(v, i - 1, now), i - 1, limit - 1, now)
    ensures i == 0 || limit == 0 ==> Sweep(v, i, limit, now) == v
  {
  }

  function Swept(v: Sessions, now: int): (w: Sessions)
    ensures |w| <= |v|
  {
    Sweep(v, |v|, SCAN_LIMIT, now)
  }

  /** The unpinned entry nearest to the back among the first i, or -1. */
  function LastUnpinned(v: Sessions, i: nat): (k: int)
    requires i <= |v|
    ensures -1 <= k < i
    ensures k >= 0 ==> !Pinned(v[k])
    ensures forall j :: k < j < i ==> Pinned(v[j])
  {
    if i == 0 then -1
    else if !Pinned(v[i - 1]) then i - 1
    else LastUnpinned(v, i - 1)
  }

  /** `evict_one_lru`. */
  function Evicted(v: Sessions): Option<Sessions> {
    var k := LastUnpinned(v, |v|);
    if k < 0 then None else Some(Without(v, k))
  }

  function NewSession(id: nat, now: int): Session {
    Session(id, None, 1, false, 0, now, false, false)
  }

  /** The table with room for one more entry: full, it gives up its oldest unpinned one, if there is one. */
  function Room(v: Sessions): Option<Sessions> {
    if |v| >= MAX_ENTRIES then Evicted(v) else Some(v)
  }

  function Used(e: Session, now: int): Session {
    e.(refcount := e.refcount + 1, lastUsed := now)
  }

  /**
   `find_or_create_entry_locked`: on success the session is at the front with one more reference.
   Room is made before the allocation is tried, so a failed allocation may still have evicted.
   */
  function FindOrCreate(v: Sessions, id: nat, now: int, memory: bool): (r: (bool, Sessions))
    ensures r.0 ==> |r.1| > 0 && r.1[0].id == id
  {
    var k := Index(v, id);
    if k < |v| then (true, [Used(v[k], now)] + Without(v, k))
    else if Room(v).None? then (false, v)
    else if memory then (true, [NewSession(id, now)] + Room(v).value)
    else (false, Room(v).value)
  }

  function Unref(e: Session): Session {
    if e.refcount > 0 then e.(refcount := e.refcount - 1) else e
  }

  function CtxOf(e: Session, newCtx: Option<nat>): Option<nat> {
    if e.ctx.Some? then e.ctx else newCtx
  }

  /** The entry after a plain acquire got this far; without a context its reference is given back. */
  function Shared(e: Session, newCtx: Option<nat>): Session {
    if CtxOf(e, newCtx).None? then Unref(e) else e.(ctx := CtxOf(e, newCtx), shared := e.shared + 1)
  }

  /** `fractal_session_acquire`. `memory` and `newCtx` say whether the two allocations succeed. */
  function Acquire(v: Sessions, id: nat, now: int, memory: bool, newCtx: Option<nat>): (Option<nat>, Sessions) {
    var v1 := Swept(v, now);
    var k := Index(v1, id);
    if k < |v1| && v1[k].busy then (None, v1)
    else
      var (ok, v2) := FindOrCreate(v1, id, now, memory);
      if ok then (CtxOf(v2[0], newCtx), v2[0 := Shared(v2[0], newCtx)]) else (None, v2)
  }

  datatype Exclusive = Granted(ctx: nat) | Busy | Unavailable

  function Taken(e: Session, newCtx: Option<nat>): Session {
    if CtxOf(e, newCtx).None? then Unref(e).(busy := false) else e.(ctx := CtxOf(e, newCtx), busy := true)
  }

  /** `fractal_session_acquire_exclusive`. */
  function AcquireExclusive(v: Sessions, id: nat, now: int, memory: bool, newCtx: Option<nat>): (Exclusive, Sessions) {
    var v1 := Swept(v, now);
    var k := Index(v1, id);
    if k < |v1| && (v1[k].busy || v1[k].shared > 0) then (Busy, v1)
    else
      var (ok, v2) := FindOrCreate(v1, id, now, memory);
      if !ok then (Unavailable, v2)
      else
        var ctx := CtxOf(v2[0], newCtx);
        (if ctx.Some? then Granted(ctx.value) else Unavailable, v2[0 := Taken(v2[0], newCtx)])
  }

  /** A plain holder's release: never below zero. */
  function Released(e: Session): Session {
    Unref(if e.shared > 0 then e.(shared := e.shared - 1) else e)
  }

  /** `fractal_session_release`. */
  function Release(v: Sessions, id: nat): (w: Sessions)
    ensures |w| == |v|
  {
    var k := Index(v, id);
    if k < |v| then v[k := Released(v[k])] else v
  }

  /** `fractal_session_release_exclusive`. */
  function ReleaseExclusive(v: Sessions, id: nat): (w: Sessions)
    ensures |w| == |v|
  {
    var k := Index(v, id);
    if k < |v| then v[k := Unref(v[k].(busy := false))] else v
  }

  /** `fractal_session_registry_close`. */
  function Close(v: Sessions, id: nat): Sessions {
    var k := Index(v, id);
    if k < |v| && !Pinned(v[k]) then Without(v, k) else v
  }

  /** The entry a flag is written to: the existing one, or a new one that nobody holds. */
  function Ensure(v: Sessions, id: nat, now: int, memory: bool): Sessions {
    if Has(v, id) then v
    else
      var (ok, w) := FindOrCreate(v, id, now, memory);
      if ok then w[0 := Unref(w[0])] else w
  }

  /** `fractal_session_set_agent_partial`. */
  function SetPartial(v: Sessions, id: nat, on: bool, now: int, memory: bool): Sessions {
    var w := Ensure(v, id, now, memory);
    var k := Index(w, id);
    if k < |w| then w[k := w[k].(partial := on)] else w
  }

  /** `fractal_session_set_diversify_enabled`. */
  function SetDiversify(v: Sessions, id: nat, on: bool, now: int, memory: bool): Sessions {
    var w := Ensure(v, id, now, memory);
    var k := Index(w, id);
    if k < |w| then w[k := w[k].(diversify := on)] else w
  }
}
