/**
 Histories of the session registry: any interleaving of acquires, releases, closes and flag
 writes, where each acquire that succeeds is released at most once and by its own kind of release.
 */
module SessionProtocol {
  import opened Wrappers
  import opened SessionModel
  import opened SeqFacts

  /** One outstanding acquire. */
  datatype Hold = Hold(id: nat, ctx: nat, exclusive: bool)

  datatype World = World(v: Sessions, holds: seq<Hold>)

  datatype Event =
    | PlainAcquire(id: nat, now: int, memory: bool, newCtx: Option<nat>)
    | ExclusiveAcquire(id: nat, now: int, memory: bool, newCtx: Option<nat>)
    | GiveBack(hold: nat)
    | CloseId(id: nat)
    | WritePartial(id: nat, on: bool, now: int, memory: bool)
    | WriteDiversify(id: nat, on: bool, now: int, memory: bool)

  function Step(w: World, ev: Event): World {
    match ev
    case PlainAcquire(id, now, memory, newCtx) =>
      var (ctx, v) := Acquire(w.v, id, now, memory, newCtx);
      World(v, if ctx.Some? then w.holds + [Hold(id, ctx.value, false)] else w.holds)
    case ExclusiveAcquire(id, now, memory, newCtx) =>
      var (r, v) := AcquireExclusive(w.v, id, now, memory, newCtx);
      World(v, if r.Granted? then w.holds + [Hold(id, r.ctx, true)] else w.holds)
    case GiveBack(i) =>
      if i >= |w.holds| then w
      else
        var h := w.holds[i];
        World(if h.exclusive then ReleaseExclusive(w.v, h.id) else Release(w.v, h.id), Without(w.holds, i))
    case CloseId(id) => World(Close(w.v, id), w.holds)
    case WritePartial(id, on, now, memory) => World(SetPartial(w.v, id, on, now, memory), w.holds)
    case WriteDiversify(id, on, now, memory) => World(SetDiversify(w.v, id, on, now, memory), w.holds)
  }

  function Run(w: World, evs: seq<Event>): World
    decreases |evs|
  {
    if evs == [] then w else Run(Step(w, evs[0]), evs[1..])
  }

  /** A run is its steps one after the other. */
  lemma {:induction false} RunStep(w: World, evs: seq<Event>, ev: Event)
    ensures Run(w, []) == w && Run(w, evs + [ev]) == Step(Run(w, evs), ev)
    decreases |evs|
  {
    hide Step;
    if evs == [] {
      assert evs + [ev] == [ev] && [ev][1..] == [];
    } else {
      SeqFacts.Uncons(evs, [ev]);
      RunStep(Step(w, evs[0]), evs[1..], ev);
    }
  }

  // ----- the registry as a lookup table -----

  predicate Unique(v: Sessions) {
    forall i, j :: 0 <= i < j < |v| ==> v[i].id != v[j].id
  }

  function Lookup(v: Sessions, id: nat): Option<Session> {
    var k := Index(v, id);
    if k < |v| then Some(v[k]) else None
  }

  lemma LookupAt(v: Sessions, k: nat)
    requires Unique(v) && k < |v|
    ensures Index(v, v[k].id) == k && Lookup(v, v[k].id) == Some(v[k])
  {
  }

  /** What a lookup finds is all that matters: this is how to tell it without the position. */
  lemma LookupIs(v: Sessions, id: nat, o: Option<Session>)
    requires Unique(v)
    requires o.Some? ==> o.value in v && o.value.id == id
    requires o.None? ==> forall i :: 0 <= i < |v| ==> v[i].id != id
    ensures Lookup(v, id) == o
  {
    if o.Some? {
      var k :| 0 <= k < |v| && v[k] == o.value;
      LookupAt(v, k);
    }
  }

  /** w is v less some entries that nobody had pinned. */
  ghost predicate Shrunk(v: Sessions, w: Sessions) {
    && Unique(w) && |w| <= |v|
    && (forall id :: Lookup(w, id) == Lookup(v, id)
                     || (Lookup(w, id).None? && Lookup(v, id).Some? && !Pinned(Lookup(v, id).value)))
  }

  lemma WithoutUnique(v: Sessions, k: nat)
    requires Unique(v) && k < |v|
    ensures Unique(Without(v, k))
    ensures forall id :: Lookup(Without(v, k), id) == if id == v[k].id then None else Lookup(v, id)
  {
    var w := Without(v, k);
    assert forall j :: 0 <= j < |w| ==> w[j] == v[if j < k then j else j + 1];
    forall id
      ensures Lookup(w, id) == if id == v[k].id then None else Lookup(v, id)
    {
      LookupAt(v, k);
      if id != v[k].id && Lookup(v, id).Some? {
        var i := Index(v, id);
        assert w[if i < k then i else i - 1] == v[i];
        LookupIs(w, id, Some(v[i]));
      } else {
        LookupIs(w, id, None);
      }
    }
  }

  lemma DropShrinks(v: Sessions, k: nat)
    requires Unique(v) && k < |v| && !Pinned(v[k])
    ensures Shrunk(v, Without(v, k))
  {
    WithoutUnique(v, k);
    LookupAt(v, k);
  }

  lemma {:induction false} SweepShrinks(v: Sessions, i: nat, limit: nat, now: int)
    requires Unique(v) && i <= |v|
    ensures Shrunk(v, Sweep(v, i, limit, now))
    decreases i
  {
    if i > 0 && limit > 0 {
      if Stale(v[i - 1], now) {
        DropShrinks(v, i - 1);
      }
      SweepShrinks(SweepAt(v, i - 1, now), i - 1, limit - 1, now);
    }
  }

  /** The entries that are not stale, in order. */
  function Fresh(v: Sessions, now: int): Sessions {
    if v == [] then []
    else
      var e := v[|v| - 1];
      Fresh(v[..|v| - 1], now) + (if Stale(e, now) then [] else [e])
  }

  /** A sweep takes exactly the stale entries out of the `limit` places it looks at. */
  lemma {:induction false} SweepIs(v: Sessions, i: nat, limit: nat, now: int)
    requires i <= |v|
    ensures var m := if i > limit then i - limit else 0;
      Sweep(v, i, limit, now) == v[..m] + Fresh(v[m..i], now) + v[i..]
    decreases i
  {
    hide *;
    SweepSteps(v, i, limit, now);
    if i == 0 || limit == 0 {
      NothingSwept(v, i, now);
    } else {
      SweepIs(SweepAt(v, i - 1, now), i - 1, limit - 1, now);
      SweepPieces(v, i - 1, if i > limit then i - limit else 0, now);
    }
  }

  lemma NothingSwept(v: Sessions, i: nat, now: int)
    requires i <= |v|
    ensures v[..i] + Fresh(v[i..i], now) + v[i..] == v
  {
    assert v[i..i] == [];
  }

  lemma SweepPieces(v: Sessions, k: nat, m: nat, now: int)
    requires m <= k < |v|
    ensures var w := SweepAt(v, k, now);
      w[..m] + Fresh(w[m..k], now) + w[k..] == v[..m] + Fresh(v[m..k + 1], now) + v[k + 1..]
  {
    var w := SweepAt(v, k, now);
    assert v[m..k + 1][..k - m] == v[m..k] == w[m..k] && v[m..k + 1][k - m] == v[k] && w[..m] == v[..m];
    if Stale(v[k], now) {
      assert w[k..] == v[k + 1..] && Fresh(v[m..k], now) + [] == Fresh(v[m..k], now);
    } else {
      assert w[k..] == [v[k]] + v[k + 1..];
    }
  }

  lemma RoomShrinks(v: Sessions)
    requires Unique(v) && Room(v).Some?
    ensures Shrunk(v, Room(v).value)
    ensures |v| <= MAX_ENTRIES ==> |Room(v).value| < MAX_ENTRIES
  {
    if |v| >= MAX_ENTRIES {
      DropShrinks(v, LastUnpinned(v, |v|));
    }
  }

  lemma CloseShrinks(v: Sessions, id: nat)
    requires Unique(v)
    ensures Shrunk(v, Close(v, id))
  {
    var k := Index(v, id);
    if k < |v| && !Pinned(v[k]) {
      DropShrinks(v, k);
    }
  }

  /** A close forgets the session when nobody has it pinned, and nothing else ever. */
  lemma CloseIs(v: Sessions, id: nat, other: nat)
    requires Unique(v)
    ensures Lookup(Close(v, id), other)
         == if other == id && Lookup(v, id).Some? && !Pinned(Lookup(v, id).value) then None else Lookup(v, other)
  {
    var k := Index(v, id);
    if k < |v| && !Pinned(v[k]) {
      WithoutUnique(v, k);
    }
  }

  lemma Replaced(v: Sessions, k: nat, e: Session)
    requires Unique(v) && k < |v| && e.id == v[k].id
    ensures Unique(v[k := e])
    ensures forall id :: Lookup(v[k := e], id) == if id == e.id then Some(e) else Lookup(v, id)
  {
    var w := v[k := e];
    forall id
      ensures Lookup(w, id) == if id == e.id then Some(e) else Lookup(v, id)
    {
      LookupAt(w, k);
      if id != e.id && Lookup(v, id).Some? {
        assert w[Index(v, id)] == v[Index(v, id)];
        LookupIs(w, id, Lookup(v, id));
      }
    }
  }

  lemma Fronted(v: Sessions, e: Session)
    requires Unique(v) && Lookup(v, e.id).None?
    ensures Unique([e] + v)
    ensures forall id :: Lookup([e] + v, id) == if id == e.id then Some(e) else Lookup(v, id)
  {
    var w := [e] + v;
    assert forall j :: 0 < j < |w| ==> w[j] == v[j - 1];
    forall id
      ensures Lookup(w, id) == if id == e.id then Some(e) else Lookup(v, id)
    {
      LookupAt(w, 0);
      if id != e.id && Lookup(v, id).Some? {
        assert w[Index(v, id) + 1] == v[Index(v, id)];
        LookupIs(w, id, Lookup(v, id));
      } else if id != e.id {
        LookupIs(w, id, None);
      }
    }
  }

  /** What `find_or_create_entry_locked` leaves to be looked up. */
  lemma FoundOrCreated(v: Sessions, id: nat, now: int, memory: bool)
    requires Unique(v) && |v| <= MAX_ENTRIES
    ensures var (ok, w) := FindOrCreate(v, id, now, memory);
      && Unique(w) && |w| <= MAX_ENTRIES
      && (!ok ==> Shrunk(v, w))
      && (ok ==> Lookup(w, id) == Some(w[0])
                 && w[0] == (if Lookup(v, id).Some? then Used(Lookup(v, id).value, now) else NewSession(id, now)))
      && (ok ==> forall other :: other != id ==>
            Lookup(w, other) == Lookup(v, other)
            || (Lookup(w, other).None? && Lookup(v, other).Some? && !Pinned(Lookup(v, other).value)))
  {
    var k := Index(v, id);
    if k < |v| {
      WithoutUnique(v, k);
      Fronted(Without(v, k), Used(v[k], now));
    } else if Room(v).Some? {
      RoomShrinks(v);
      if memory {
        Fronted(Room(v).value, NewSession(id, now));
      }
    }
  }

  // ----- the invariant -----

  /** How many outstanding acquires of one sort a session has. */
  function Count(holds: seq<Hold>, id: nat, exclusive: bool): nat {
    if holds == [] then 0
    else (if holds[0].id == id && holds[0].exclusive == exclusive then 1 else 0) + Count(holds[1..], id, exclusive)
  }

  lemma {:induction false} CountAppend(holds: seq<Hold>, h: Hold, id: nat, exclusive: bool)
    ensures Count(holds + [h], id, exclusive)
         == Count(holds, id, exclusive) + (if h.id == id && h.exclusive == exclusive then 1 else 0)
  {
    if holds == [] {
      assert holds + [h] == [h] && [h][1..] == [];
    } else {
      assert (holds + [h])[1..] == holds[1..] + [h];
      CountAppend(holds[1..], h, id, exclusive);
    }
  }

  lemma {:induction false} CountWithout(holds: seq<Hold>, i: nat, id: nat, exclusive: bool)
    requires i < |holds|
    ensures Count(holds, id, exclusive)
         == Count(Without(holds, i), id, exclusive)
            + (if holds[i].id == id && holds[i].exclusive == exclusive then 1 else 0)
  {
    if i == 0 {
      assert Without(holds, 0) == holds[1..];
    } else {
      CountWithout(holds[1..], i - 1, id, exclusive);
      assert Without(holds, i)[0] == holds[0];
      assert Without(holds, i)[1..] == Without(holds[1..], i - 1);
    }
  }

  lemma {:induction false} CountPositive(holds: seq<Hold>, i: nat)
    requires i < |holds|
    ensures Count(holds, holds[i].id, holds[i].exclusive) > 0
  {
    if i > 0 {
      CountPositive(holds[1..], i - 1);
    }
  }

  lemma {:induction false} CountZero(holds: seq<Hold>, id: nat, exclusive: bool)
    requires Count(holds, id, exclusive) == 0
    ensures forall i :: 0 <= i < |holds| ==> !(holds[i].id == id && holds[i].exclusive == exclusive)
  {
    if holds != [] {
      CountZero(holds[1..], id, exclusive);
    }
  }

  function Bit(b: bool): nat {
    if b then 1 else 0
  }

  /** The books of one session: the counters say exactly who is holding it, and never both sorts. */
  ghost predicate Booked(o: Option<Session>, holds: seq<Hold>, id: nat) {
    match o
    case None => Count(holds, id, false) == 0 && Count(holds, id, true) == 0
    case Some(e) =>
      && e.shared == Count(holds, id, false)
      && Bit(e.busy) == Count(holds, id, true)
      && e.refcount == e.shared + Bit(e.busy)
      && (e.busy ==> e.shared == 0)
      && (forall i :: 0 <= i < |holds| && holds[i].id == id ==> e.ctx == Some(holds[i].ctx))
  }

  ghost predicate Inv(w: World) {
    && Unique(w.v) && |w.v| <= MAX_ENTRIES
    && (forall id :: Booked(Lookup(w.v, id), w.holds, id))
  }

  lemma ShrunkBooked(v: Sessions, w: Sessions, holds: seq<Hold>)
    requires Inv(World(v, holds)) && Shrunk(v, w)
    ensures Inv(World(w, holds))
  {
    forall id
      ensures Booked(Lookup(w, id), holds, id)
    {
      assert Booked(Lookup(v, id), holds, id);
    }
  }

  lemma SweptBooked(v: Sessions, holds: seq<Hold>, now: int)
    requires Inv(World(v, holds))
    ensures Inv(World(Swept(v, now), holds))
  {
    SweepShrinks(v, |v|, SCAN_LIMIT, now);
    ShrunkBooked(v, Swept(v, now), holds);
  }

  lemma BookedNewHold(e: Session, holds: seq<Hold>, h: Hold, ctx: nat)
    requires h.ctx == ctx
    requires Booked(Some(e), holds, h.id) && (e.ctx.Some? ==> e.ctx.value == ctx)
    requires h.exclusive ==> e.shared == 0 && !e.busy
    requires !h.exclusive ==> !e.busy
    ensures Booked(Some(e.(ctx := Some(ctx), refcount := e.refcount + 1,
                          shared := if h.exclusive then e.shared else e.shared + 1,
                          busy := h.exclusive)), holds + [h], h.id)
  {
    CountAppend(holds, h, h.id, false);
    CountAppend(holds, h, h.id, true);
    if e.ctx.None? {
      forall i | 0 <= i < |holds| && holds[i].id == h.id
        ensures false
      {
      }
    }
  }

  /** The entry as it stood before `find_or_create_entry_locked` added its reference. */
  function Before(v: Sessions, id: nat, now: int): Session {
    if Lookup(v, id).Some? then Lookup(v, id).value.(lastUsed := now) else NewSession(id, now).(refcount := 0)
  }

  /** After `find_or_create_entry_locked`: the front entry is booked but for the one reference added. */
  lemma FoundBooked(v: Sessions, holds: seq<Hold>, id: nat, now: int, memory: bool)
    requires Inv(World(v, holds))
    ensures var (ok, w) := FindOrCreate(v, id, now, memory);
      && Unique(w) && |w| <= MAX_ENTRIES
      && (!ok ==> Inv(World(w, holds)))
      && (ok ==> Lookup(w, id) == Some(w[0]) && w[0].id == id)
      && (ok ==> w[0] == Before(v, id, now).(refcount := Before(v, id, now).refcount + 1))
      && (ok ==> Booked(Some(Before(v, id, now)), holds, id))
      && (ok ==> forall other :: other != id ==> Booked(Lookup(w, other), holds, other))
  {
    var (ok, w) := FindOrCreate(v, id, now, memory);
    FoundOrCreated(v, id, now, memory);
    if !ok {
      ShrunkBooked(v, w, holds);
    } else {
      assert Booked(Lookup(v, id), holds, id);
      if Lookup(v, id).None? {
        CountZero(holds, id, false);
        CountZero(holds, id, true);
      }
      forall other | other != id
        ensures Booked(Lookup(w, other), holds, other)
      {
        assert Booked(Lookup(v, other), holds, other);
      }
    }
  }

  lemma OthersUntouched(holds: seq<Hold>, h: Hold, o: Option<Session>, id: nat)
    requires Booked(o, holds, id) && id != h.id
    ensures Booked(o, holds + [h], id)
  {
    CountAppend(holds, h, id, false);
    CountAppend(holds, h, id, true);
  }

  /** Putting a booked entry at the front completes the invariant. */
  lemma FrontBooked(w: Sessions, e: Session, holds: seq<Hold>)
    requires Unique(w) && 0 < |w| <= MAX_ENTRIES && e.id == w[0].id
    requires Booked(Some(e), holds, e.id)
    requires forall other :: other != e.id ==> Booked(Lookup(w, other), holds, other)
    ensures Inv(World(w[0 := e], holds))
  {
    EntryBooked(w, 0, e, holds);
  }

  lemma EntryBooked(v: Sessions, k: nat, e: Session, holds: seq<Hold>)
    requires Unique(v) && k < |v| <= MAX_ENTRIES && e.id == v[k].id
    requires Booked(Some(e), holds, e.id)
    requires forall other :: other != e.id ==> Booked(Lookup(v, other), holds, other)
    ensures Inv(World(v[k := e], holds))
  {
    Replaced(v, k, e);
    var v' := v[k := e];
    forall id: nat
      ensures Booked(Lookup(v', id), holds, id)
    {
      if id == e.id {
        LookupAt(v', k);
      } else {
        assert Lookup(v', id) == Lookup(v, id);
        assert Booked(Lookup(v, id), holds, id);
      }
    }
  }

  lemma AcquireInv(w: World, id: nat, now: int, memory: bool, newCtx: Option<nat>)
    requires Inv(w)
    ensures Inv(Step(w, PlainAcquire(id, now, memory, newCtx)))
  {
    var v1 := Swept(w.v, now);
    SweptBooked(w.v, w.holds, now);
    if !(Lookup(v1, id).Some? && Lookup(v1, id).value.busy) {
      var (ok, v2) := FindOrCreate(v1, id, now, memory);
      FoundBooked(v1, w.holds, id, now, memory);
      if ok {
        var e := Before(v1, id, now);
        var ctx := CtxOf(v2[0], newCtx);
        if ctx.Some? {
          var h := Hold(id, ctx.value, false);
          BookedNewHold(e, w.holds, h, ctx.value);
          forall other | other != id
            ensures Booked(Lookup(v2, other), w.holds + [h], other)
          {
            OthersUntouched(w.holds, h, Lookup(v2, other), other);
          }
          FrontBooked(v2, Shared(v2[0], newCtx), w.holds + [h]);
        } else {
          FrontBooked(v2, Shared(v2[0], newCtx), w.holds);
        }
      }
    }
  }

  lemma ExclusiveInv(w: World, id: nat, now: int, memory: bool, newCtx: Option<nat>)
    requires Inv(w)
    ensures Inv(Step(w, ExclusiveAcquire(id, now, memory, newCtx)))
  {
    var v1 := Swept(w.v, now);
    SweptBooked(w.v, w.holds, now);
    var o := Lookup(v1, id);
    if !(o.Some? && (o.value.busy || o.value.shared > 0)) {
      var (ok, v2) := FindOrCreate(v1, id, now, memory);
      FoundBooked(v1, w.holds, id, now, memory);
      if ok {
        var e := Before(v1, id, now);
        var ctx := CtxOf(v2[0], newCtx);
        if ctx.Some? {
          var h := Hold(id, ctx.value, true);
          BookedNewHold(e, w.holds, h, ctx.value);
          forall other | other != id
            ensures Booked(Lookup(v2, other), w.holds + [h], other)
          {
            OthersUntouched(w.holds, h, Lookup(v2, other), other);
          }
          FrontBooked(v2, Taken(v2[0], newCtx), w.holds + [h]);
        } else {
          FrontBooked(v2, Taken(v2[0], newCtx), w.holds);
        }
      }
    }
  }

  lemma BookedRelease(o: Option<Session>, holds: seq<Hold>, i: nat, id: nat)
    requires i < |holds| && Booked(o, holds, id)
    ensures holds[i].id != id ==> Booked(o, Without(holds, i), id)
    ensures holds[i].id == id ==> o.Some?
    ensures holds[i].id == id ==>
      Booked(Some(if holds[i].exclusive then Unref(o.value.(busy := false)) else Released(o.value)),
             Without(holds, i), id)
  {
    CountWithout(holds, i, id, false);
    CountWithout(holds, i, id, true);
    CountPositive(holds, i);
    var rest := Without(holds, i);
    assert forall j :: 0 <= j < |rest| ==> rest[j] == holds[if j < i then j else j + 1];
  }

  lemma GiveBackInv(w: World, i: nat)
    requires Inv(w)
    ensures Inv(Step(w, GiveBack(i)))
  {
    if i < |w.holds| {
      var h := w.holds[i];
      var k := Index(w.v, h.id);
      assert Booked(Lookup(w.v, h.id), w.holds, h.id);
      BookedRelease(Lookup(w.v, h.id), w.holds, i, h.id);
      var e := if h.exclusive then Unref(w.v[k].(busy := false)) else Released(w.v[k]);
      forall id | id != h.id
        ensures Booked(Lookup(w.v, id), Without(w.holds, i), id)
      {
        assert Booked(Lookup(w.v, id), w.holds, id);
        BookedRelease(Lookup(w.v, id), w.holds, i, id);
      }
      EntryBooked(w.v, k, e, Without(w.holds, i));
    }
  }

  lemma EnsureBooked(v: Sessions, holds: seq<Hold>, id: nat, now: int, memory: bool)
    requires Inv(World(v, holds))
    ensures Inv(World(Ensure(v, id, now, memory), holds))
  {
    if !Has(v, id) {
      var (ok, w) := FindOrCreate(v, id, now, memory);
      FoundBooked(v, holds, id, now, memory);
      if ok {
        FrontBooked(w, Unref(w[0]), holds);
      }
    }
  }

  lemma SameCountsBooked(v: Sessions, k: nat, e: Session, holds: seq<Hold>)
    requires Inv(World(v, holds)) && k < |v| && k == Index(v, e.id)
    requires e.id == v[k].id && e.ctx == v[k].ctx
    requires e.shared == v[k].shared && e.busy == v[k].busy && e.refcount == v[k].refcount
    ensures Inv(World(v[k := e], holds))
  {
    assert Booked(Lookup(v, e.id), holds, e.id);
    EntryBooked(v, k, e, holds);
  }

  lemma PartialInv(w: World, id: nat, on: bool, now: int, memory: bool)
    requires Inv(w)
    ensures Inv(Step(w, WritePartial(id, on, now, memory)))
  {
    hide Inv, Ensure, FindOrCreate;
    var v := Ensure(w.v, id, now, memory);
    EnsureBooked(w.v, w.holds, id, now, memory);
    var k := Index(v, id);
    if k < |v| {
      SameCountsBooked(v, k, v[k].(partial := on), w.holds);
    }
  }

  lemma DiversifyInv(w: World, id: nat, on: bool, now: int, memory: bool)
    requires Inv(w)
    ensures Inv(Step(w, WriteDiversify(id, on, now, memory)))
  {
    hide Inv, Ensure, FindOrCreate;
    var v := Ensure(w.v, id, now, memory);
    EnsureBooked(w.v, w.holds, id, now, memory);
    var k := Index(v, id);
    if k < |v| {
      SameCountsBooked(v, k, v[k].(diversify := on), w.holds);
    }
  }

  /** Every event keeps the books. */
  lemma StepInv(w: World, ev: Event)
    requires Inv(w)
    ensures Inv(Step(w, ev))
  {
    match ev
    case PlainAcquire(id, now, memory, newCtx) => AcquireInv(w, id, now, memory, newCtx);
    case ExclusiveAcquire(id, now, memory, newCtx) => ExclusiveInv(w, id, now, memory, newCtx);
    case GiveBack(i) => GiveBackInv(w, i);
    case CloseId(id) =>
      CloseShrinks(w.v, id);
      ShrunkBooked(w.v, Close(w.v, id), w.holds);
    case WritePartial(id, on, now, memory) => PartialInv(w, id, on, now, memory);
    case WriteDiversify(id, on, now, memory) => DiversifyInv(w, id, on, now, memory);
  }

  lemma {:induction false} RunInv(w: World, evs: seq<Event>)
    requires Inv(w)
    ensures Inv(Run(w, evs))
    decreases |evs|
  {
    if evs != [] {
      StepInv(w, evs[0]);
      RunInv(Step(w, evs[0]), evs[1..]);
    }
  }

  const START := World([], [])

  /**
   Exclusion and lifetime over every interleaving that starts from an empty registry: an exclusive
   hold excludes every other hold of its session, holds of one session share one context, and the
   context of a hold is the one its session still has.
   */
  lemma ExclusionAndLifetime(evs: seq<Event>)
    ensures var w := Run(START, evs);
      && (forall i :: 0 <= i < |w.holds| ==>
            Lookup(w.v, w.holds[i].id).Some? && Lookup(w.v, w.holds[i].id).value.ctx == Some(w.holds[i].ctx))
      && (forall i, j :: 0 <= i < j < |w.holds| && w.holds[i].id == w.holds[j].id ==>
            !w.holds[i].exclusive && !w.holds[j].exclusive && w.holds[i].ctx == w.holds[j].ctx)
      && (forall id :: Lookup(w.v, id).Some? ==> var e := Lookup(w.v, id).value;
            e.refcount == e.shared + Bit(e.busy) && (e.busy ==> e.shared == 0))
      && |w.v| <= MAX_ENTRIES
  {
    var w := Run(START, evs);
    RunInv(START, evs);
    forall i | 0 <= i < |w.holds|
      ensures Lookup(w.v, w.holds[i].id).Some? && Lookup(w.v, w.holds[i].id).value.ctx == Some(w.holds[i].ctx)
    {
      assert Booked(Lookup(w.v, w.holds[i].id), w.holds, w.holds[i].id);
      CountPositive(w.holds, i);
    }
    forall i, j | 0 <= i < j < |w.holds| && w.holds[i].id == w.holds[j].id
      ensures !w.holds[i].exclusive && !w.holds[j].exclusive && w.holds[i].ctx == w.holds[j].ctx
    {
      assert Booked(Lookup(w.v, w.holds[i].id), w.holds, w.holds[i].id);
      TwoHolds(w.holds, i, j);
    }
    forall id | Lookup(w.v, id).Some?
      ensures var e := Lookup(w.v, id).value;
        e.refcount == e.shared + Bit(e.busy) && (e.busy ==> e.shared == 0)
    {
      assert Booked(Lookup(w.v, id), w.holds, id);
    }
  }

  lemma TwoHolds(holds: seq<Hold>, i: nat, j: nat)
    requires i < j < |holds| && holds[i].id == holds[j].id
    ensures var id := holds[i].id;
      Count(holds, id, false) + Count(holds, id, true) >= 2
      && (holds[i].exclusive || holds[j].exclusive ==> Count(holds, id, true) >= 1)
      && (!holds[i].exclusive || !holds[j].exclusive ==> Count(holds, id, false) >= 1)
  {
    var rest := Without(holds, j);
    CountWithout(holds, j, holds[i].id, false);
    CountWithout(holds, j, holds[i].id, true);
    assert rest[i] == holds[i];
    CountPositive(rest, i);
  }

  // ----- when an acquire fails -----

  function HeldIds(holds: seq<Hold>): (ids: set<nat>)
    ensures |ids| <= |holds|
    ensures forall i :: 0 <= i < |holds| ==> holds[i].id in ids
  {
    if holds == [] then {} else
      var rest := HeldIds(holds[1..]);
      assert forall i :: 0 < i < |holds| ==> holds[i] == holds[1..][i - 1];
      assert |{holds[0].id} + rest| <= 1 + |rest|;
      {holds[0].id} + rest
  }

  lemma {:induction false} DistinctIdsWithin(v: Sessions, ids: set<nat>)
    requires Unique(v) && (forall i :: 0 <= i < |v| ==> v[i].id in ids)
    ensures |v| <= |ids|
  {
    if v != [] {
      DistinctIdsWithin(v[1..], ids - {v[0].id});
    }
  }

  lemma {:induction false} CountedIsHeld(holds: seq<Hold>, id: nat, exclusive: bool)
    requires Count(holds, id, exclusive) > 0
    ensures exists i :: 0 <= i < |holds| && holds[i].id == id && holds[i].exclusive == exclusive
  {
    if !(holds[0].id == id && holds[0].exclusive == exclusive) {
      CountedIsHeld(holds[1..], id, exclusive);
      var i :| 0 <= i < |holds[1..]| && holds[1..][i].id == id && holds[1..][i].exclusive == exclusive;
      assert holds[i + 1] == holds[1..][i];
    }
  }

  /** A table in which everything is pinned has a holder for every entry. */
  lemma AllPinnedAllHeld(v: Sessions, holds: seq<Hold>)
    requires Inv(World(v, holds)) && (forall i :: 0 <= i < |v| ==> Pinned(v[i]))
    ensures |v| <= |holds|
  {
    forall i | 0 <= i < |v|
      ensures v[i].id in HeldIds(holds)
    {
      LookupAt(v, i);
      assert Booked(Lookup(v, v[i].id), holds, v[i].id);
      var exclusive := v[i].busy;
      CountedIsHeld(holds, v[i].id, exclusive);
    }
    DistinctIdsWithin(v, HeldIds(holds));
  }

  /**
   With memory to spare, a plain acquire is turned away only because of an exclusive hold on the
   very session, or because at least 4096 acquires are outstanding at that moment.
   */
  lemma AcquireTurnedAway(w: World, id: nat, now: int, ctx: nat)
    requires Inv(w) && Acquire(w.v, id, now, true, Some(ctx)).0.None?
    ensures |w.holds| >= MAX_ENTRIES
         || exists i :: 0 <= i < |w.holds| && w.holds[i].id == id && w.holds[i].exclusive
  {
    var v1 := Swept(w.v, now);
    SweptBooked(w.v, w.holds, now);
    assert Booked(Lookup(v1, id), w.holds, id);
    if Lookup(v1, id).Some? && Lookup(v1, id).value.busy {
      CountedIsHeld(w.holds, id, true);
    } else {
      AllPinnedAllHeld(v1, w.holds);
    }
  }

  /** An exclusive acquire is answered "busy" exactly when somebody holds the session, in either way. */
  lemma BusyExactlyWhenHeld(w: World, id: nat, now: int, memory: bool, newCtx: Option<nat>)
    requires Inv(w)
    ensures AcquireExclusive(w.v, id, now, memory, newCtx).0.Busy?
        <==> exists i :: 0 <= i < |w.holds| && w.holds[i].id == id
  {
    var v1 := Swept(w.v, now);
    SweptBooked(w.v, w.holds, now);
    hide Swept, FindOrCreate;
    assert Booked(Lookup(v1, id), w.holds, id);
    if Count(w.holds, id, false) > 0 {
      CountedIsHeld(w.holds, id, false);
    }
    if Count(w.holds, id, true) > 0 {
      CountedIsHeld(w.holds, id, true);
    }
    if i :| 0 <= i < |w.holds| && w.holds[i].id == id {
      CountPositive(w.holds, i);
    }
  }

  // ----- the order of the list -----

  /** Most recently used first, and nothing is used in the future. */
  predicate Ordered(v: Sessions, now: int) {
    && (forall i, j :: 0 <= i < j < |v| ==> v[i].lastUsed >= v[j].lastUsed)
    && (forall i :: 0 <= i < |v| ==> v[i].lastUsed <= now)
  }

  lemma OrderedWithout(v: Sessions, k: nat, now: int)
    requires Ordered(v, now) && k < |v|
    ensures Ordered(Without(v, k), now)
  {
    var w := Without(v, k);
    assert forall j :: 0 <= j < |w| ==> w[j] == v[if j < k then j else j + 1];
  }

  lemma OrderedFront(v: Sessions, e: Session, now: int)
    requires Ordered(v, now) && e.lastUsed == now
    ensures Ordered([e] + v, now)
  {
    var w := [e] + v;
    assert forall j :: 0 < j < |w| ==> w[j] == v[j - 1];
  }

  lemma {:induction false} OrderedSweep(v: Sessions, i: nat, limit: nat, now: int)
    requires Ordered(v, now) && i <= |v|
    ensures Ordered(Sweep(v, i, limit, now), now)
    decreases i
  {
    hide Ordered, Without;
    if i > 0 && limit > 0 {
      if Stale(v[i - 1], now) {
        OrderedWithout(v, i - 1, now);
      }
      OrderedSweep(SweepAt(v, i - 1, now), i - 1, limit - 1, now);
    }
  }

  lemma OrderedFound(v: Sessions, id: nat, now: int, memory: bool)
    requires Ordered(v, now)
    ensures Ordered(FindOrCreate(v, id, now, memory).1, now)
  {
    var k := Index(v, id);
    if k < |v| {
      OrderedWithout(v, k, now);
      OrderedFront(Without(v, k), Used(v[k], now), now);
    } else if Room(v).Some? {
      if |v| >= MAX_ENTRIES {
        OrderedWithout(v, LastUnpinned(v, |v|), now);
      }
      OrderedFront(Room(v).value, NewSession(id, now), now);
    }
  }

  /** The time an event reads from the clock; releases and closes read none. */
  function Clock(ev: Event, last: int): int {
    match ev
    case PlainAcquire(_, now, _, _) => now
    case ExclusiveAcquire(_, now, _, _) => now
    case WritePartial(_, _, now, _) => now
    case WriteDiversify(_, _, now, _) => now
    case _ => last
  }

  predicate ClockMonotone(last: int, evs: seq<Event>)
    decreases |evs|
  {
    evs == [] || (last <= Clock(evs[0], last) && ClockMonotone(Clock(evs[0], last), evs[1..]))
  }

  lemma OrderedEdit(v: Sessions, k: nat, e: Session, now: int)
    requires Ordered(v, now) && k < |v| && e.lastUsed == v[k].lastUsed
    ensures Ordered(v[k := e], now)
  {
  }

  lemma OrderedLater(v: Sessions, last: int, now: int)
    requires Ordered(v, last) && last <= now
    ensures Ordered(v, now)
  {
  }

  lemma AcquireOrdered(v: Sessions, id: nat, now: int, memory: bool, newCtx: Option<nat>)
    requires Ordered(v, now)
    ensures Ordered(Acquire(v, id, now, memory, newCtx).1, now)
    ensures Ordered(AcquireExclusive(v, id, now, memory, newCtx).1, now)
  {
    var v1 := Swept(v, now);
    OrderedSweep(v, |v|, SCAN_LIMIT, now);
    OrderedFound(v1, id, now, memory);
    var (ok, v2) := FindOrCreate(v1, id, now, memory);
    if ok {
      OrderedEdit(v2, 0, Shared(v2[0], newCtx), now);
      OrderedEdit(v2, 0, Taken(v2[0], newCtx), now);
    }
  }

  lemma FlagOrdered(v: Sessions, id: nat, on: bool, now: int, memory: bool)
    requires Ordered(v, now)
    ensures Ordered(SetPartial(v, id, on, now, memory), now)
    ensures Ordered(SetDiversify(v, id, on, now, memory), now)
  {
    var w := Ensure(v, id, now, memory);
    if !Has(v, id) {
      OrderedFound(v, id, now, memory);
      var (ok, u) := FindOrCreate(v, id, now, memory);
      if ok {
        OrderedEdit(u, 0, Unref(u[0]), now);
      }
    }
    var k := Index(w, id);
    if k < |w| {
      OrderedEdit(w, k, w[k].(partial := on), now);
      OrderedEdit(w, k, w[k].(diversify := on), now);
    }
  }

  lemma ReleaseOrdered(v: Sessions, id: nat, now: int)
    requires Ordered(v, now)
    ensures Ordered(Release(v, id), now) && Ordered(ReleaseExclusive(v, id), now) && Ordered(Close(v, id), now)
  {
    var k := Index(v, id);
    if k < |v| {
      OrderedEdit(v, k, Released(v[k]), now);
      OrderedEdit(v, k, Unref(v[k].(busy := false)), now);
      OrderedWithout(v, k, now);
    }
  }

  lemma StepOrdered(w: World, ev: Event, last: int)
    requires Ordered(w.v, last) && last <= Clock(ev, last)
    ensures Ordered(Step(w, ev).v, Clock(ev, last))
  {
    OrderedLater(w.v, last, Clock(ev, last));
    match ev
    case PlainAcquire(id, now, memory, newCtx) => AcquireOrdered(w.v, id, now, memory, newCtx);
    case ExclusiveAcquire(id, now, memory, newCtx) => AcquireOrdered(w.v, id, now, memory, newCtx);
    case CloseId(id) => ReleaseOrdered(w.v, id, last);
    case WritePartial(id, on, now, memory) => FlagOrdered(w.v, id, on, now, memory);
    case WriteDiversify(id, on, now, memory) => FlagOrdered(w.v, id, on, now, memory);
    case GiveBack(i) =>
      if i < |w.holds| {
        ReleaseOrdered(w.v, w.holds[i].id, last);
      }
  }

  lemma {:induction false} RunOrdered(w: World, evs: seq<Event>, last: int) returns (end: int)
    requires Ordered(w.v, last) && ClockMonotone(last, evs)
    ensures end >= last && Ordered(Run(w, evs).v, end)
    decreases |evs|
  {
    if evs == [] {
      return last;
    }
    StepOrdered(w, evs[0], last);
    end := RunOrdered(Step(w, evs[0]), evs[1..], Clock(evs[0], last));
  }

  /** Under a clock that does not run backwards, a full table gives up its least recently used unpinned entry. */
  lemma EvictsOldest(evs: seq<Event>, last: int)
    requires ClockMonotone(last, evs)
    ensures var v := Run(START, evs).v;
            var k := LastUnpinned(v, |v|);
      Evicted(v).Some? ==> 0 <= k && Evicted(v).value == Without(v, k) && !Pinned(v[k])
                           && forall i :: 0 <= i < |v| && !Pinned(v[i]) ==> v[k].lastUsed <= v[i].lastUsed
  {
    var end := RunOrdered(START, evs, last);
  }
}
