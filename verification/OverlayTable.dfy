/**
 The overlay as the source keeps it: a fixed array of slots, a stamp counter and linear scans.
 Every method is proved against the operation of module Overlay that it performs.
 */
module OverlayTable {
  import opened Wrappers
  import opened ConfigKeys
  import opened Overlay
  import opened SeqFacts

  datatype Slot = Slot(used: bool, sid: nat, touched: nat, values: map<nat, string>)

  const FREE: Slot := Slot(false, 0, 0, map[])

  // ----- the slots in the order of their stamps -----

  /** `order` lists the slots in use, each once. */
  ghost predicate Lists(es: seq<Slot>, order: seq<nat>) {
    && |es| == MAX_SESSIONS
    && (forall i :: 0 <= i < |order| ==> order[i] < MAX_SESSIONS && es[order[i]].used)
    && (forall i, j :: 0 <= i < j < |order| ==> order[i] != order[j])
    && (forall s :: 0 <= s < MAX_SESSIONS && es[s].used ==> s in order)
  }

  /** The slots in use, the oldest first. */
  ghost function Held(es: seq<Slot>, order: seq<nat>): (h: seq<Slot>)
    requires Lists(es, order)
    ensures |h| == |order| && forall i :: 0 <= i < |h| ==> h[i] == es[order[i]]
  {
    seq(|order|, i requires 0 <= i < |order| => es[order[i]])
  }

  ghost predicate OneEach(h: seq<Slot>) {
    forall i, j :: 0 <= i < j < |h| ==> h[i].sid != h[j].sid
  }

  /** The first n carry rising stamps that the counter has given out. */
  ghost predicate Stamped(h: seq<Slot>, clock: nat, n: nat)
    requires n <= |h|
  {
    && (forall i, j :: 0 <= i < j < n ==> h[i].touched < h[j].touched)
    && (forall i :: 0 <= i < n ==> h[i].touched <= clock)
  }

  function RowOfSlot(slot: Slot): Row {
    Row(slot.sid, slot.values)
  }

  ghost function Rows(h: seq<Slot>): (v: Table)
    ensures |v| == |h| && forall i :: 0 <= i < |v| ==> v[i] == RowOfSlot(h[i])
  {
    seq(|h|, i requires 0 <= i < |h| => RowOfSlot(h[i]))
  }

  lemma SlotFound(es: seq<Slot>, order: seq<nat>, sid: nat, s: nat) returns (k: nat)
    requires Lists(es, order) && OneEach(Held(es, order)) && s < MAX_SESSIONS && es[s].used && es[s].sid == sid
    ensures k < |order| && order[k] == s && Find(Rows(Held(es, order)), sid) == k
  {
    k :| 0 <= k < |order| && order[k] == s;
    RowIs(Rows(Held(es, order)), sid, k);
  }

  lemma SlotMissing(es: seq<Slot>, order: seq<nat>, sid: nat)
    requires Lists(es, order) && forall s :: 0 <= s < MAX_SESSIONS && es[s].used ==> es[s].sid != sid
    ensures Find(Rows(Held(es, order)), sid) == |order|
  {
    var v := Rows(Held(es, order));
    assert forall k :: 0 <= k < |v| ==> v[k] == RowOfSlot(es[order[k]]);
  }

  // ----- counting -----

  function Below(n: nat): (s: set<nat>)
    ensures |s| == n && forall x: nat :: x in s <==> x < n
  {
    if n == 0 then {} else Below(n - 1) + {n - 1}
  }

  function Elements(order: seq<nat>): (s: set<nat>)
    ensures forall x: nat :: x in s <==> x in order
  {
    if order == [] then {} else {order[0]} + Elements(order[1..])
  }

  lemma {:induction false} ElementCount(order: seq<nat>)
    requires forall i, j :: 0 <= i < j < |order| ==> order[i] != order[j]
    ensures |Elements(order)| == |order|
  {
    if order != [] {
      ElementCount(order[1..]);
      assert order[0] !in Elements(order[1..]);
    }
  }

  lemma {:induction false} SmallerSet(a: set<nat>, b: set<nat>)
    requires a <= b
    ensures |a| <= |b|
    decreases a
  {
    if a != {} {
      var x :| x in a;
      SmallerSet(a - {x}, b - {x});
    }
  }

  lemma CountBelow(order: seq<nat>, s: nat)
    requires forall i, j :: 0 <= i < j < |order| ==> order[i] != order[j]
    requires forall i :: 0 <= i < |order| ==> order[i] < MAX_SESSIONS
    requires s < MAX_SESSIONS
    ensures |order| <= MAX_SESSIONS && (s !in order ==> |order| < MAX_SESSIONS)
  {
    ElementCount(order);
    SmallerSet(Elements(order), Below(MAX_SESSIONS));
    if s !in order {
      SmallerSet(Elements(order), Below(MAX_SESSIONS) - {s});
    }
  }

  lemma CountAll(order: seq<nat>)
    requires forall i, j :: 0 <= i < j < |order| ==> order[i] != order[j]
    requires forall s: nat :: s < MAX_SESSIONS ==> s in order
    ensures |order| >= MAX_SESSIONS
  {
    ElementCount(order);
    SmallerSet(Below(MAX_SESSIONS), Elements(order));
  }

  /** The list is full exactly when every slot is in use. */
  lemma FullTable(es: seq<Slot>, order: seq<nat>)
    requires Lists(es, order)
    ensures |order| <= MAX_SESSIONS
    ensures |order| == MAX_SESSIONS <==> forall s :: 0 <= s < MAX_SESSIONS ==> es[s].used
  {
    CountBelow(order, 0);
    if s :| 0 <= s < MAX_SESSIONS && !es[s].used {
      CountBelow(order, s);
    } else {
      CountAll(order);
    }
  }

  // ----- what a change of one slot does -----

  lemma HeldChanged(es: seq<Slot>, order: seq<nat>, es': seq<Slot>, order': seq<nat>, h: seq<Slot>)
    requires Lists(es', order') && |h| == |order'| && forall i :: 0 <= i < |h| ==> h[i] == es'[order'[i]]
    ensures Held(es', order') == h
  {
  }

  /** A slot that was free goes behind all others. */
  lemma Added(es: seq<Slot>, order: seq<nat>, s: nat, slot: Slot)
    requires Lists(es, order) && s < MAX_SESSIONS && !es[s].used && slot.used
    ensures var es', order' := es[s := slot], order + [s];
      Lists(es', order') && Held(es', order') == Held(es, order) + [slot]
  {
    var es', order' := es[s := slot], order + [s];
    assert forall i :: 0 <= i < |order| ==> order'[i] == order[i] && order[i] != s;
    forall t | 0 <= t < MAX_SESSIONS && es'[t].used
      ensures t in order'
    {
      assert t != s ==> t in order;
      assert order'[|order|] == s;
    }
    HeldChanged(es, order, es', order', Held(es, order) + [slot]);
  }

  lemma OrderWithout(order: seq<nat>, k: nat)
    requires k < |order| && forall i, j :: 0 <= i < j < |order| ==> order[i] != order[j]
    ensures var w := Without(order, k);
      && (forall i :: 0 <= i < |w| ==> w[i] != order[k])
      && (forall i, j :: 0 <= i < j < |w| ==> w[i] != w[j])
      && (forall t :: t in order && t != order[k] ==> t in w)
  {
    var w := Without(order, k);
    forall t | t in order && t != order[k]
      ensures t in w
    {
      var i :| 0 <= i < |order| && order[i] == t;
      assert w[if i < k then i else i - 1] == t;
    }
  }

  /** The k-th slot is freed. */
  lemma Freed(es: seq<Slot>, order: seq<nat>, k: nat, slot: Slot)
    requires Lists(es, order) && k < |order| && !slot.used
    ensures var es', order' := es[order[k] := slot], Without(order, k);
      Lists(es', order') && Held(es', order') == Without(Held(es, order), k)
  {
    var s, w := order[k], Without(order, k);
    var es' := es[s := slot];
    OrderWithout(order, k);
    hide Without;
    assert Lists(es', w);
    HeldChanged(es, order, es', w, Without(Held(es, order), k));
  }

  /** The k-th slot is rewritten and goes to the back. */
  lemma Moved(es: seq<Slot>, order: seq<nat>, k: nat, slot: Slot)
    requires Lists(es, order) && k < |order| && slot.used
    ensures var es', order' := es[order[k] := slot], Without(order, k) + [order[k]];
      Lists(es', order') && Held(es', order') == Without(Held(es, order), k) + [slot]
  {
    var s, w := order[k], Without(order, k);
    Freed(es, order, k, FREE);
    Added(es[s := FREE], w, s, slot);
    assert es[s := FREE][s := slot] == es[s := slot];
  }

  /** The last slot is rewritten in place. */
  lemma Sealed(es: seq<Slot>, order: seq<nat>, slot: Slot)
    requires Lists(es, order) && order != [] && slot.used
    ensures var n := |order| - 1; var es' := es[order[n] := slot];
      Lists(es', order) && Held(es', order) == Held(es, order)[..n] + [slot]
  {
    var n := |order| - 1;
    Moved(es, order, n, slot);
    assert Without(order, n) + [order[n]] == order;
    assert Without(Held(es, order), n) == Held(es, order)[..n];
  }

  // The same for the order's properties, on the slots alone.

  lemma BehindOrdered(h: seq<Slot>, clock: nat, slot: Slot)
    requires OneEach(h) && Stamped(h, clock, |h|) && forall i :: 0 <= i < |h| ==> h[i].sid != slot.sid
    ensures OneEach(h + [slot]) && Stamped(h + [slot], clock, |h|)
    ensures slot.touched == clock + 1 ==> Stamped(h + [slot], clock + 1, |h| + 1)
    ensures Rows(h + [slot]) == Rows(h) + [RowOfSlot(slot)]
  {
    var w := h + [slot];
    assert forall i :: 0 <= i < |h| ==> w[i] == h[i];
    assert Rows(w) == Rows(h) + [RowOfSlot(slot)];
  }

  lemma WithoutOrdered(h: seq<Slot>, clock: nat, k: nat)
    requires OneEach(h) && Stamped(h, clock, |h|) && k < |h|
    ensures OneEach(Without(h, k)) && Stamped(Without(h, k), clock, |h| - 1)
    ensures forall i :: 0 <= i < |h| - 1 ==> Without(h, k)[i].sid != h[k].sid
    ensures Rows(Without(h, k)) == Without(Rows(h), k)
  {
    hide Without;
    WithoutAt(h, k);
    WithoutAt(Rows(h), k);
    assert Rows(Without(h, k)) == Without(Rows(h), k);
  }

  lemma FrontOrdered(h: seq<Slot>, clock: nat, slot: Slot)
    requires h != [] && OneEach(h) && Stamped(h, clock, |h| - 1) && slot.sid == h[|h| - 1].sid
    ensures var w := h[..|h| - 1];
      && OneEach(w) && Stamped(w, clock, |w|) && (forall i :: 0 <= i < |w| ==> w[i].sid != slot.sid)
      && Rows(w) == Rows(h)[..|h| - 1]
  {
    assert Rows(h[..|h| - 1]) == Rows(h)[..|h| - 1];
  }

  // ----- the table -----

  class Slots {
    const entries: array<Slot>
    var clock: nat
    var count: nat
    /** The slots in use in the order of their stamps, the oldest first. */
    ghost var order: seq<nat>

    ghost predicate Listed()
      reads this, entries
    {
      && entries.Length == MAX_SESSIONS && Lists(entries[..], order) && OneEach(Held(entries[..], order))
      && count == |order|
    }

    ghost predicate Valid()
      reads this, entries
    {
      Listed() && Stamped(Held(entries[..], order), clock, |order|)
    }

    /** All but the last entry are stamped, as between finding an entry and storing in it. */
    ghost predicate Open()
      reads this, entries
    {
      Listed() && order != [] && Stamped(Held(entries[..], order), clock, |order| - 1)
    }

    ghost function View(): (v: Table)
      reads this, entries
      requires Listed()
      ensures |v| == |order|
    {
      Rows(Held(entries[..], order))
    }

    constructor ()
      ensures Valid() && View() == [] && fresh(entries)
    {
      entries := new Slot[256](_ => FREE);
      clock, count, order := 0, 0, [];
    }

    /** `find_entry`: the slot of the session, or 256. */
    method FindEntry(sid: nat) returns (i: nat, ghost k: nat)
      requires Valid()
      ensures i <= MAX_SESSIONS && k == Find(View(), sid)
      ensures i < MAX_SESSIONS ==> k < |order| && order[k] == i
      ensures i == MAX_SESSIONS ==> k == |order|
    {
      i := 0;
      while i < 256
        invariant i <= 256 && forall s :: 0 <= s < i && entries[s].used ==> entries[s].sid != sid
      {
        if entries[i].used && entries[i].sid == sid {
          k := SlotFound(entries[..], order, sid, i);
          return;
        }
        i := i + 1;
      }
      SlotMissing(entries[..], order, sid);
      k := |order|;
    }

    /** The first slot not in use, or 256. */
    method FindFree() returns (i: nat)
      requires Valid()
      ensures i <= MAX_SESSIONS && (i < MAX_SESSIONS <==> |order| < MAX_SESSIONS)
      ensures i < MAX_SESSIONS ==> !entries[i].used
    {
      FullTable(entries[..], order);
      i := 0;
      while i < 256
        invariant i <= 256 && forall s :: 0 <= s < i ==> entries[s].used
      {
        if !entries[i].used { return; }
        i := i + 1;
      }
    }

    /** The entry with the smallest stamp of a full table. */
    method Oldest() returns (o: nat)
      requires Valid() && |order| == MAX_SESSIONS
      ensures o == order[0] && o < entries.Length
    {
      FullTable(entries[..], order);
      o := 0;
      var i := 1;
      while i < 256
        invariant 1 <= i <= 256 && o < i && forall s :: 0 <= s < i ==> entries[o].touched <= entries[s].touched
      {
        if entries[i].touched < entries[o].touched { o := i; }
        i := i + 1;
      }
      ghost var h := Held(entries[..], order);
      ghost var j :| 0 <= j < |order| && order[j] == o;
      assert h[j].touched <= h[0].touched;
    }

    /** The k-th entry goes to the back of the order, with other contents if it is reclaimed. */
    lemma Reordered(slot: Slot, k: nat)
      requires Valid() && k < |order| && slot.used
      requires forall j :: 0 <= j < |order| && j != k ==> View()[j].sid != slot.sid
      ensures var es', order' := entries[..][order[k] := slot], Without(order, k) + [order[k]];
        && Lists(es', order') && |order'| == |order|
        && OneEach(Held(es', order')) && Stamped(Held(es', order'), clock, |order| - 1)
        && Rows(Held(es', order')) == Without(View(), k) + [RowOfSlot(slot)]
    {
      var h := Held(entries[..], order);
      WithoutOrdered(h, clock, k);
      Moved(entries[..], order, k, slot);
      assert forall j :: 0 <= j < |h| && j != k ==> h[j].sid != slot.sid by {
        assert forall j :: 0 <= j < |h| ==> View()[j] == RowOfSlot(h[j]);
      }
      assert forall j :: 0 <= j < |h| - 1 ==> Without(h, k)[j].sid != slot.sid;
      BehindOrdered(Without(h, k), clock, slot);
    }

    /** `new_entry` for a session without an entry, while there is a free slot. */
    method Append(i: nat, sid: nat)
      requires Valid() && i < MAX_SESSIONS && !entries[i].used && Find(View(), sid) == |order|
      modifies this, entries
      ensures Open() && order[|order| - 1] == i && entries[i].sid == sid && View() == old(View()) + [Row(sid, map[])]
    {
      ghost var h, slot := Held(entries[..], order), Slot(true, sid, 0, map[]);
      assert forall j :: 0 <= j < |h| ==> h[j].sid == View()[j].sid;
      Added(entries[..], order, i, slot);
      BehindOrdered(h, clock, slot);
      entries[i] := Slot(true, sid, 0, map[]);
      count := count + 1;
      order := order + [i];
      assert entries[..] == old(entries[..])[i := slot];
    }

    /** The end of `new_entry`: the oldest entry of a full table is cleared for the session. */
    method Reclaim(sid: nat) returns (i: nat)
      requires Valid() && |order| == MAX_SESSIONS && Find(View(), sid) == |order|
      modifies this, entries
      ensures Open() && order[|order| - 1] == i && entries[i].sid == sid
      ensures View() == old(View())[1..] + [Row(sid, map[])]
    {
      hide Lists, OneEach, Rows;
      i := Oldest();
      ghost var slot := Slot(true, sid, clock + 1, map[]);
      Reordered(slot, 0);
      entries[i] := Slot(true, sid, clock + 1, map[]);
      clock := clock + 1;
      order := Without(order, 0) + [i];
      assert entries[..] == old(entries[..])[i := slot];
      assert Without(old(View()), 0) == old(View())[1..];
    }

    /** `new_entry`: the session's own entry, a free one, or the oldest, cleared. */
    method NewEntry(sid: nat) returns (i: nat)
      requires Valid()
      modifies this, entries
      ensures Open() && order[|order| - 1] == i && entries[i].sid == sid
      ensures var v, k := old(View()), Find(old(View()), sid);
        View() == if k < |v| then Without(v, k) + [v[k]]
                  else (if |v| < MAX_SESSIONS then v else v[1..]) + [Row(sid, map[])]
    {
      hide Lists, Held, Rows, OneEach, Stamped, Find;
      FullTable(entries[..], order);
      ghost var k;
      i, k := FindEntry(sid);
      if i < 256 {
        OwnEntry(i, k);
        Reordered(entries[i], k);
        assert entries[..][i := entries[i]] == entries[..];
        order := Without(order, k) + [i];
        return;
      }
      i := FindFree();
      if i < 256 {
        Append(i, sid);
      } else {
        i := Reclaim(sid);
      }
    }

    lemma OwnEntry(i: nat, k: nat)
      requires Valid() && k < |order| && order[k] == i
      ensures i < MAX_SESSIONS && entries[i].used && RowOfSlot(entries[i]) == View()[k]
      ensures forall j :: 0 <= j < |order| && j != k ==> View()[j].sid != entries[i].sid
    {
      var h := Held(entries[..], order);
      assert forall j :: 0 <= j < |h| ==> View()[j] == RowOfSlot(h[j]);
      assert h[k] == entries[i];
    }

    /** The end of every touching operation: the values and the next stamp. */
    method Seal(i: nat, values: map<nat, string>)
      requires Open() && i == order[|order| - 1]
      modifies this`clock, entries
      ensures Valid() && View() == old(View())[..|order| - 1] + [Row(old(entries[i].sid), values)]
    {
      ghost var h, slot := Held(entries[..], order), entries[i].(touched := clock + 1, values := values);
      Sealed(entries[..], order, slot);
      FrontOrdered(h, clock, slot);
      BehindOrdered(h[..|order| - 1], clock, slot);
      entries[i] := entries[i].(touched := clock + 1, values := values);
      clock := clock + 1;
      assert entries[..] == old(entries[..])[i := slot];
    }

    /** `fractal_config_set_value`; the result is its return code and reason. */
    method SetValue(sid: nat, name: string, value: string) returns (refusal: Option<Refusal>)
      requires Valid()
      modifies this, entries
      ensures Valid() && refusal == Refused(name, value)
      ensures View() == Overlay.SetValue(old(View()), sid, name, value)
    {
      hide Lists, Held, Rows, OneEach, Stamped, Find, KeyId, ValueOk, KEYS;
      var id := KeyId(name);
      if id.None? { return Some(UnknownKey); }
      if !KEYS[id.value].sessionOk { return Some(DaemonWide); }
      if !ValueOk(KEYS[id.value], value) { return Some(BadValue); }
      if value != "" {
        StoreValue(sid, id.value, value);
      } else {
        UnsetValue(sid, id.value);
      }
      return None;
    }

    method StoreValue(sid: nat, key: nat, value: string)
      requires Valid()
      modifies this, entries
      ensures Valid() && View() == Store(old(View()), sid, key, value)
    {
      hide Lists, Held, Rows, OneEach, Stamped, Find, Without;
      FullTable(entries[..], order);
      hide MAX_SESSIONS, Store, RowOfSlot;
      ghost var v := View();
      var i := NewEntry(sid);
      ghost var w := View();
      LastRow(i);
      StoreIs(v, w, sid, key, value);
      Seal(i, entries[i].values[key := value]);
    }

    lemma LastRow(i: nat)
      requires Open() && i == order[|order| - 1]
      ensures i < entries.Length && View()[|order| - 1] == Row(entries[i].sid, entries[i].values)
    {
    }

    method UnsetValue(sid: nat, key: nat)
      requires Valid()
      modifies this, entries
      ensures Valid() && View() == Unset(old(View()), sid, key)
    {
      hide Lists, Held, Rows, OneEach, Stamped, Find, Without;
      ghost var v := View();
      var i; ghost var k;
      i, k := FindEntry(sid);
      if i == 256 { return; }
      Restamp(i, k, entries[i].values - {key});
    }

    /** An entry is touched, with new values. */
    method Restamp(i: nat, ghost k: nat, values: map<nat, string>)
      requires Valid() && k < |order| && order[k] == i
      modifies this, entries
      ensures Valid() && View() == ToBack(old(View()), k, Row(old(View())[k].sid, values))
    {
      hide Lists, Held, Rows, OneEach, Stamped, Without;
      ghost var v := View();
      OwnEntry(i, k);
      Reordered(entries[i], k);
      assert entries[..][i := entries[i]] == entries[..];
      order := Without(order, k) + [i];
      Seal(i, values);
      assert (Without(v, k) + [v[k]])[..|v| - 1] == Without(v, k);
    }

    /** `fractal_config_lookup_str` into a buffer that holds any value. */
    method Lookup(sid: nat, key: nat, cap: nat) returns (found: Option<string>)
      requires Valid() && cap > 0
      modifies this, entries
      ensures Valid() && found == Fetched(old(View()), sid, key, cap) && View() == Looked(old(View()), sid, key)
    {
      hide Lists, Held, Rows, OneEach, Stamped, Find, Without;
      var i; ghost var k;
      i, k := FindEntry(sid);
      if i == 256 { return None; }
      OwnEntry(i, k);
      if key !in entries[i].values { return None; }
      found := Some(Clipped(entries[i].values[key], cap));
      Restamp(i, k, entries[i].values);
    }

    /** `free_entry`. */
    method FreeEntry(i: nat, ghost k: nat)
      requires Valid() && k < |order| && order[k] == i
      modifies this, entries
      ensures Valid() && View() == Without(old(View()), k)
      ensures forall t :: 0 <= t < MAX_SESSIONS && entries[t].used ==> entries[t].sid != old(entries[i].sid)
    {
      ghost var h, slot := Held(entries[..], order), FREE.(touched := entries[i].touched);
      Freed(entries[..], order, k, slot);
      WithoutOrdered(h, clock, k);
      entries[i] := Slot(false, 0, entries[i].touched, map[]);
      if count > 0 { count := count - 1; }
      order := Without(order, k);
      assert entries[..] == old(entries[..])[i := slot];
      NoneLeft(old(entries[i].sid), Without(h, k));
    }

    lemma NoneLeft(sid: nat, h: seq<Slot>)
      requires Listed() && h == Held(entries[..], order) && forall j :: 0 <= j < |h| ==> h[j].sid != sid
      ensures forall t :: 0 <= t < MAX_SESSIONS && entries[t].used ==> entries[t].sid != sid
    {
      forall t | 0 <= t < MAX_SESSIONS && entries[t].used
        ensures entries[t].sid != sid
      {
        var j :| 0 <= j < |order| && order[j] == t;
        assert h[j] == entries[t];
      }
    }

    /** `fractal_config_reset_session`: how many overrides it dropped. */
    method ResetSession(sid: nat) returns (dropped: nat)
      requires Valid()
      modifies this, entries
      ensures Valid() && View() == Reset(old(View()), sid)
      ensures dropped == match RowOf(old(View()), sid)
        case None => 0
        case Some(row) => |row.values|
    {
      hide Lists, Held, Rows, OneEach, Stamped, Find, Without;
      ghost var v := View();
      ghost var gone := false;
      dropped := 0;
      var s := 0;
      while s < 256
        invariant s <= 256 && Valid()
        invariant !gone ==> View() == v && dropped == 0
        invariant gone ==> Find(v, sid) < |v| && View() == Without(v, Find(v, sid)) && dropped == |v[Find(v, sid)].values|
        invariant forall t :: 0 <= t < (if gone then 256 else s) && entries[t].used ==> entries[t].sid != sid
      {
        if entries[s].used && entries[s].sid == sid {
          ghost var k := SlotOf(sid, s);
          OwnEntry(s, k);
          dropped := dropped + |entries[s].values|;
          FreeEntry(s, k);
          gone := true;
        }
        s := s + 1;
      }
      if !gone { SlotMissing(entries[..], order, sid); }
    }

    lemma SlotOf(sid: nat, s: nat) returns (k: nat)
      requires Valid() && s < MAX_SESSIONS && entries[s].used && entries[s].sid == sid
      ensures k < |order| && order[k] == s && Find(View(), sid) == k
    {
      k := SlotFound(entries[..], order, sid, s);
    }
  }

  lemma StoreIs(v: Table, w: Table, sid: nat, key: nat, value: string)
    requires var k := Find(v, sid);
      w == if k < |v| then Without(v, k) + [v[k]] else (if |v| < MAX_SESSIONS then v else v[1..]) + [Row(sid, map[])]
    requires |v| <= MAX_SESSIONS
    ensures w != []
    ensures w[..|w| - 1] + [Row(sid, w[|w| - 1].values[key := value])] == Store(v, sid, key, value)
  {
    var k := Find(v, sid);
    assert map[][key := value] == map[key := value];
    if k < |v| {
      assert w[..|w| - 1] == Without(v, k);
    } else {
      assert w[..|w| - 1] == if |v| < MAX_SESSIONS then v else v[1..];
    }
  }
}
