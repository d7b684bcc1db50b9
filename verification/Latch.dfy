/**
 The destructive-ledger latch of src/fractalsql_session.c: a ring of the session ids that are locked,
 and exactly how long an id stays in it.
 */
module Latch {
  import SeqFacts

  const RING: nat := 16384

  /** The locked ids, the one to be overwritten first at the front. */
  type Ids = seq<nat>

  /** `fractal_session_lock_destructive`: an id already there keeps its place. */
  function Lock(v: Ids, id: nat): Ids {
    if id in v then v else if |v| < RING then v + [id] else v[1..] + [id]
  }

  class Ring {
    const ids: array<nat>
    var n: nat
    var head: nat

    ghost predicate Valid()
      reads this
    {
      ids.Length == RING && n <= RING && head < RING && (n < RING ==> head == n)
    }

    ghost function View(): (v: Ids)
      reads this, ids
      requires Valid()
      ensures |v| == n
    {
      if n < RING then ids[..n] else ids[head..] + ids[..head]
    }

    constructor ()
      ensures Valid() && View() == [] && fresh(ids)
    {
      ids := new nat[16384];
      n, head := 0, 0;
    }

    /** The scan both functions open with. */
    method Present(id: nat) returns (present: bool)
      requires Valid()
      ensures present <==> id in View()
    {
      var i := 0;
      while i < n
        invariant i <= n && id !in ids[..i]
      {
        if ids[i] == id {
          InView(i);
          return true;
        }
        assert ids[..i + 1] == ids[..i] + [ids[i]];
        i := i + 1;
      }
      NotInView(id);
      return false;
    }

    lemma InView(i: nat)
      requires Valid() && i < n
      ensures ids[i] in View()
    {
      if n == RING {
        if i < head {
          assert ids[..head][i] == ids[i];
        } else {
          assert ids[head..][i - head] == ids[i];
        }
      } else {
        assert ids[..n][i] == ids[i];
      }
    }

    lemma NotInView(id: nat)
      requires Valid() && id !in ids[..n]
      ensures id !in View()
    {
      if n == RING {
        forall i | 0 <= i < RING
          ensures ids[i] != id
        {
          assert ids[..n][i] == ids[i];
        }
      }
    }

    method LockDestructive(id: nat)
      requires Valid()
      modifies this, ids
      ensures Valid() && View() == Lock(old(View()), id)
    {
      var present := Present(id);
      if present { return; }
      ghost var was := ids[..];
      ids[head] := id;
      head := (head + 1) % RING;
      if n < RING {
        n := n + 1;
      }
      RingMoved(was, old(n), old(head), id);
    }

    lemma RingMoved(was: seq<nat>, n0: nat, head0: nat, id: nat)
      requires Valid() && |was| == RING && n0 <= RING && head0 < RING && (n0 < RING ==> head0 == n0)
      requires ids[..] == was[head0 := id] && head == (head0 + 1) % RING && n == (if n0 < RING then n0 + 1 else n0)
      ensures View() == (if n0 < RING then was[..n0] else (was[head0..] + was[..head0])[1..]) + [id]
    {
      if n0 == RING {
        assert (was[head0..] + was[..head0])[1..] == was[head0 + 1..] + was[..head0];
        if head0 + 1 == RING {
          assert View() == was[..head0] + [id];
        } else {
          assert ids[head..] == was[head0 + 1..] && ids[..head] == was[..head0] + [id];
          SeqFacts.Assoc(was[head0 + 1..], was[..head0], [id]);
        }
      } else if n == RING {
        assert View() == was[..n0] + [id];
      }
    }

    method DestructiveLocked(id: nat) returns (locked: bool)
      requires Valid()
      ensures locked <==> id in View()
    {
      locked := Present(id);
    }
  }

  // ----- how long an id stays -----

  function LockAll(v: Ids, ids: seq<nat>): Ids
    decreases |ids|
  {
    if ids == [] then v else LockAll(Lock(v, ids[0]), ids[1..])
  }

  /** How many of the ids were not locked when their turn came. */
  function Insertions(v: Ids, ids: seq<nat>): nat
    decreases |ids|
  {
    if ids == [] then 0 else (if ids[0] in v then 0 else 1) + Insertions(Lock(v, ids[0]), ids[1..])
  }

  predicate NoRepeats(v: Ids) {
    forall i, j :: 0 <= i < j < |v| ==> v[i] != v[j]
  }

  lemma LockKeeps(v: Ids, id: nat)
    requires NoRepeats(v) && |v| <= RING
    ensures NoRepeats(Lock(v, id)) && |Lock(v, id)| <= RING && id in Lock(v, id)
  {
    if id !in v {
      var w := Lock(v, id);
      var base := if |v| < RING then v else v[1..];
      assert forall i :: 0 <= i < |base| ==> w[i] == base[i];
      assert w[|base|] == id;
    }
  }

  /** How many insertions an id at place p outlives. */
  lemma {:induction false} StaysFor(v: Ids, p: nat, ids: seq<nat>)
    requires NoRepeats(v) && |v| <= RING && p < |v| && v[p] !in ids
    ensures v[p] in LockAll(v, ids) <==> |v| + Insertions(v, ids) <= RING + p
    decreases |ids|
  {
    if ids == [] {
    } else {
      var w := Lock(v, ids[0]);
      LockKeeps(v, ids[0]);
      if ids[0] in v || |v| < RING {
        assert w[p] == v[p];
        StaysFor(w, p, ids[1..]);
      } else if p > 0 {
        assert w[p - 1] == v[p];
        StaysFor(w, p - 1, ids[1..]);
      } else {
        assert v[0] !in w;
        StaysOut(w, v[0], ids[1..]);
      }
    }
  }

  lemma {:induction false} StaysOut(v: Ids, id: nat, ids: seq<nat>)
    requires id !in v && id !in ids
    ensures id !in LockAll(v, ids)
    decreases |ids|
  {
    if ids != [] {
      StaysOut(Lock(v, ids[0]), id, ids[1..]);
    }
  }

  /** An id that has just been inserted stays locked for the next 16383 insertions and goes with the 16384th. */
  lemma LockedUntilOverwritten(v: Ids, id: nat, ids: seq<nat>)
    requires NoRepeats(v) && |v| <= RING && id !in v && id !in ids
    ensures id in LockAll(Lock(v, id), ids) <==> Insertions(Lock(v, id), ids) < RING
  {
    var w := Lock(v, id);
    LockKeeps(v, id);
    assert w[|w| - 1] == id;
    StaysFor(w, |w| - 1, ids);
  }
}
