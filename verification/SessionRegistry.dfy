/**
 The heap of src/fractalsql_session.c: 1024 bucket chains and one doubly linked list through the
 same entries. `View` is the list as a value; every operation is proved to compute the function
 of SessionModel on it while both structures stay in step.
 */
module SessionRegistry {
  import opened Wrappers
  import opened SessionModel
  import opened SeqFacts

  const BUCKETS: nat := 1024

  class Entry {
    const id: nat
    var ctx: Option<nat>
    var refcount: nat
    var busy: bool
    var shared: nat
    var lastUsed: int
    var partial: bool
    var diversify: bool
    var bucketNext: Entry?
    var lruPrev: Entry?
    var lruNext: Entry?

    constructor (sessionId: nat, now: int)
      ensures id == sessionId && Snap() == NewSession(sessionId, now)
      ensures bucketNext == null && lruPrev == null && lruNext == null
    {
      id, ctx, refcount, busy, shared := sessionId, None, 1, false, 0;
      lastUsed, partial, diversify := now, false, false;
      bucketNext, lruPrev, lruNext := null, null, null;
    }

    /** What `find_or_create_entry_locked` does to an entry it finds. */
    method Use(now: int)
      modifies this`refcount, this`lastUsed
      ensures Snap() == Used(old(Snap()), now)
    {
      refcount := refcount + 1;
      lastUsed := now;
    }

    /** The last part of `fractal_session_acquire`. */
    method Share(newCtx: Option<nat>) returns (c: Option<nat>)
      modifies this`ctx, this`shared, this`refcount
      ensures Snap() == Shared(old(Snap()), newCtx) && c == CtxOf(old(Snap()), newCtx)
    {
      if ctx.None? {
        ctx := newCtx;
        if ctx.None? {
          DropRef();
          return None;
        }
      }
      shared := shared + 1;
      return ctx;
    }

    /** The last part of `fractal_session_acquire_exclusive`. */
    method Take(newCtx: Option<nat>) returns (c: Option<nat>)
      modifies this`ctx, this`busy, this`refcount
      ensures Snap() == Taken(old(Snap()), newCtx) && c == CtxOf(old(Snap()), newCtx)
    {
      busy := true;
      if ctx.None? {
        ctx := newCtx;
        if ctx.None? {
          DropRef();
          busy := false;
          return None;
        }
      }
      return ctx;
    }

    /** What `fractal_session_release` does to the entry it finds. */
    method GiveBack()
      modifies this`shared, this`refcount
      ensures Snap() == Released(old(Snap()))
    {
      if shared > 0 {
        shared := shared - 1;
      }
      DropRef();
    }

    method DropRef()
      modifies this`refcount
      ensures Snap() == Unref(old(Snap()))
    {
      if refcount > 0 {
        refcount := refcount - 1;
      }
    }

    /** What `fractal_session_release_exclusive` does to it. */
    method GiveBackExclusive()
      modifies this`busy, this`refcount
      ensures Snap() == Unref(old(Snap()).(busy := false))
    {
      busy := false;
      DropRef();
    }

    ghost function Snap(): Session
      reads this`ctx, this`refcount, this`busy, this`shared, this`lastUsed, this`partial, this`diversify
    {
      Session(id, ctx, refcount, busy, shared, lastUsed, partial, diversify)
    }
  }

  /** The reference at position i of a list, null past either end. */
  function Ref(s: seq<Entry>, i: int): Entry? {
    if 0 <= i < |s| then s[i] else null
  }

  ghost function Snaps(es: seq<Entry>): (v: Sessions)
    reads es`ctx, es`refcount, es`busy, es`shared, es`lastUsed, es`partial, es`diversify
    ensures |v| == |es|
    decreases |es|
  {
    if es == [] then [] else [es[0].Snap()] + Snaps(es[1..])
  }

  lemma SnapsAt(es: seq<Entry>)
    ensures forall i :: 0 <= i < |es| ==> Snaps(es)[i] == es[i].Snap()
    decreases |es|
  {
    if es != [] {
      SnapsAt(es[1..]);
    }
  }

  function Bucket(id: nat): (b: nat)
    ensures b < BUCKETS
  {
    id % BUCKETS
  }

  /** One chain: it starts at `first`, follows bucketNext, and holds entries of bucket b with distinct ids. */
  ghost predicate ChainLinks(c: seq<Entry>, b: nat, first: Entry?)
    reads c`bucketNext
  {
    && first == Ref(c, 0)
    && (forall i {:trigger c[i].bucketNext} :: 0 <= i < |c| ==> c[i].bucketNext == Ref(c, i + 1))
    && (forall i :: 0 <= i < |c| ==> Bucket(c[i].id) == b)
    && (forall i, j :: 0 <= i < j < |c| ==> c[i].id != c[j].id)
  }

  ghost predicate Within(c: seq<Entry>, s: set<Entry>) {
    forall i :: 0 <= i < |c| ==> c[i] in s
  }

  /** Chain c is bucket b's part of the entries s. */
  ghost predicate BucketOk(c: seq<Entry>, b: nat, first: Entry?, s: set<Entry>)
    reads c`bucketNext
  {
    && ChainLinks(c, b, first)
    && Within(c, s)
    && (forall e :: e in s && Bucket(e.id) == b ==> e in c)
  }

  /** Taking an entry of another bucket out of the set, or putting one in, is of no concern to bucket b. */
  lemma OtherBucket(c: seq<Entry>, b: nat, first: Entry?, s: set<Entry>, e: Entry)
    requires BucketOk(c, b, first, s) && Bucket(e.id) != b
    ensures BucketOk(c, b, first, s - {e}) && BucketOk(c, b, first, s + {e})
    ensures e !in c
  {
  }

  lemma CutBucket(c: seq<Entry>, i: nat, b: nat, first: Entry?, s: set<Entry>)
    requires i < |c| && ChainLinks(Without(c, i), b, first)
    requires Within(c, s) && (forall e :: e in s && Bucket(e.id) == b ==> e in c)
    requires forall j, k :: 0 <= j < k < |c| ==> c[j] != c[k]
    ensures BucketOk(Without(c, i), b, first, s - {c[i]})
  {
    MovedOut(c, i);
  }

  ghost predicate Distinct<T>(l: seq<T>) {
    forall i, j :: 0 <= i < j < |l| ==> l[i] != l[j]
  }

  ghost predicate Forward(l: seq<Entry>, head: Entry?)
    reads l`lruNext
  {
    && head == Ref(l, 0)
    && (forall i {:trigger l[i].lruNext} :: 0 <= i < |l| ==> l[i].lruNext == Ref(l, i + 1))
  }

  ghost predicate Backward(l: seq<Entry>, tail: Entry?)
    reads l`lruPrev
  {
    && tail == Ref(l, |l| - 1)
    && (forall i {:trigger l[i].lruPrev} :: 0 <= i < |l| ==> l[i].lruPrev == Ref(l, i - 1))
  }

  ghost predicate ListLinks(l: seq<Entry>, head: Entry?, tail: Entry?)
    reads l`lruPrev, l`lruNext
  {
    Distinct(l) && Forward(l, head) && Backward(l, tail)
  }

  lemma DistinctWithout<T>(l: seq<T>, k: nat)
    requires k < |l| && Distinct(l)
    ensures Distinct(Without(l, k)) && l[k] !in Without(l, k)
  {
    MovedOut(l, k);
  }

  lemma SnapsWithout(es: seq<Entry>, k: nat)
    requires k < |es|
    ensures Snaps(Without(es, k)) == Without(Snaps(es), k)
  {
    SnapsAt(es);
    SnapsAt(Without(es, k));
  }

  twostate lemma SnapsAtOld(es: seq<Entry>)
    ensures forall i :: 0 <= i < |es| ==> old(Snaps(es))[i] == old(es[i].Snap())
    decreases |es|
  {
    if es != [] {
      SnapsAtOld(es[1..]);
    }
  }

  twostate lemma SnapsWithoutOld(es: seq<Entry>, new k: nat)
    requires k < |es|
    ensures old(Snaps(Without(es, k))) == Without(old(Snaps(es)), k)
  {
    hide Snaps;
    var a, b := old(Snaps(Without(es, k))), Without(old(Snaps(es)), k);
    SnapsAtOld(es);
    SnapsAtOld(Without(es, k));
    forall i | 0 <= i < |a|
      ensures a[i] == b[i]
    {
      assert a[i] == old(Without(es, k)[i].Snap());
      assert b[i] == old(Snaps(es))[if i < k then i else i + 1];
    }
  }

  twostate lemma SnapsSame(es: seq<Entry>)
    requires forall j :: 0 <= j < |es| ==> es[j].Snap() == old(es[j].Snap())
    ensures Snaps(es) == old(Snaps(es))
  {
    SnapsAt(es);
    SnapsAtOld(es);
  }

  lemma SnapsCons(e: Entry, es: seq<Entry>)
    ensures Snaps([e] + es) == [e.Snap()] + Snaps(es)
  {
    assert ([e] + es)[1..] == es;
  }

  /** Writing the fields of one entry changes one place of the list. */
  twostate lemma OneChanged(es: seq<Entry>, new k: nat)
    requires k < |es|
    requires forall j :: 0 <= j < |es| && j != k ==> es[j].Snap() == old(es[j].Snap())
    ensures Snaps(es) == old(Snaps(es))[k := es[k].Snap()]
  {
    SnapsAt(es);
    SnapsAtOld(es);
  }

  class Registry {
    const buckets: array<Entry?>
    var lruHead: Entry?
    var lruTail: Entry?
    var count: nat
    /** The entries, most recently used first. */
    ghost var lru: seq<Entry>
    /** The entries of each bucket, in chain order. */
    ghost var chains: seq<seq<Entry>>
    /** The entries the buckets hold. */
    ghost var entries: set<Entry>

    /** The list: every link and both ends agree with `lru`. */
    ghost predicate LruOk()
      reads this`lru, this`lruHead, this`lruTail, lru`lruPrev, lru`lruNext
    {
      ListLinks(lru, lruHead, lruTail)
    }

    /** The hash table: the chains hold exactly `entries`, each in the bucket of its id. */
    ghost predicate BucketsOk()
      reads this`chains, this`entries, buckets, entries`bucketNext
    {
      && buckets.Length == BUCKETS && |chains| == BUCKETS
      && (forall b :: 0 <= b < BUCKETS ==> Within(chains[b], entries))
      && (forall b :: 0 <= b < BUCKETS ==> BucketOk(chains[b], b, buckets[b], entries))
    }

    ghost predicate Valid()
      reads this, buckets, entries`bucketNext, lru`lruPrev, lru`lruNext
    {
      && BucketsOk() && LruOk()
      && (forall e :: e in entries ==> e in lru)
      && (forall e :: e in lru ==> e in entries)
      && count == |lru|
    }

    ghost function View(): Sessions
      reads this`lru, lru
    {
      Snaps(lru)
    }

    constructor ()
      ensures Valid() && fresh(buckets) && entries == {} && View() == []
    {
      buckets := new Entry?[BUCKETS](_ => null);
      lruHead, lruTail, count := null, null, 0;
      lru, chains, entries := [], seq(BUCKETS, _ => []), {};
    }

    /** No two entries share an id. */
    lemma IdsUnique(e: Entry, f: Entry)
      requires BucketsOk() && e in entries && f in entries && e.id == f.id
      ensures e == f
    {
      var c := chains[Bucket(e.id)];
      var i :| 0 <= i < |c| && c[i] == e;
      var j :| 0 <= j < |c| && c[j] == f;
      assert BucketOk(c, Bucket(e.id), buckets[Bucket(e.id)], entries);
    }

    /** `find_entry`. */
    method FindEntry(id: nat) returns (e: Entry?)
      requires BucketsOk()
      ensures e != null ==> e in entries && e.id == id
      ensures e == null ==> forall x :: x in entries ==> x.id != id
    {
      var b := Bucket(id);
      ghost var c := chains[b];
      ghost var i := 0;
      e := buckets[b];
      assert BucketOk(c, b, buckets[b], entries);
      while e != null
        invariant i <= |c| && e == Ref(c, i)
        invariant forall j :: 0 <= j < i ==> c[j].id != id
        decreases |c| - i
      {
        if e.id == id { return; }
        e, i := e.bucketNext, i + 1;
      }
    }

    /** The walk of `bucket_unlink`: the entry before e in its chain, null when the bucket points to e. */
    method FindSlot(e: Entry) returns (prev: Entry?, ghost i: nat)
      requires BucketsOk() && e in entries
      ensures i < |chains[Bucket(e.id)]| && chains[Bucket(e.id)][i] == e
      ensures prev == Ref(chains[Bucket(e.id)], i - 1)
    {
      var b := Bucket(e.id);
      ghost var c := chains[b];
      assert BucketOk(c, b, buckets[b], entries);
      i, prev := 0, null;
      var slot := buckets[b];
      while slot != null && slot != e
        invariant i <= |c| && slot == Ref(c, i) && prev == Ref(c, i - 1)
        invariant forall j :: 0 <= j < i ==> c[j] != e
        decreases |c| - i
      {
        prev, slot, i := slot, slot.bucketNext, i + 1;
      }
    }

    /** The one store of `bucket_unlink`: whatever pointed to e now points past it. */
    method CutChain(prev: Entry?, e: Entry, b: nat, ghost c: seq<Entry>, ghost i: nat)
      requires b < buckets.Length && ChainLinks(c, b, buckets[b])
      requires i < |c| && c[i] == e && prev == Ref(c, i - 1)
      modifies buckets, c`bucketNext
      ensures ChainLinks(Without(c, i), b, buckets[b])
      ensures forall j :: 0 <= j < buckets.Length && j != b ==> buckets[j] == old(buckets[j])
    {
      ghost var w := Without(c, i);
      assert forall j :: 0 <= j < |w| ==> w[j] == c[if j < i then j else j + 1];
      if prev == null {
        buckets[b] := e.bucketNext;
      } else {
        prev.bucketNext := e.bucketNext;
      }
      assert forall j :: 0 <= j < |w| ==> w[j].bucketNext == Ref(w, j + 1);
    }

    /** The other chains do not meet e's, and do without e as they did with it. */
    lemma OthersApart(e: Entry, b: nat)
      requires BucketsOk() && e in entries && b == Bucket(e.id)
      ensures forall b' :: 0 <= b' < BUCKETS && b' != b ==> BucketOk(chains[b'], b', buckets[b'], entries - {e})
      ensures forall b' :: 0 <= b' < BUCKETS && b' != b ==> forall x :: x in chains[b'] ==> x !in chains[b]
    {
      forall b' | 0 <= b' < BUCKETS && b' != b
        ensures BucketOk(chains[b'], b', buckets[b'], entries - {e})
        ensures forall x :: x in chains[b'] ==> x !in chains[b]
      {
        assert BucketOk(chains[b'], b', buckets[b'], entries);
        OtherBucket(chains[b'], b', buckets[b'], entries, e);
        assert ChainLinks(chains[b], b, buckets[b]) && ChainLinks(chains[b'], b', buckets[b']);
      }
    }

    /** `bucket_unlink`. */
    method BucketUnlink(e: Entry)
      requires BucketsOk() && e in entries
      modifies this`chains, this`entries, buckets, entries`bucketNext
      ensures BucketsOk() && entries == old(entries) - {e}
    {
      var b := Bucket(e.id);
      ghost var c, before := chains[b], chains;
      var prev, i := FindSlot(e);
      assert BucketOk(c, b, buckets[b], entries);
      OthersApart(e, b);
      label L:
      CutChain(prev, e, b, c, i);
      chains := chains[b := Without(c, i)];
      CutBucket(c, i, b, buckets[b], entries);
      entries := entries - {e};
      forall b' | 0 <= b' < BUCKETS && b' != b
        ensures BucketOk(chains[b'], b', buckets[b'], entries)
      {
        assert old@L(BucketOk(before[b'], b', buckets[b'], entries - {e}));
      }
    }

    /** The forward half of `lru_unlink`: whatever led to e leads past it. */
    method SkipForward(e: Entry, ghost l: seq<Entry>, ghost k: nat)
      requires Distinct(l) && Forward(l, lruHead) && k < |l| && l[k] == e && e.lruPrev == Ref(l, k - 1)
      modifies this`lruHead, l`lruNext
      ensures Forward(Without(l, k), lruHead) && e.lruNext == old(e.lruNext)
    {
      ghost var w := Without(l, k);
      assert forall j :: 0 <= j < |w| ==> w[j] == l[if j < k then j else j + 1];
      if e.lruPrev != null {
        assert e.lruPrev == l[k - 1];
        e.lruPrev.lruNext := e.lruNext;
      } else {
        lruHead := e.lruNext;
      }
    }

    /** The backward half. */
    method SkipBackward(e: Entry, ghost l: seq<Entry>, ghost k: nat)
      requires Distinct(l) && Backward(l, lruTail) && k < |l| && l[k] == e && e.lruNext == Ref(l, k + 1)
      modifies this`lruTail, l`lruPrev
      ensures Backward(Without(l, k), lruTail)
    {
      ghost var w := Without(l, k);
      assert forall j :: 0 <= j < |w| ==> w[j] == l[if j < k then j else j + 1];
      if e.lruNext != null {
        assert e.lruNext == l[k + 1];
        e.lruNext.lruPrev := e.lruPrev;
      } else {
        lruTail := e.lruPrev;
      }
    }

    /** `lru_unlink`. k is where e stands. */
    method LruUnlink(e: Entry, ghost k: nat)
      requires LruOk() && k < |lru| && lru[k] == e
      modifies this`lru, this`lruHead, this`lruTail, lru`lruPrev, lru`lruNext
      ensures LruOk() && lru == Without(old(lru), k)
    {
      SkipForward(e, lru, k);
      SkipBackward(e, lru, k);
      DistinctWithout(lru, k);
      ghost var w := Without(lru, k);
      assert Forward(w, lruHead) && Backward(w, lruTail);
      e.lruPrev, e.lruNext := null, null;
      assert Forward(w, lruHead) && Backward(w, lruTail);
      lru := w;
    }

    /** `lru_push_front`. */
    method LruPushFront(e: Entry)
      requires LruOk() && e !in lru
      modifies this`lru, this`lruHead, this`lruTail, lru`lruPrev, e`lruPrev, e`lruNext
      ensures LruOk() && lru == [e] + old(lru)
    {
      ghost var l, w := lru, [e] + lru;
      assert forall j :: 0 < j < |w| ==> w[j] == l[j - 1];
      e.lruPrev := null;
      e.lruNext := lruHead;
      if lruHead != null {
        assert lruHead == l[0];
        lruHead.lruPrev := e;
      }
      lruHead := e;
      assert Forward(w, lruHead);
      if lruTail == null {
        lruTail := e;
      }
      assert Backward(w, lruTail);
      lru := w;
    }

    /** The chain insertion of `find_or_create_entry_locked`. */
    method BucketInsert(e: Entry)
      requires BucketsOk() && e !in entries && (forall x :: x in entries ==> x.id != e.id)
      modifies this`chains, this`entries, buckets, e`bucketNext
      ensures BucketsOk() && entries == old(entries) + {e}
    {
      var b := Bucket(e.id);
      ghost var c, before := chains[b], chains;
      assert BucketOk(c, b, buckets[b], entries);
      forall b' | 0 <= b' < BUCKETS && b' != b
        ensures BucketOk(chains[b'], b', buckets[b'], entries + {e})
      {
        OtherBucket(chains[b'], b', buckets[b'], entries, e);
      }
      label L:
      e.bucketNext := buckets[b];
      buckets[b] := e;
      chains := chains[b := [e] + c];
      assert ChainLinks([e] + c, b, buckets[b]);
      entries := entries + {e};
      forall b' | 0 <= b' < BUCKETS && b' != b
        ensures BucketOk(chains[b'], b', buckets[b'], entries)
      {
        assert old@L(BucketOk(before[b'], b', buckets[b'], entries + {e}));
      }
    }

    /** Where an entry stands in the list. */
    lemma Position(e: Entry) returns (k: nat)
      requires Valid() && e in entries
      ensures k < |lru| && lru[k] == e && Index(View(), e.id) == k
    {
      SnapsAt(lru);
      k :| 0 <= k < |lru| && lru[k] == e;
      forall j | 0 <= j < k
        ensures View()[j].id != e.id
      {
        if lru[j].id == e.id {
          IdsUnique(lru[j], e);
          assert false;
        }
      }
    }

    lemma Absent(id: nat)
      requires Valid() && (forall x :: x in entries ==> x.id != id)
      ensures Index(View(), id) == |View()|
    {
      SnapsAt(lru);
    }

    /** Unlinking from both structures and `entry_destroy`. */
    method Unlink(e: Entry, ghost k: nat)
      requires Valid() && k < |lru| && lru[k] == e
      modifies this, buckets, entries`bucketNext, entries`lruPrev, entries`lruNext
      ensures Valid() && entries == old(entries) - {e} && lru == Without(old(lru), k)
    {
      DistinctWithout(lru, k);
      MovedOut(lru, k);
      BucketUnlink(e);
      LruUnlink(e, k);
      count := count - 1;
    }

    method Drop(e: Entry, ghost k: nat)
      requires Valid() && k < |lru| && lru[k] == e
      modifies this, buckets, entries`bucketNext, entries`lruPrev, entries`lruNext
      ensures Valid() && entries == old(entries) - {e} && lru == Without(old(lru), k)
      ensures View() == Without(old(View()), k)
    {
      ghost var was := lru;
      Unlink(e, k);
      assert forall j :: 0 <= j < |was| ==> was[j].Snap() == old(was[j].Snap());
      SnapsSame(was);
      SnapsWithout(was, k);
    }

    /** The body of the loop of `sweep_stale`: the entry to look at next is read before e may go. */
    method DropIfStale(e: Entry, now: int, ghost k: nat) returns (prev: Entry?)
      requires Valid() && k < |lru| && lru[k] == e
      modifies this, buckets, entries`bucketNext, entries`lruPrev, entries`lruNext
      ensures Valid() && entries <= old(entries)
      ensures View() == SweepAt(old(View()), k, now)
      ensures prev == Ref(lru, k - 1) && k <= |lru|
    {
      SnapsAt(lru);
      prev := e.lruPrev;
      if e.refcount == 0 && !e.busy && now - e.lastUsed >= IDLE_TTL {
        Drop(e, k);
      }
    }

    /** `sweep_stale`. */
    method SweepStale(limit: nat, now: int)
      requires Valid()
      modifies this, buckets, entries`bucketNext, entries`lruPrev, entries`lruNext
      ensures Valid() && entries <= old(entries)
      ensures View() == Sweep(old(View()), |old(View())|, limit, now)
    {
      hide Sweep, SweepAt, Snaps, Within, ChainLinks, BucketOk, Forward, Distinct;
      var e := lruTail;
      var scanned := 0;
      ghost var i: nat := |lru|;
      while e != null && scanned < limit
        invariant Valid() && entries <= old(entries)
        invariant scanned <= limit && i <= |lru| && e == Ref(lru, i - 1)
        invariant Sweep(old(View()), |old(View())|, limit, now) == Sweep(View(), i, limit - scanned, now)
        decreases limit - scanned
      {
        SweepSteps(View(), i, limit - scanned, now);
        e := DropIfStale(e, now, i - 1);
        scanned, i := scanned + 1, i - 1;
      }
      SweepSteps(View(), i, limit - scanned, now);
    }

    /** `evict_one_lru`. */
    method EvictOneLru() returns (evicted: bool)
      requires Valid()
      modifies this, buckets, entries`bucketNext, entries`lruPrev, entries`lruNext
      ensures Valid() && entries <= old(entries)
      ensures evicted == Evicted(old(View())).Some?
      ensures View() == if evicted then Evicted(old(View())).value else old(View())
    {
      hide ChainLinks, BucketOk, Within, Distinct, Forward, Snaps, LastUnpinned;
      var e := lruTail;
      ghost var i: nat := |lru|;
      while e != null
        invariant Valid() && entries == old(entries) && View() == old(View())
        invariant i <= |lru| && e == Ref(lru, i - 1)
        invariant LastUnpinned(View(), |View()|) == LastUnpinned(View(), i)
        decreases i
      {
        assert lru[i - 1] == e && e in entries;
        SnapsAt(lru);
        var prev := e.lruPrev;
        if e.refcount == 0 && !e.busy {
          Drop(e, i - 1);
          return true;
        }
        e, i := prev, i - 1;
      }
      return false;
    }

    method MoveToFront(e: Entry, ghost k: nat)
      requires Valid() && k < |lru| && lru[k] == e
      modifies this`lru, this`lruHead, this`lruTail, entries`lruPrev, entries`lruNext
      ensures Valid() && lru == [e] + Without(old(lru), k)
    {
      DistinctWithout(lru, k);
      MovedOut(lru, k);
      LruUnlink(e, k);
      LruPushFront(e);
    }

    /** The found half of `find_or_create_entry_locked`. */
    method Touch(e: Entry, now: int, ghost k: nat)
      requires Valid() && k < |lru| && lru[k] == e
      modifies this`lru, this`lruHead, this`lruTail, entries`lruPrev, entries`lruNext, e`refcount, e`lastUsed
      ensures Valid() && lru == [e] + Without(old(lru), k)
      ensures View() == [Used(old(View())[k], now)] + Without(old(View()), k)
    {
      hide ChainLinks, BucketOk, Within, Forward, Backward, Snaps;
      ghost var was := lru;
      SnapsAt(was);
      e.Use(now);
      label L:
      MoveToFront(e, k);
      SnapsWithoutOld(was, k);
      SnapsSame(Without(was, k));
      SnapsCons(e, Without(was, k));
    }

    /** Linking a new entry into both structures. */
    method Link(e: Entry)
      requires Valid() && e !in entries && (forall x :: x in entries ==> x.id != e.id)
      modifies this, buckets, entries`lruPrev, e`bucketNext, e`lruPrev, e`lruNext
      ensures Valid() && entries == old(entries) + {e} && lru == [e] + old(lru)
    {
      BucketInsert(e);
      LruPushFront(e);
      count := count + 1;
    }

    /** The creating half, once there is room and memory. */
    method Create(id: nat, now: int) returns (e: Entry)
      requires Valid() && (forall x :: x in entries ==> x.id != id)
      modifies this, buckets, entries`lruPrev
      ensures Valid() && entries == old(entries) + {e} && fresh(e) && lru == [e] + old(lru)
      ensures View() == [NewSession(id, now)] + old(View())
    {
      hide ChainLinks, BucketOk, Within, Distinct, Forward, Backward, ListLinks, Snaps;
      ghost var was := lru;
      e := new Entry(id, now);
      Link(e);
      SnapsSame(was);
      SnapsCons(e, was);
    }

    /** The capacity check of `find_or_create_entry_locked`. */
    method MakeRoom() returns (ok: bool)
      requires Valid()
      modifies this, buckets, entries`bucketNext, entries`lruPrev, entries`lruNext
      ensures Valid() && entries <= old(entries)
      ensures ok == Room(old(View())).Some?
      ensures View() == if ok then Room(old(View())).value else old(View())
    {
      ok := true;
      if count >= MAX_ENTRIES {
        ok := EvictOneLru();
      }
    }

    /** `find_or_create_entry_locked`. */
    method FindOrCreateEntry(id: nat, now: int, memory: bool) returns (e: Entry?)
      requires Valid()
      modifies this, buckets, entries`bucketNext, entries`lruPrev, entries`lruNext, entries`refcount, entries`lastUsed
      ensures Valid() && fresh(entries - old(entries))
      ensures (e != null, View()) == FindOrCreate(old(View()), id, now, memory)
      ensures e != null ==> e in entries && |lru| > 0 && lru[0] == e
    {
      ghost var k;
      e, k := Look(id);
      if e != null {
        Touch(e, now, k);
        return;
      }
      var ok := MakeRoom();
      if !ok || !memory {
        return null;
      }
      e := Create(id, now);
    }

    /** The entry an id has before an acquire looks at it. */
    method Look(id: nat) returns (e: Entry?, ghost k: nat)
      requires Valid()
      ensures k == Index(View(), id)
      ensures e == null ==> k == |lru| && (forall x :: x in entries ==> x.id != id)
      ensures e != null ==> e in entries && k < |lru| && lru[k] == e && View()[k] == e.Snap()
    {
      e := FindEntry(id);
      SnapsAt(lru);
      if e != null {
        k := Position(e);
      } else {
        Absent(id);
        k := |lru|;
      }
    }

    /** What a plain acquire does to the entry it has brought to the front. */
    method HoldFront(e: Entry, newCtx: Option<nat>) returns (ctx: Option<nat>)
      requires Valid() && |lru| > 0 && lru[0] == e
      modifies e`ctx, e`shared, e`refcount
      ensures Valid()
      ensures |old(View())| > 0 && View() == old(View())[0 := Shared(old(View())[0], newCtx)]
      ensures ctx == CtxOf(old(View())[0], newCtx)
    {
      SnapsAt(lru);
      ctx := e.Share(newCtx);
      OneChanged(lru, 0);
    }

    method TakeFront(e: Entry, newCtx: Option<nat>) returns (ctx: Option<nat>)
      requires Valid() && |lru| > 0 && lru[0] == e
      modifies e`ctx, e`busy, e`refcount
      ensures Valid()
      ensures |old(View())| > 0 && View() == old(View())[0 := Taken(old(View())[0], newCtx)]
      ensures ctx == CtxOf(old(View())[0], newCtx)
    {
      SnapsAt(lru);
      ctx := e.Take(newCtx);
      OneChanged(lru, 0);
    }

    /** `fractal_session_acquire`. */
    method SessionAcquire(id: nat, now: int, memory: bool, newCtx: Option<nat>) returns (ctx: Option<nat>)
      requires Valid()
      modifies this, buckets, entries
      ensures Valid() && fresh(entries - old(entries))
      ensures (ctx, View()) == Acquire(old(View()), id, now, memory, newCtx)
    {
      hide ChainLinks, BucketOk, Within, Distinct, Forward, Backward, ListLinks, Snaps;
      SweepStale(SCAN_LIMIT, now);
      var held, at := Look(id);
      if held != null && held.busy {
        return None;
      }
      var e := FindOrCreateEntry(id, now, memory);
      if e == null {
        return None;
      }
      ctx := HoldFront(e, newCtx);
    }

    /** `fractal_session_acquire_exclusive`. */
    method SessionAcquireExclusive(id: nat, now: int, memory: bool, newCtx: Option<nat>) returns (r: Exclusive)
      requires Valid()
      modifies this, buckets, entries
      ensures Valid() && fresh(entries - old(entries))
      ensures (r, View()) == AcquireExclusive(old(View()), id, now, memory, newCtx)
    {
      hide ChainLinks, BucketOk, Within, Distinct, Forward, Backward, ListLinks, Snaps;
      SweepStale(SCAN_LIMIT, now);
      var held, at := Look(id);
      if held != null && held.busy {
        return Busy;
      }
      if held != null && held.shared > 0 {
        return Busy;
      }
      var e := FindOrCreateEntry(id, now, memory);
      if e == null {
        return Unavailable;
      }
      var ctx := TakeFront(e, newCtx);
      return if ctx.Some? then Granted(ctx.value) else Unavailable;
    }

    /** `fractal_session_release`. */
    method SessionRelease(id: nat)
      requires Valid()
      modifies entries`shared, entries`refcount
      ensures Valid() && View() == Release(old(View()), id)
    {
      hide ChainLinks, BucketOk, Within, Forward, Backward, Snaps;
      var e, k := Look(id);
      if e != null {
        e.GiveBack();
        OneChanged(lru, k);
      }
    }

    /** `fractal_session_release_exclusive`. */
    method SessionReleaseExclusive(id: nat)
      requires Valid()
      modifies entries`busy, entries`refcount
      ensures Valid() && View() == ReleaseExclusive(old(View()), id)
    {
      var e, k := Look(id);
      if e != null {
        e.GiveBackExclusive();
        OneChanged(lru, k);
      }
    }

    /** An entry made only to be written to is not held afterwards. */
    method AddUnheld(id: nat, now: int, memory: bool)
      requires Valid() && Index(View(), id) == |View()|
      modifies this, buckets, entries
      ensures Valid() && fresh(entries - old(entries))
      ensures View() == Ensure(old(View()), id, now, memory)
    {
      var e := FindOrCreateEntry(id, now, memory);
      if e != null {
        SnapsAt(lru);
        label L:
        e.DropRef();
        OneChanged@L(lru, 0);
      }
    }

    /** The entry a flag is written to. */
    method EnsureEntry(id: nat, now: int, memory: bool) returns (e: Entry?, ghost k: nat)
      requires Valid()
      modifies this, buckets, entries
      ensures Valid() && fresh(entries - old(entries))
      ensures View() == Ensure(old(View()), id, now, memory) && k == Index(View(), id)
      ensures e == null ==> k == |lru|
      ensures e != null ==> e in entries && k < |lru| && lru[k] == e && View()[k] == e.Snap()
    {
      e, k := Look(id);
      if e == null {
        AddUnheld(id, now, memory);
        e, k := Look(id);
      }
    }

    /** `fractal_session_set_agent_partial`. */
    method SessionSetPartial(id: nat, on: bool, now: int, memory: bool)
      requires Valid()
      modifies this, buckets, entries
      ensures Valid() && fresh(entries - old(entries))
      ensures View() == SetPartial(old(View()), id, on, now, memory)
    {
      hide ChainLinks, BucketOk, Within, Forward, Backward, Snaps;
      var e, k := EnsureEntry(id, now, memory);
      if e != null {
        label L:
        e.partial := on;
        OneChanged@L(lru, k);
      }
    }

    /** `fractal_session_set_diversify_enabled`. */
    method SessionSetDiversify(id: nat, on: bool, now: int, memory: bool)
      requires Valid()
      modifies this, buckets, entries
      ensures Valid() && fresh(entries - old(entries))
      ensures View() == SetDiversify(old(View()), id, on, now, memory)
    {
      hide ChainLinks, BucketOk, Within, Forward, Backward, Snaps;
      var e, k := EnsureEntry(id, now, memory);
      if e != null {
        label L:
        e.diversify := on;
        OneChanged@L(lru, k);
      }
    }

    /** `fractal_session_get_agent_partial`: a session without an entry has not opted in, and gets none. */
    method SessionGetPartial(id: nat) returns (on: bool)
      requires Valid()
      ensures on == (Index(View(), id) < |View()| && View()[Index(View(), id)].partial)
    {
      hide ChainLinks, BucketOk, Within, Forward, Backward, Snaps;
      var e, k := Look(id);
      on := if e != null then e.partial else false;
    }

    /** `fractal_session_get_diversify_enabled`. */
    method SessionGetDiversify(id: nat) returns (on: bool)
      requires Valid()
      ensures on == (Index(View(), id) < |View()| && View()[Index(View(), id)].diversify)
    {
      hide ChainLinks, BucketOk, Within, Forward, Backward, Snaps;
      var e, k := Look(id);
      on := if e != null then e.diversify else false;
    }

    /** `fractal_session_registry_close`. */
    method SessionClose(id: nat)
      requires Valid()
      modifies this, buckets, entries
      ensures Valid() && View() == Close(old(View()), id)
    {
      var e, k := Look(id);
      if e != null && e.refcount == 0 && !e.busy {
        Drop(e, k);
      }
    }
  }

  lemma MovedOut<T>(c: seq<T>, i: nat)
    requires i < |c|
    requires forall j, k :: 0 <= j < k < |c| ==> c[j] != c[k]
    ensures forall x :: x in Without(c, i) <==> x in c && x != c[i]
  {
    forall x | x in c && x != c[i]
      ensures x in Without(c, i)
    {
      var j :| 0 <= j < |c| && c[j] == x;
      assert Without(c, i)[if j < i then j else j - 1] == x;
    }
  }
}
