/**
 The MCP server's concurrency manager (mcp/src/concurrency.h): two bounded semaphores, a per-client
 count, and tokens that give back exactly what they hold.
 */
module Concurrency {
  import opened Wrappers
  import SeqFacts

  datatype ToolClass = Cheap | Expensive

  datatype Limits = Limits(cheap: int, expensive: int, perClient: int)

  /** What the manager counts. */
  datatype Counts = Counts(cheap: int, expensive: int, clients: map<string, int>)

  /** A token; `attached` stands for a non-null manager pointer. */
  datatype Tok = Tok(attached: bool, cls: ToolClass, client: string, heldGlobal: bool, heldClient: bool)

  const NO_TOKEN: Tok := Tok(false, Cheap, "", false, false)

  // ----- the locked steps -----

  function ClientCount(c: Counts, client: string): int {
    if client in c.clients then c.clients[client] else 0
  }

  /** `acquireClientSlot`: the lookup creates the entry it does not find. */
  function TakeClient(l: Limits, c: Counts, client: string): (bool, Counts) {
    var n := ClientCount(c, client);
    if n >= l.perClient then (false, c.(clients := c.clients[client := n]))
    else (true, c.(clients := c.clients[client := n + 1]))
  }

  /** `releaseClient`: an idle client's entry is dropped. */
  function FreeClient(c: Counts, client: string): Counts {
    if client !in c.clients then c
    else
      var n := if c.clients[client] > 0 then c.clients[client] - 1 else c.clients[client];
      c.(clients := if n <= 0 then c.clients - {client} else c.clients[client := n])
  }

  function InUse(c: Counts, cls: ToolClass): int {
    if cls == Cheap then c.cheap else c.expensive
  }

  function Limit(l: Limits, cls: ToolClass): int {
    if cls == Cheap then l.cheap else l.expensive
  }

  function WithUse(c: Counts, cls: ToolClass, n: int): Counts {
    if cls == Cheap then c.(cheap := n) else c.(expensive := n)
  }

  /** `tryAcquire`, at the moment its wait ends. */
  function TakeGlobal(l: Limits, c: Counts, cls: ToolClass): (bool, Counts) {
    if InUse(c, cls) < Limit(l, cls) then (true, WithUse(c, cls, InUse(c, cls) + 1)) else (false, c)
  }

  function FreeGlobal(c: Counts, cls: ToolClass): Counts {
    if InUse(c, cls) > 0 then WithUse(c, cls, InUse(c, cls) - 1) else c
  }

  /** `Token::release`. */
  function Released(c: Counts, t: Tok): (Counts, Tok) {
    if !t.attached then (c, t)
    else
      var c1 := if t.heldClient then FreeClient(c, t.client) else c;
      var c2 := if t.heldGlobal then FreeGlobal(c1, t.cls) else c1;
      (c2, t.(attached := false))
  }

  /** Move assignment: what the target held is given back, then it takes over the source. */
  function Moved(c: Counts, dst: Tok, src: Tok): (Counts, Tok, Tok) {
    (Released(c, dst).0, src, src.(attached := false, heldGlobal := false, heldClient := false))
  }

  // ----- the manager as it is -----

  class Semaphore {
    const limit: int
    var inUse: int

    constructor (limit: int)
      ensures this.limit == limit && inUse == 0
    {
      this.limit, inUse := limit, 0;
    }

    method TryAcquire() returns (ok: bool)
      modifies this
      ensures ok == (old(inUse) < limit) && inUse == if ok then old(inUse) + 1 else old(inUse)
    {
      if inUse >= limit { return false; }
      inUse := inUse + 1;
      return true;
    }

    method Release()
      modifies this
      ensures inUse == if old(inUse) > 0 then old(inUse) - 1 else old(inUse)
    {
      if inUse > 0 { inUse := inUse - 1; }
    }
  }

  class Manager {
    const limits: Limits
    const cheap: Semaphore
    const expensive: Semaphore
    var clientCounts: map<string, int>

    ghost predicate Valid() {
      cheap != expensive && cheap.limit == limits.cheap && expensive.limit == limits.expensive
    }

    ghost function View(): Counts
      reads this, cheap, expensive
    {
      Counts(cheap.inUse, expensive.inUse, clientCounts)
    }

    constructor (limits: Limits)
      ensures Valid() && this.limits == limits && View() == Counts(0, 0, map[]) && fresh(cheap) && fresh(expensive)
    {
      this.limits := limits;
      cheap := new Semaphore(limits.cheap);
      expensive := new Semaphore(limits.expensive);
      clientCounts := map[];
    }

    method AcquireClientSlot(key: string) returns (ok: bool)
      modifies this
      ensures (ok, View()) == TakeClient(limits, old(View()), key)
    {
      if key !in clientCounts { clientCounts := clientCounts[key := 0]; }
      assert clientCounts[key := clientCounts[key]] == clientCounts;
      if clientCounts[key] >= limits.perClient { return false; }
      assert clientCounts[key := clientCounts[key] + 1] == old(clientCounts)[key := clientCounts[key] + 1];
      clientCounts := clientCounts[key := clientCounts[key] + 1];
      return true;
    }

    method ReleaseClient(key: string)
      modifies this
      ensures View() == FreeClient(old(View()), key)
    {
      if key !in clientCounts { return; }
      if clientCounts[key] > 0 { clientCounts := clientCounts[key := clientCounts[key] - 1]; }
      if clientCounts[key] <= 0 { clientCounts := clientCounts - {key}; }
    }

    method AcquireGlobal(cls: ToolClass) returns (ok: bool)
      requires Valid()
      modifies cheap, expensive
      ensures (ok, View()) == TakeGlobal(limits, old(View()), cls)
    {
      if cls == Cheap {
        ok := cheap.TryAcquire();
      } else {
        ok := expensive.TryAcquire();
      }
    }

    method ReleaseGlobal(cls: ToolClass)
      requires Valid()
      modifies cheap, expensive
      ensures View() == FreeGlobal(old(View()), cls)
    {
      if cls == Cheap {
        cheap.Release();
      } else {
        expensive.Release();
      }
    }

    /** `acquire`, up to what another thread may do while it waits; None is the busy error. */
    method Acquire(cls: ToolClass, client: string) returns (tok: Option<Tok>)
      requires Valid()
      modifies this, cheap, expensive
      ensures (tok, View()) == Acquired(limits, old(View()), cls, client)
    {
      var heldClient := false;
      if cls == Expensive {
        heldClient := AcquireClientSlot(client);
        if !heldClient { return None; }
      }
      var heldGlobal := AcquireGlobal(cls);
      if !heldGlobal {
        if heldClient { ReleaseClient(client); }
        return None;
      }
      return Some(Tok(true, cls, client, true, heldClient));
    }
  }

  /** The token an RAII variable holds, and its destructor and move. */
  class Token {
    var mgr: Manager?
    var tok: Tok

    ghost predicate Valid()
      reads this
    {
      (tok.attached <==> mgr != null) && (mgr != null ==> mgr.Valid())
    }

    method Release()
      requires Valid()
      modifies this, mgr, if mgr == null then {} else {mgr.cheap, mgr.expensive}
      ensures Valid() && tok == Released(Counts(0, 0, map[]), old(tok)).1 && mgr == null
      ensures old(mgr) != null ==> old(mgr).View() == Released(old(mgr.View()), old(tok)).0
    {
      if mgr == null { return; }
      if tok.heldClient { mgr.ReleaseClient(tok.client); }
      if tok.heldGlobal { mgr.ReleaseGlobal(tok.cls); }
      mgr := null;
      tok := tok.(attached := false);
    }

    /** `operator=( Token&& )`. */
    method MoveFrom(o: Token)
      requires Valid() && o.Valid() && o != this
      modifies this, o, mgr, if mgr == null then {} else {mgr.cheap, mgr.expensive}
      ensures Valid() && o.Valid() && mgr == old(o.mgr)
      ensures tok == Moved(Counts(0, 0, map[]), old(tok), old(o.tok)).1
      ensures o.tok == Moved(Counts(0, 0, map[]), old(tok), old(o.tok)).2
      ensures old(mgr) != null ==> old(mgr).View() == Moved(old(mgr.View()), old(tok), old(o.tok)).0
    {
      Release();
      mgr, tok := o.mgr, o.tok;
      o.mgr, o.tok := null, o.tok.(attached := false, heldGlobal := false, heldClient := false);
    }
  }

  function Acquired(l: Limits, c: Counts, cls: ToolClass, client: string): (Option<Tok>, Counts) {
    var (slot, c1) := if cls == Expensive then TakeClient(l, c, client) else (true, c);
    if !slot then (None, c1)
    else
      var (ok, c2) := TakeGlobal(l, c1, cls);
      if ok then (Some(Tok(true, cls, client, true, cls == Expensive)), c2)
      else (None, if cls == Expensive then FreeClient(c2, client) else c2)
  }

  // ----- runs -----

  /** The counts and every token there ever was. A token may be waiting for its global slot. */
  datatype World = World(counts: Counts, toks: seq<Tok>)

  /** An acquire is two steps, since others run while it waits between them. */
  datatype Op = Enter(cls: ToolClass, client: string) | Finish(id: nat) | Release(id: nat) | Move(dst: nat, src: nat)

  /** A token inside `acquire`: it has its client slot, if it needs one, and waits for the semaphore. */
  predicate Waiting(t: Tok) {
    t.attached && !t.heldGlobal
  }

  function Step(l: Limits, w: World, op: Op): World {
    match op
    case Enter(cls, client) =>
      var (ok, c) := if cls == Expensive then TakeClient(l, w.counts, client) else (true, w.counts);
      World(c, if ok then w.toks + [Tok(true, cls, client, false, cls == Expensive)] else w.toks)
    case Finish(id) =>
      if id >= |w.toks| || !Waiting(w.toks[id]) then w
      else
        var t := w.toks[id];
        var (ok, c) := TakeGlobal(l, w.counts, t.cls);
        if ok then World(c, w.toks[id := t.(heldGlobal := true)])
        else World(if t.heldClient then FreeClient(c, t.client) else c, w.toks[id := NO_TOKEN])
    case Release(id) =>
      if id >= |w.toks| || Waiting(w.toks[id]) then w
      else World(Released(w.counts, w.toks[id]).0, w.toks[id := Released(w.counts, w.toks[id]).1])
    case Move(dst, src) =>
      if dst >= |w.toks| || src >= |w.toks| || dst == src || Waiting(w.toks[dst]) || Waiting(w.toks[src]) then w
      else
        var (c, d, s) := Moved(w.counts, w.toks[dst], w.toks[src]);
        World(c, w.toks[dst := d][src := s])
  }

  function Run(l: Limits, w: World, ops: seq<Op>): World
    decreases |ops|
  {
    if ops == [] then w else Run(l, Step(l, w, ops[0]), ops[1..])
  }

  /** A run is its steps one after the other. */
  lemma {:induction false} RunStep(l: Limits, w: World, ops: seq<Op>, op: Op)
    ensures Run(l, w, []) == w && Run(l, w, ops + [op]) == Step(l, Run(l, w, ops), op)
    decreases |ops|
  {
    hide Step;
    if ops == [] {
      assert ops + [op] == [op] && [op][1..] == [];
    } else {
      SeqFacts.Uncons(ops, [op]);
      RunStep(l, Step(l, w, ops[0]), ops[1..], op);
    }
  }

  const START: World := World(Counts(0, 0, map[]), [])

  // ----- conservation -----

  predicate HoldsClient(t: Tok, client: string) {
    t.attached && t.heldClient && t.client == client
  }

  predicate HoldsGlobal(t: Tok, cls: ToolClass) {
    t.attached && t.heldGlobal && t.cls == cls
  }

  function ClientTokens(toks: seq<Tok>, client: string): (n: nat) {
    if toks == [] then 0 else (if HoldsClient(toks[0], client) then 1 else 0) + ClientTokens(toks[1..], client)
  }

  function GlobalTokens(toks: seq<Tok>, cls: ToolClass): (n: nat) {
    if toks == [] then 0 else (if HoldsGlobal(toks[0], cls) then 1 else 0) + GlobalTokens(toks[1..], cls)
  }

  lemma {:induction false} ClientUpdate(toks: seq<Tok>, i: nat, t: Tok, client: string)
    requires i < |toks|
    ensures ClientTokens(toks[i := t], client)
         == ClientTokens(toks, client) - (if HoldsClient(toks[i], client) then 1 else 0) + (if HoldsClient(t, client) then 1 else 0)
    ensures HoldsClient(toks[i], client) ==> ClientTokens(toks, client) > 0
  {
    if i > 0 {
      ClientUpdate(toks[1..], i - 1, t, client);
      assert toks[i := t][1..] == toks[1..][i - 1 := t];
    } else {
      assert toks[i := t][1..] == toks[1..];
    }
  }

  lemma {:induction false} GlobalUpdate(toks: seq<Tok>, i: nat, t: Tok, cls: ToolClass)
    requires i < |toks|
    ensures GlobalTokens(toks[i := t], cls)
         == GlobalTokens(toks, cls) - (if HoldsGlobal(toks[i], cls) then 1 else 0) + (if HoldsGlobal(t, cls) then 1 else 0)
    ensures HoldsGlobal(toks[i], cls) ==> GlobalTokens(toks, cls) > 0
  {
    if i > 0 {
      GlobalUpdate(toks[1..], i - 1, t, cls);
      assert toks[i := t][1..] == toks[1..][i - 1 := t];
    } else {
      assert toks[i := t][1..] == toks[1..];
    }
  }

  lemma {:induction false} TokensAppend(toks: seq<Tok>, t: Tok, client: string, cls: ToolClass)
    ensures ClientTokens(toks + [t], client) == ClientTokens(toks, client) + (if HoldsClient(t, client) then 1 else 0)
    ensures GlobalTokens(toks + [t], cls) == GlobalTokens(toks, cls) + (if HoldsGlobal(t, cls) then 1 else 0)
  {
    if toks != [] {
      TokensAppend(toks[1..], t, client, cls);
      assert (toks + [t])[1..] == toks[1..] + [t];
    }
  }

  function Above(n: int): int {
    if n > 0 then n else 0
  }

  /** Every count is the number of live tokens that hold it, and within its limit; no entry stays idle. */
  ghost predicate Conserved(l: Limits, w: World) {
    && (forall client :: ClientCount(w.counts, client) == ClientTokens(w.toks, client))
    && (forall client :: ClientTokens(w.toks, client) <= Above(l.perClient))
    && (forall cls :: InUse(w.counts, cls) == GlobalTokens(w.toks, cls) <= Above(Limit(l, cls)))
    && (l.perClient >= 1 ==> forall client :: client in w.counts.clients ==> w.counts.clients[client] > 0)
  }

  lemma FreeClientCounts(l: Limits, c: Counts, client: string, other: string)
    requires ClientCount(c, client) > 0
    ensures ClientCount(FreeClient(c, client), other) == ClientCount(c, other) - (if other == client then 1 else 0)
    ensures FreeClient(c, client).cheap == c.cheap && FreeClient(c, client).expensive == c.expensive
    ensures (forall k :: k in c.clients ==> c.clients[k] > 0) ==>
      forall k :: k in FreeClient(c, client).clients ==> FreeClient(c, client).clients[k] > 0
  {
  }

  /** A token gives back what it holds, no more and no less. */
  lemma ReleaseConserves(l: Limits, w: World, i: nat)
    requires Conserved(l, w) && i < |w.toks|
    ensures var (c, t) := Released(w.counts, w.toks[i]);
      Conserved(l, World(c, w.toks[i := t])) && !t.attached
  {
    var (c, t) := Released(w.counts, w.toks[i]);
    var was := w.toks[i];
    var v := World(c, w.toks[i := t]);
    ClientUpdate(w.toks, i, t, was.client);
    GlobalUpdate(w.toks, i, t, was.cls);
    if was.attached && was.heldClient {
      FreeClientCounts(l, w.counts, was.client, was.client);
    }
    forall client
      ensures ClientCount(c, client) == ClientTokens(v.toks, client) <= Above(l.perClient)
    {
      ClientUpdate(w.toks, i, t, client);
      if was.attached && was.heldClient {
        FreeClientCounts(l, w.counts, was.client, client);
      }
    }
    forall cls
      ensures InUse(c, cls) == GlobalTokens(v.toks, cls) <= Above(Limit(l, cls))
    {
      GlobalUpdate(w.toks, i, t, cls);
    }
  }

  lemma MoveConserves(l: Limits, w: World, dst: nat, src: nat)
    requires Conserved(l, w) && dst < |w.toks| && src < |w.toks| && dst != src
    ensures Conserved(l, Step(l, w, Move(dst, src)))
  {
    if !Waiting(w.toks[dst]) && !Waiting(w.toks[src]) {
      var (c, d, s) := Moved(w.counts, w.toks[dst], w.toks[src]);
      var freed := Released(w.counts, w.toks[dst]).1;
      var mid := w.toks[dst := freed];
      var last := w.toks[dst := d][src := s];
      ReleaseConserves(l, w, dst);
      assert mid[dst := d][src := s] == last;
      forall client
        ensures ClientTokens(last, client) == ClientTokens(mid, client)
      {
        ClientUpdate(mid, dst, d, client);
        ClientUpdate(mid[dst := d], src, s, client);
      }
      forall cls
        ensures GlobalTokens(last, cls) == GlobalTokens(mid, cls)
      {
        GlobalUpdate(mid, dst, d, cls);
        GlobalUpdate(mid[dst := d], src, s, cls);
      }
    }
  }

  lemma EnterConserves(l: Limits, w: World, cls: ToolClass, client: string)
    requires Conserved(l, w)
    ensures Conserved(l, Step(l, w, Enter(cls, client)))
  {
    var v := Step(l, w, Enter(cls, client));
    var t := Tok(true, cls, client, false, cls == Expensive);
    forall other
      ensures ClientCount(v.counts, other) == ClientTokens(v.toks, other) <= Above(l.perClient)
    {
      TokensAppend(w.toks, t, other, cls);
    }
    forall other
      ensures InUse(v.counts, other) == GlobalTokens(v.toks, other) <= Above(Limit(l, other))
    {
      TokensAppend(w.toks, t, client, other);
    }
  }

  lemma FinishConserves(l: Limits, w: World, id: nat)
    requires Conserved(l, w) && id < |w.toks| && Waiting(w.toks[id])
    ensures Conserved(l, Step(l, w, Finish(id)))
  {
    var t := w.toks[id];
    var v := Step(l, w, Finish(id));
    var u := v.toks[id];
    ClientUpdate(w.toks, id, u, t.client);
    GlobalUpdate(w.toks, id, u, t.cls);
    var (ok, c) := TakeGlobal(l, w.counts, t.cls);
    if !ok && t.heldClient {
      FreeClientCounts(l, c, t.client, t.client);
    }
    forall client
      ensures ClientCount(v.counts, client) == ClientTokens(v.toks, client) <= Above(l.perClient)
    {
      ClientUpdate(w.toks, id, u, client);
      if !ok && t.heldClient {
        FreeClientCounts(l, c, t.client, client);
      }
    }
    forall cls
      ensures InUse(v.counts, cls) == GlobalTokens(v.toks, cls) <= Above(Limit(l, cls))
    {
      GlobalUpdate(w.toks, id, u, cls);
    }
  }

  lemma StepConserves(l: Limits, w: World, op: Op)
    requires Conserved(l, w)
    ensures Conserved(l, Step(l, w, op))
  {
    hide Conserved;
    match op
    case Enter(cls, client) => EnterConserves(l, w, cls, client);
    case Finish(id) => if id < |w.toks| && Waiting(w.toks[id]) { FinishConserves(l, w, id); }
    case Release(id) => if id < |w.toks| { ReleaseConserves(l, w, id); }
    case Move(dst, src) => if dst < |w.toks| && src < |w.toks| && dst != src { MoveConserves(l, w, dst, src); }
  }

  lemma {:induction false} RunConserves(l: Limits, w: World, ops: seq<Op>)
    requires Conserved(l, w)
    ensures Conserved(l, Run(l, w, ops))
    decreases |ops|
  {
    if ops != [] {
      StepConserves(l, w, ops[0]);
      RunConserves(l, Step(l, w, ops[0]), ops[1..]);
    }
  }

  /** In every run of acquires, failed acquires, moves and releases the books balance. */
  lemma AlwaysConserved(l: Limits, ops: seq<Op>)
    ensures Conserved(l, Run(l, START, ops))
  {
    RunConserves(l, START, ops);
  }

  /** When every token has been given back nothing is left behind, not even a client's entry. */
  lemma NothingLeft(l: Limits, ops: seq<Op>)
    requires l.perClient >= 1
    requires forall i :: 0 <= i < |Run(l, START, ops).toks| ==> !Run(l, START, ops).toks[i].attached
    ensures Run(l, START, ops).counts == Counts(0, 0, map[])
  {
    AlwaysConserved(l, ops);
    var w := Run(l, START, ops);
    forall client
      ensures client !in w.counts.clients
    {
      NoneAttached(w.toks, client, Cheap);
    }
    NoneAttached(w.toks, "", Cheap);
    NoneAttached(w.toks, "", Expensive);
    assert w.counts.clients == map[];
    assert InUse(w.counts, Cheap) == 0 && InUse(w.counts, Expensive) == 0;
  }

  lemma {:induction false} NoneAttached(toks: seq<Tok>, client: string, cls: ToolClass)
    requires forall i :: 0 <= i < |toks| ==> !toks[i].attached
    ensures ClientTokens(toks, client) == 0 && GlobalTokens(toks, cls) == 0
  {
    if toks != [] {
      NoneAttached(toks[1..], client, cls);
    }
  }

  /** In every run an acquire is refused exactly when live tokens already fill one of its limits. */
  lemma RefusedExactlyWhenFull(l: Limits, ops: seq<Op>, cls: ToolClass, client: string)
    ensures var w := Run(l, START, ops);
      Acquired(l, w.counts, cls, client).0.None?
      <==> (cls == Expensive && ClientTokens(w.toks, client) >= l.perClient) || GlobalTokens(w.toks, cls) >= Limit(l, cls)
  {
    AlwaysConserved(l, ops);
    hide Run;
    var w := Run(l, START, ops);
    assert ClientCount(w.counts, client) == ClientTokens(w.toks, client);
    assert InUse(w.counts, cls) == GlobalTokens(w.toks, cls);
  }

  /** A limit below one is the exact exception: every refused client leaves an idle entry behind. */
  lemma IdleEntries(l: Limits, client: string)
    requires l.perClient < 1
    ensures Step(l, START, Enter(Expensive, client)) == World(Counts(0, 0, map[client := 0]), [])
  {
  }

  /** An acquire that nobody comes between is an entry and its finish. */
  lemma AcquireIsTwoSteps(l: Limits, w: World, cls: ToolClass, client: string)
    ensures var (tok, c) := Acquired(l, w.counts, cls, client);
      var entered := Step(l, w, Enter(cls, client));
      if |entered.toks| == |w.toks| then tok.None? && c == entered.counts
      else
        Step(l, entered, Finish(|w.toks|)) == World(c, w.toks + [if tok.Some? then tok.value else NO_TOKEN])
  {
    var (tok, c) := Acquired(l, w.counts, cls, client);
    var entered := Step(l, w, Enter(cls, client));
    if |entered.toks| > |w.toks| {
      var t := if tok.Some? then tok.value else NO_TOKEN;
      assert entered.toks[|w.toks| := t] == w.toks + [t];
    }
  }
}
