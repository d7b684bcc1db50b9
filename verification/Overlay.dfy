/**
 The per-session configuration overlay: a table of 256 slots scanned linearly and stamped by a
 counter, proved to be a bounded map that gives up its least recently touched session.
 */
module Overlay {
  import opened Wrappers
  import opened ConfigKeys
  import opened SeqFacts

  const MAX_SESSIONS: nat := 256

  /** One session's overrides, by key. */
  datatype Row = Row(sid: nat, values: map<nat, string>)

  /** The sessions that hold an entry, the least recently touched first. */
  type Table = seq<Row>

  // ----- what the operations do -----

  function Find(v: Table, sid: nat): (k: nat)
    ensures k <= |v|
    ensures k < |v| ==> v[k].sid == sid
    ensures forall j :: 0 <= j < k ==> v[j].sid != sid
  {
    if v == [] then 0 else if v[0].sid == sid then 0 else 1 + Find(v[1..], sid)
  }

  /** Moved to the back: touched last. */
  function ToBack(v: Table, k: nat, row: Row): Table
    requires k < |v|
  {
    Without(v, k) + [row]
  }

  /** Storing a value: a full table first gives up its oldest session. */
  function Store(v: Table, sid: nat, key: nat, value: string): Table {
    var k := Find(v, sid);
    if k < |v| then ToBack(v, k, Row(sid, v[k].values[key := value]))
    else if |v| < MAX_SESSIONS then v + [Row(sid, map[key := value])]
    else v[1..] + [Row(sid, map[key := value])]
  }

  /** Unsetting: the session keeps its entry, and a session without one is left alone. */
  function Unset(v: Table, sid: nat, key: nat): Table {
    var k := Find(v, sid);
    if k < |v| then ToBack(v, k, Row(sid, v[k].values - {key})) else v
  }

  datatype Refusal = UnknownKey | DaemonWide | BadValue

  function Refused(name: string, value: string): Option<Refusal> {
    if KeyId(name).None? then Some(UnknownKey)
    else if !KEYS[KeyId(name).value].sessionOk then Some(DaemonWide)
    else if !ValueOk(KEYS[KeyId(name).value], value) then Some(BadValue)
    else None
  }

  /** `fractal_config_set_value`. */
  function SetValue(v: Table, sid: nat, name: string, value: string): Table {
    if Refused(name, value).Some? then v
    else if value == "" then Unset(v, sid, KeyId(name).value)
    else Store(v, sid, KeyId(name).value, value)
  }

  function RowOf(v: Table, sid: nat): Option<Row> {
    var k := Find(v, sid);
    if k < |v| then Some(v[k]) else None
  }

  /** What a session overrides a key with. */
  function Override(v: Table, sid: nat, key: nat): Option<string> {
    match RowOf(v, sid)
    case Some(row) => if key in row.values then Some(row.values[key]) else None
    case None => None
  }

  /** What of a value fits into a buffer with its NUL. */
  function Clipped(value: string, cap: nat): (r: string)
    requires cap > 0
    ensures r <= value && |r| < cap
    ensures r == value <==> |value| < cap
  {
    if |value| < cap then value else value[..cap - 1]
  }

  /** What `fractal_config_lookup_str` hands over in a buffer of `cap` characters. */
  function Fetched(v: Table, sid: nat, key: nat, cap: nat): Option<string>
    requires cap > 0
  {
    match Override(v, sid, key)
    case None => None
    case Some(value) => Some(Clipped(value, cap))
  }

  /** A lookup that finds a value touches the session. */
  function Looked(v: Table, sid: nat, key: nat): Table {
    var k := Find(v, sid);
    if k < |v| && key in v[k].values then ToBack(v, k, v[k]) else v
  }

  /** `fractal_config_reset_session`. */
  function Reset(v: Table, sid: nat): Table {
    var k := Find(v, sid);
    if k < |v| then Without(v, k) else v
  }

  // ----- what they keep -----

  predicate Unique(v: Table) {
    forall i, j :: 0 <= i < j < |v| ==> v[i].sid != v[j].sid
  }

  predicate RowOk(r: Row) {
    forall key :: key in r.values ==>
      key < |KEYS| && KEYS[key].sessionOk && r.values[key] != "" && ValueOk(KEYS[key], r.values[key])
  }

  /** One entry per session, never more than the table holds, and only values a session may set. */
  predicate TableOk(v: Table) {
    Unique(v) && |v| <= MAX_SESSIONS && forall i :: 0 <= i < |v| ==> RowOk(v[i])
  }

  lemma RowIs(v: Table, sid: nat, k: nat)
    requires Unique(v) && k < |v| && v[k].sid == sid
    ensures Find(v, sid) == k && RowOf(v, sid) == Some(v[k])
  {
  }

  lemma NoRow(v: Table, sid: nat)
    requires forall j :: 0 <= j < |v| ==> v[j].sid != sid
    ensures RowOf(v, sid) == None
  {
  }

  lemma WithoutOk(v: Table, k: nat)
    requires TableOk(v) && k < |v|
    ensures TableOk(Without(v, k)) && RowOf(Without(v, k), v[k].sid) == None
  {
    hide Find, RowOk, RowOf;
    var w := Without(v, k);
    NoRow(w, v[k].sid);
  }

  lemma WithoutElsewhere(v: Table, k: nat, other: nat)
    requires TableOk(v) && k < |v| && v[k].sid != other
    ensures RowOf(Without(v, k), other) == RowOf(v, other)
  {
    var w, i := Without(v, k), Find(v, other);
    WithoutOk(v, k);
    hide Find, RowOk, RowOf, Without;
    if i < |v| {
      RowIs(v, other, i);
      RowIs(w, other, if i < k then i else i - 1);
    } else {
      NoRow(v, other);
      NoRow(w, other);
    }
  }

  lemma BehindOk(v: Table, row: Row)
    requires TableOk(v) && |v| < MAX_SESSIONS && RowOf(v, row.sid) == None && RowOk(row)
    ensures TableOk(v + [row]) && RowOf(v + [row], row.sid) == Some(row)
  {
    assert Find(v, row.sid) == |v|;
    hide Find, RowOk, RowOf;
    var w := v + [row];
    assert Unique(w) by {
      assert forall i :: 0 <= i < |v| ==> w[i] == v[i];
    }
    RowIs(w, row.sid, |v|);
  }

  lemma {:induction false} BehindElsewhere(v: Table, row: Row, other: nat)
    requires other != row.sid
    ensures RowOf(v + [row], other) == RowOf(v, other)
  {
    if v != [] {
      SeqFacts.Uncons(v, [row]);
      if v[0].sid != other {
        BehindElsewhere(v[1..], row, other);
      }
    }
  }

  /** Moving one session to the back, with what it now holds. */
  lemma ToBackReads(v: Table, k: nat, row: Row, other: nat)
    requires TableOk(v) && k < |v| && row.sid == v[k].sid && RowOk(row)
    ensures var w := ToBack(v, k, row);
      && TableOk(w) && |w| == |v| && RowOf(w, row.sid) == Some(row)
      && (other != row.sid ==> RowOf(w, other) == RowOf(v, other))
  {
    hide Find, RowOk, RowOf, TableOk;
    WithoutOk(v, k);
    assert |v| <= MAX_SESSIONS by { SmallTable(v); }
    BehindOk(Without(v, k), row);
    if other != row.sid {
      WithoutElsewhere(v, k, other);
      BehindElsewhere(Without(v, k), row, other);
    }
  }

  lemma SmallTable(v: Table)
    requires TableOk(v)
    ensures |v| <= MAX_SESSIONS
  {
  }

  /** The session that a store by `sid` would push out of a full table. */
  predicate PushedOut(v: Table, sid: nat, other: nat) {
    RowOf(v, sid) == None && |v| == MAX_SESSIONS && v[0].sid == other
  }

  lemma NewReads(v: Table, row: Row, other: nat)
    requires TableOk(v) && RowOf(v, row.sid) == None && RowOk(row)
    ensures var w := (if |v| < MAX_SESSIONS then v else v[1..]) + [row];
      && TableOk(w) && RowOf(w, row.sid) == Some(row)
      && (other != row.sid && !PushedOut(v, row.sid, other) ==> RowOf(w, other) == RowOf(v, other))
  {
    hide Find, RowOk, RowOf, TableOk;
    SmallTable(v);
    var base := if |v| < MAX_SESSIONS then v else v[1..];
    if |v| == MAX_SESSIONS {
      assert v[1..] == Without(v, 0);
      WithoutOk(v, 0);
      if v[0].sid != row.sid { WithoutElsewhere(v, 0, row.sid); }
      if v[0].sid != other { WithoutElsewhere(v, 0, other); }
    }
    BehindOk(base, row);
    if other != row.sid {
      BehindElsewhere(base, row, other);
    }
  }

  lemma RowFound(v: Table, sid: nat)
    requires TableOk(v)
    ensures RowOf(v, sid) == None <==> Find(v, sid) == |v|
    ensures Find(v, sid) < |v| ==> RowOf(v, sid) == Some(v[Find(v, sid)]) && RowOk(v[Find(v, sid)])
  {
  }

  /**
   A stored value is read back by that session under that key; its other keys stay, and so does
   every other session except the one that a full table gives up, its least recently touched.
   */
  lemma StoreReads(v: Table, sid: nat, key: nat, value: string, other: nat, key': nat)
    requires TableOk(v) && RowOk(Row(sid, map[key := value]))
    ensures var w := Store(v, sid, key, value);
      && TableOk(w) && Override(w, sid, key) == Some(value)
      && (key' != key ==> Override(w, sid, key') == Override(v, sid, key'))
      && (other != sid && !PushedOut(v, sid, other) ==> RowOf(w, other) == RowOf(v, other))
      && (PushedOut(v, sid, other) && other != sid ==> RowOf(w, other) == None)
  {
    var k := Find(v, sid);
    RowFound(v, sid);
    if k < |v| {
      var row := Row(sid, v[k].values[key := value]);
      assert RowOk(row) by {
        assert map[key := value][key] == value;
      }
      hide Find, RowOk, RowOf, TableOk;
      ToBackReads(v, k, row, other);
    } else {
      hide Find, RowOk, RowOf, TableOk;
      NewReads(v, Row(sid, map[key := value]), other);
      if PushedOut(v, sid, other) && other != sid {
        PushedOutIsGone(v, Row(sid, map[key := value]), other);
      }
    }
  }

  lemma PushedOutIsGone(v: Table, row: Row, other: nat)
    requires TableOk(v) && PushedOut(v, row.sid, other) && other != row.sid
    ensures RowOf(v[1..] + [row], other) == None
  {
    assert v[1..] == Without(v, 0);
    WithoutOk(v, 0);
    BehindElsewhere(v[1..], row, other);
  }

  /** An unset key reads as nothing; everything else stays. */
  lemma UnsetReads(v: Table, sid: nat, key: nat, other: nat, key': nat)
    requires TableOk(v)
    ensures var w := Unset(v, sid, key);
      && TableOk(w) && Override(w, sid, key) == None
      && (key' != key ==> Override(w, sid, key') == Override(v, sid, key'))
      && (other != sid ==> RowOf(w, other) == RowOf(v, other))
  {
    var k := Find(v, sid);
    RowFound(v, sid);
    if k < |v| {
      var row := Row(sid, v[k].values - {key});
      assert RowOk(row);
      hide Find, RowOk, RowOf, TableOk;
      ToBackReads(v, k, row, other);
    }
  }

  /** A reset session overrides nothing; every other session stays. */
  lemma ResetReads(v: Table, sid: nat, other: nat, key: nat)
    requires TableOk(v)
    ensures var w := Reset(v, sid);
      && TableOk(w) && RowOf(w, sid) == None && Override(w, sid, key) == None
      && (other != sid ==> RowOf(w, other) == RowOf(v, other))
  {
    var k := Find(v, sid);
    RowFound(v, sid);
    if k < |v| {
      WithoutOk(v, k);
      if other != sid { WithoutElsewhere(v, k, other); }
    }
  }

  /** A lookup changes no session's overrides, only who goes first when the table is full. */
  lemma LookedReads(v: Table, sid: nat, key: nat, other: nat)
    requires TableOk(v)
    ensures TableOk(Looked(v, sid, key)) && RowOf(Looked(v, sid, key), other) == RowOf(v, other)
  {
    var k := Find(v, sid);
    RowFound(v, sid);
    if k < |v| {
      hide Find, RowOk, RowOf, TableOk;
      ToBackReads(v, k, v[k], other);
    }
  }

  /** Setting keeps the table sound, whatever is set; a refused value changes nothing. */
  lemma SetValueOk(v: Table, sid: nat, name: string, value: string, other: nat)
    requires TableOk(v)
    ensures TableOk(SetValue(v, sid, name, value))
    ensures other != sid && !PushedOut(v, sid, other) ==> RowOf(SetValue(v, sid, name, value), other) == RowOf(v, other)
    ensures Refused(name, value).None? ==>
      Override(SetValue(v, sid, name, value), sid, KeyId(name).value) == if value == "" then None else Some(value)
  {
    hide Find, RowOf, TableOk, ValueOk, KeyId, Store, Unset;
    if Refused(name, value).None? {
      var key := KeyId(name).value;
      if value == "" {
        UnsetReads(v, sid, key, other, key);
      } else {
        assert RowOk(Row(sid, map[key := value]));
        StoreReads(v, sid, key, value, other, key);
      }
    }
  }

  // ----- what a lookup can cut -----

  /** The values that sessions may set are bounded by the lookup buffer, except integers, which have no bound. */
  lemma OverridesFit(v: Table, sid: nat, key: nat)
    requires TableOk(v) && Override(v, sid, key).Some? && !KEYS[key].kind.Integer?
    ensures Fetched(v, sid, key, MAX_VALUE) == Override(v, sid, key)
  {
    RowFound(v, sid);
  }

  function Spaces(n: nat): (s: string)
    ensures |s| == n && forall i :: 0 <= i < n ==> s[i] == ' '
  {
    seq(n, _ => ' ')
  }

  lemma {:induction false} SkipSpaces(n: nat, t: string)
    requires t != "" && !IsSpace(t[0])
    ensures SkipSpace(Spaces(n) + t) == t
  {
    if n == 0 {
      assert Spaces(0) + t == t;
    } else {
      assert (Spaces(n) + t)[1..] == Spaces(n - 1) + t;
      SkipSpaces(n - 1, t);
    }
  }

  /** A number behind enough white space is accepted and stored, and read back as white space alone. */
  lemma LongIntegerIsCut(v: Table, sid: nat, n: nat)
    requires TableOk(v) && n >= MAX_VALUE
    ensures var w := SetValue(v, sid, "think_num_ctx", Spaces(n) + "5");
      && Override(w, sid, THINK_NUM_CTX) == Some(Spaces(n) + "5")
      && Fetched(w, sid, THINK_NUM_CTX, MAX_VALUE) == Some(Spaces(MAX_VALUE - 1))
  {
    var value := Spaces(n) + "5";
    SkipSpaces(n, "5");
    assert "5"[..0] == "";
    assert ParseLong(value) == Some(5);
    NumCtxKey();
    assert value != "";
    assert Clipped(value, MAX_VALUE) == Spaces(MAX_VALUE - 1);
    SetValueOk(v, sid, "think_num_ctx", value, sid);
  }

  lemma NumCtxKey()
    ensures KeyId("think_num_ctx") == Some(THINK_NUM_CTX)
    ensures KEYS[THINK_NUM_CTX].kind == Integer(1, 10000000) && KEYS[THINK_NUM_CTX].sessionOk
  {
    hide KeyIdFrom;
    var name := "think_num_ctx";
    assert name[0] == 't' && PREFIX[0] == 'f';
    var id := KeyIdFrom(name, 0);
    assert KEYS[THINK_NUM_CTX].name == name;
    assert |KEYS[id.value].name| == |name| && KEYS[id.value].name[0] == 't';
  }
}
