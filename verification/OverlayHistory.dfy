/**
 Histories of the overlay: which session a full table gives up, in terms of the calls that were made, and which
 values those calls can have stored.
 */
module OverlayHistory {
  import opened Wrappers
  import opened ConfigKeys
  import opened Overlay
  import opened JsonSyntax
  import opened SeqFacts

  datatype Call =
    | Set(sid: nat, name: string, value: string)
    | Ask(sid: nat, key: nat)
    | Forget(sid: nat)

  function After(v: Table, call: Call): Table {
    match call
    case Set(sid, name, value) => SetValue(v, sid, name, value)
    case Ask(sid, key) => Looked(v, sid, key)
    case Forget(sid) => Reset(v, sid)
  }

  /** The table after some calls, from an empty one. */
  function History(calls: seq<Call>): Table
    decreases |calls|
  {
    if calls == [] then [] else After(History(calls[..|calls| - 1]), calls[|calls| - 1])
  }

  lemma {:induction false} HistoryOk(calls: seq<Call>)
    ensures TableOk(History(calls))
    decreases |calls|
  {
    hide SetValue, Looked, Reset, TableOk, RowOf, PushedOut, Refused, KeyId;
    if calls == [] {
      NothingIsOk();
    } else {
      HistoryOk(calls[..|calls| - 1]);
      var v := History(calls[..|calls| - 1]);
      match calls[|calls| - 1]
      case Set(sid, name, value) => SetValueOk(v, sid, name, value, sid);
      case Ask(sid, key) => LookedReads(v, sid, key, sid);
      case Forget(sid) => ResetReads(v, sid, sid, 0);
    }
  }

  lemma NothingIsOk()
    ensures TableOk([])
  {
  }

  // ----- who was touched last -----

  /** A call touches its session when it stores a value, or unsets one in an entry it has, or finds one. */
  predicate Touches(v: Table, call: Call, sid: nat) {
    match call
    case Set(s, name, value) => s == sid && Refused(name, value).None? && (value != "" || RowOf(v, sid).Some?)
    case Ask(s, key) => s == sid && Override(v, sid, key).Some?
    case Forget(_) => false
  }

  /** The call at place t is the last that has touched the session. */
  predicate LastTouch(calls: seq<Call>, sid: nat, t: nat) {
    && t < |calls| && Touches(History(calls[..t]), calls[t], sid)
    && forall u :: t < u < |calls| ==> !Touches(History(calls[..u]), calls[u], sid)
  }

  lemma LastTouchNow(calls: seq<Call>, sid: nat)
    requires calls != [] && Touches(History(calls[..|calls| - 1]), calls[|calls| - 1], sid)
    ensures LastTouch(calls, sid, |calls| - 1)
  {
  }

  lemma LastTouchKept(calls: seq<Call>, sid: nat, t: nat)
    requires calls != [] && LastTouch(calls[..|calls| - 1], sid, t)
    requires !Touches(History(calls[..|calls| - 1]), calls[|calls| - 1], sid)
    ensures LastTouch(calls, sid, t)
  {
    hide History, Touches;
    var before := calls[..|calls| - 1];
    assert before[..t] == calls[..t];
    forall u | t < u < |calls|
      ensures !Touches(History(calls[..u]), calls[u], sid)
    {
      if u < |before| {
        assert before[..u] == calls[..u] && before[u] == calls[u];
      }
    }
  }

  /** The rows' last touches, in the order of the table. */
  predicate Rising(calls: seq<Call>, v: Table, times: seq<nat>) {
    && |times| == |v|
    && (forall i :: 0 <= i < |v| ==> LastTouch(calls, v[i].sid, times[i]))
    && (forall i, j :: 0 <= i < j < |times| ==> times[i] < times[j])
  }

  lemma RisingWithout(calls: seq<Call>, v: Table, times: seq<nat>, k: nat)
    requires Rising(calls, v, times) && k < |v|
    ensures Rising(calls, Without(v, k), Without(times, k))
  {
    hide LastTouch;
    WithoutAt(v, k);
    WithoutAt(times, k);
  }

  /** A table that makes place for a row of this session. */
  function Made(v: Table, sid: nat): Table {
    var k := Find(v, sid);
    if k < |v| then Without(v, k) else if |v| == 256 then v[1..] else v
  }

  /** What a call does to the list: its session goes to the back, where a full table loses its first, or it is gone. */
  lemma AfterIs(v: Table, call: Call) returns (row: Row)
    requires TableOk(v)
    ensures row.sid == call.sid
    ensures Touches(v, call, call.sid) ==> After(v, call) == Made(v, call.sid) + [row]
    ensures !Touches(v, call, call.sid) ==>
      After(v, call) == v || (call.Forget? && Find(v, call.sid) < |v| && After(v, call) == Without(v, Find(v, call.sid)))
  {
    hide Refused, KeyId, TableOk, Without;
    SmallTable(v);
    var w := After(v, call);
    row := Row(call.sid, map[]);
    if Touches(v, call, call.sid) {
      row := w[|w| - 1];
    }
  }

  /** Times for the rows of every history. */
  lemma {:induction false} Times(calls: seq<Call>) returns (times: seq<nat>)
    ensures Rising(calls, History(calls), times)
    decreases |calls|
  {
    hide After, Touches, TableOk, Rising, LastTouch, Made;
    times := [];
    if calls == [] {
      NoTimes();
    } else {
      var before, call := calls[..|calls| - 1], calls[|calls| - 1];
      var v := History(before);
      var old' := Times(before);
      HistoryOk(before);
      times := TimesAfter(calls, v, old');
    }
  }

  lemma SameCount(calls: seq<Call>, v: Table, times: seq<nat>)
    requires Rising(calls, v, times)
    ensures |times| == |v|
  {
  }

  lemma NoTimes()
    ensures Rising([], [], [])
  {
  }

  lemma KeptRising(calls: seq<Call>, v: Table, times: seq<nat>)
    requires calls != [] && Rising(calls[..|calls| - 1], v, times)
    requires forall i :: 0 <= i < |v| ==> !Touches(History(calls[..|calls| - 1]), calls[|calls| - 1], v[i].sid)
    ensures Rising(calls, v, times)
    ensures forall i :: 0 <= i < |times| ==> times[i] < |calls| - 1
  {
    hide LastTouch, Touches, History;
    forall i | 0 <= i < |v|
      ensures LastTouch(calls, v[i].sid, times[i]) && times[i] < |calls| - 1
    {
      LastTouchBefore(calls[..|calls| - 1], v[i].sid, times[i]);
      LastTouchKept(calls, v[i].sid, times[i]);
    }
  }

  lemma LastTouchBefore(calls: seq<Call>, sid: nat, t: nat)
    requires LastTouch(calls, sid, t)
    ensures t < |calls|
  {
  }

  lemma RisingBehind(calls: seq<Call>, v: Table, times: seq<nat>, row: Row, t: nat)
    requires Rising(calls, v, times) && LastTouch(calls, row.sid, t)
    requires forall i :: 0 <= i < |times| ==> times[i] < t
    ensures Rising(calls, v + [row], times + [t])
  {
    hide LastTouch;
  }

  lemma MadeRising(calls: seq<Call>, v: Table, times: seq<nat>, sid: nat) returns (made: seq<nat>)
    requires Unique(v) && Rising(calls, v, times)
    ensures Rising(calls, Made(v, sid), made)
    ensures forall i :: 0 <= i < |Made(v, sid)| ==> Made(v, sid)[i].sid != sid
  {
    hide LastTouch, Rising;
    SameCount(calls, v, times);
    var k := Find(v, sid);
    made := times;
    if k < |v| {
      WithoutAt(v, k);
      RisingWithout(calls, v, times, k);
      made := Without(times, k);
    } else if |v| == 256 {
      assert v[1..] == Without(v, 0);
      RisingWithout(calls, v, times, 0);
      made := Without(times, 0);
    }
  }

  lemma OnlyItsOwn(v: Table, call: Call, sid: nat)
    requires sid != call.sid
    ensures !Touches(v, call, sid)
  {
  }

  lemma TimesAfter(calls: seq<Call>, v: Table, before: seq<nat>) returns (times: seq<nat>)
    requires calls != [] && v == History(calls[..|calls| - 1]) && TableOk(v)
    requires Rising(calls[..|calls| - 1], v, before)
    ensures Rising(calls, After(v, calls[|calls| - 1]), times)
  {
    hide After, Touches, History, Rising, LastTouch, Made, RowOk, Find;
    var call := calls[|calls| - 1];
    var row := AfterIs(v, call);
    forall sid | sid != call.sid
      ensures !Touches(v, call, sid)
    {
      OnlyItsOwn(v, call, sid);
    }
    if Touches(v, call, call.sid) {
      var made := MadeRising(calls[..|calls| - 1], v, before, call.sid);
      KeptRising(calls, Made(v, call.sid), made);
      LastTouchNow(calls, call.sid);
      RisingBehind(calls, Made(v, call.sid), made, row, |calls| - 1);
      times := made + [|calls| - 1];
    } else if After(v, call) == v {
      KeptRising(calls, v, before);
      times := before;
    } else {
      var k := Find(v, call.sid);
      SameCount(calls[..|calls| - 1], v, before);
      RisingWithout(calls[..|calls| - 1], v, before, k);
      KeptRising(calls, Without(v, k), Without(before, k));
      times := Without(before, k);
    }
  }

  /**
   Over every history: a full table that takes in a new session gives up the one whose last touch lies
   furthest back. A touch is a value stored, one unset, or a lookup that found one.
   */
  lemma OldestTouchGoes(calls: seq<Call>, sid: nat, gone: nat) returns (t: nat)
    requires PushedOut(History(calls), sid, gone)
    ensures LastTouch(calls, gone, t)
    ensures forall i :: 0 <= i < |History(calls)| && History(calls)[i].sid != gone ==>
      exists u: nat :: t < u && LastTouch(calls, History(calls)[i].sid, u)
  {
    var v := History(calls);
    var times := Times(calls);
    HistoryOk(calls);
    t := times[0];
    hide History, LastTouch, Touches;
    forall i | 0 <= i < |v| && v[i].sid != gone
      ensures exists u: nat :: t < u && LastTouch(calls, v[i].sid, u)
    {
      assert t < times[i] && LastTouch(calls, v[i].sid, times[i]);
    }
  }

  // ----- which values can be stored -----

  /** White space as strtol skips it, a sign or none, and decimal digits. */
  predicate Spells(value: string, blanks: string, sign: string, digits: string) {
    && value == blanks + (sign + digits)
    && (forall i :: 0 <= i < |blanks| ==> blanks[i] in {' ', '\t', '\n', 11 as char, 12 as char, '\r'})
    && sign in {"", "+", "-"} && digits != "" && Digits(digits)
  }

  function Signed(sign: string, digits: string): int
    requires Digits(digits)
  {
    var n: int := DigitsValue(digits);
    if sign == "-" then -n else n
  }

  /** The text is an integer between the bounds. */
  ghost predicate IntegerBetween(value: string, min: int, max: int) {
    exists blanks, sign, digits :: Spells(value, blanks, sign, digits) && min <= Signed(sign, digits) <= max
  }

  lemma {:induction false} SkipBlanks(blanks: string, rest: string)
    requires forall i :: 0 <= i < |blanks| ==> IsSpace(blanks[i])
    requires rest == "" || !IsSpace(rest[0])
    ensures SkipSpace(blanks + rest) == rest
    decreases |blanks|
  {
    if blanks == "" {
      assert blanks + rest == rest;
    } else {
      SeqFacts.Uncons(blanks, rest);
      SkipBlanks(blanks[1..], rest);
    }
  }

  lemma {:induction false} Skipped(value: string) returns (blanks: string)
    ensures value == blanks + SkipSpace(value)
    ensures forall i :: 0 <= i < |blanks| ==> IsSpace(blanks[i])
    decreases |value|
  {
    blanks := "";
    if value != "" && IsSpace(value[0]) {
      var more := Skipped(value[1..]);
      blanks := [value[0]] + more;
      SeqFacts.Assoc([value[0]], more, SkipSpace(value[1..]));
      assert value == [value[0]] + value[1..];
    }
  }

  lemma SpaceIs(c: char)
    ensures IsSpace(c) <==> c in {' ', '\t', '\n', 11 as char, 12 as char, '\r'}
  {
  }

  lemma SpelledParses(value: string, blanks: string, sign: string, digits: string)
    requires Spells(value, blanks, sign, digits)
    ensures ParseLong(value) == Some(Signed(sign, digits))
  {
    hide DigitsValue, SkipSpace;
    forall i | 0 <= i < |blanks|
      ensures IsSpace(blanks[i])
    {
      SpaceIs(blanks[i]);
    }
    var rest := sign + digits;
    assert sign == "" ==> rest == digits;
    assert sign != "" ==> rest[0] == sign[0] && rest[1..] == digits;
    SkipBlanks(blanks, rest);
  }

  lemma ParsedIsSpelled(value: string) returns (blanks: string, sign: string, digits: string)
    requires ParseLong(value).Some?
    ensures Spells(value, blanks, sign, digits) && ParseLong(value) == Some(Signed(sign, digits))
  {
    hide DigitsValue, SkipSpace;
    blanks := Skipped(value);
    forall i | 0 <= i < |blanks|
      ensures blanks[i] in {' ', '\t', '\n', 11 as char, 12 as char, '\r'}
    {
      SpaceIs(blanks[i]);
    }
    var t := SkipSpace(value);
    sign, digits := "", t;
    if t[0] == '-' || t[0] == '+' {
      sign, digits := [t[0]], t[1..];
    }
    assert t == sign + digits;
  }

  /** `parse_long` and the bounds of a key together. */
  lemma IntegerBetweenIff(value: string, min: int, max: int)
    ensures IntegerBetween(value, min, max) <==> ParseLong(value).Some? && min <= ParseLong(value).value <= max
  {
    hide ParseLong, Signed, SkipSpace;
    if ParseLong(value).Some? {
      var blanks, sign, digits := ParsedIsSpelled(value);
      forall b, s, d | Spells(value, b, s, d)
        ensures Digits(d) && Digits(digits) && Signed(s, d) == Signed(sign, digits)
      {
        SpelledParses(value, b, s, d);
      }
    } else if blanks, sign, digits :| Spells(value, blanks, sign, digits) {
      SpelledParses(value, blanks, sign, digits);
      assert false;
    }
  }

  const FLAG_WORDS: set<string> := {"true", "on", "1", "yes", "false", "off", "0", "no"}

  /** The keys a session may set, and what each of them takes; the empty text unsets any of them. */
  ghost predicate MaySet(name: string, value: string) {
    || (name in {"reasoning_model", "embed_model", "think"} && |value| < 8192)
    || (name == "think_num_ctx" && (value == "" || IntegerBetween(value, 1, 10000000)))
    || (name == "t2s_max_attempts" && (value == "" || IntegerBetween(value, 1, 10)))
    || (name == "t2s_use_review" && (value == "" || value in FLAG_WORDS))
  }

  /** A key by its name without the prefix. */
  function Bare(name: string): string {
    if "fractalsql." <= name then name[11..] else name
  }

  const SESSION_KEYS: set<nat> := {3, 6, 7, 10, 11, 13}

  lemma SessionKeys(id: nat)
    requires id < 18
    ensures |KEYS| == 18 && (KEYS[id].sessionOk <==> id in SESSION_KEYS)
    ensures KEYS[3].name == "reasoning_model" && KEYS[6].name == "embed_model" && KEYS[7].name == "think"
    ensures KEYS[10].name == "think_num_ctx" && KEYS[11].name == "t2s_max_attempts" && KEYS[13].name == "t2s_use_review"
    ensures KEYS[3].kind == Text && KEYS[6].kind == Text && KEYS[7].kind == Text && KEYS[13].kind == Flag
    ensures KEYS[10].kind == Integer(1, 10000000) && KEYS[11].kind == Integer(1, 10)
  {
  }

  const NAME_LENGTHS: seq<nat> := [16, 13, 15, 15, 25, 9, 11, 5, 14, 16, 13, 16, 22, 14, 14, 22, 21, 28]

  lemma NameLength(id: nat)
    requires id < 18
    ensures |KEYS| == |NAME_LENGTHS| == 18 && |KEYS[id].name| == NAME_LENGTHS[id]
  {
  }

  /** Where keys whose names are equally long differ. */
  lemma NameLetters()
    ensures |KEYS| == 18
    ensures KEYS[2].name[10] == 't' && KEYS[3].name[10] == 'm'
    ensures KEYS[1].name[0] == 'r' && KEYS[10].name[0] == 't'
    ensures KEYS[0].name[1] == 'e' && KEYS[9].name[1] == 'h' && KEYS[11].name[1] == '2'
    ensures KEYS[8].name[1] == 'h' && KEYS[14].name[1] == 'n' && KEYS[13].name[1] == '2'
  {
  }

  /** No other key has a session key's name. */
  lemma NamesTell(id: nat, other: nat)
    requires id in SESSION_KEYS && other < 18 && other != id
    ensures |KEYS| == 18 && KEYS[id].name != KEYS[other].name
  {
    hide KEYS;
    NameLength(id);
    NameLength(other);
    NameLetters();
  }

  lemma SessionName(name: string, id: nat)
    requires id in SESSION_KEYS && |KEYS| == 18 && KEYS[id].name == Bare(name)
    ensures KeyId(name) == Some(id)
  {
    hide KEYS, KeyIdFrom;
    var found := KeyIdFrom(Bare(name), 0);
    if found.Some? && found.value != id {
      NamesTell(id, found.value);
    }
  }

  /** The names of the session keys differ in length. */
  lemma ByLength(name: string)
    ensures name == "reasoning_model" ==> |name| == 15
    ensures name == "embed_model" ==> |name| == 11
    ensures name == "think" ==> |name| == 5
    ensures name == "think_num_ctx" ==> |name| == 13
    ensures name == "t2s_max_attempts" ==> |name| == 16
    ensures name == "t2s_use_review" ==> |name| == 14
  {
  }

  lemma TakenByName(name: string, value: string)
    ensures name == "reasoning_model" || name == "embed_model" || name == "think"
      ==> (MaySet(name, value) <==> |value| < 8192)
    ensures name == "think_num_ctx" ==> (MaySet(name, value) <==> value == "" || IntegerBetween(value, 1, 10000000))
    ensures name == "t2s_max_attempts" ==> (MaySet(name, value) <==> value == "" || IntegerBetween(value, 1, 10))
    ensures name == "t2s_use_review" ==> (MaySet(name, value) <==> value == "" || value in FLAG_WORDS)
  {
    hide IntegerBetween, FLAG_WORDS;
    ByLength(name);
  }

  lemma TakenById(id: nat, value: string)
    requires id in SESSION_KEYS && |KEYS| == 18
    ensures ValueOk(KEYS[id], value) <==> MaySet(KEYS[id].name, value)
  {
    hide KEYS, MaySet, IntegerBetween, ParseLong, ParseBool, FLAG_WORDS;
    SessionKeys(id);
    IntegerBetweenIff(value, 1, 10000000);
    IntegerBetweenIff(value, 1, 10);
    FlagIs(value);
    TakenByName(KEYS[id].name, value);
  }

  lemma NameOfTaken(name: string, value: string) returns (id: nat)
    requires MaySet(name, value)
    ensures id in SESSION_KEYS && id < 18 && |KEYS| == 18 && KEYS[id].name == name
  {
    hide KEYS, IntegerBetween, FLAG_WORDS;
    SessionKeys(0);
    id := if name == "reasoning_model" then 3 else if name == "embed_model" then 6 else if name == "think" then 7
          else if name == "think_num_ctx" then 10 else if name == "t2s_max_attempts" then 11 else 13;
  }

  /** Which calls are taken: exactly those for a session key, by either of its names, with a value that it takes. */
  lemma AcceptedIff(name: string, value: string)
    ensures Refused(name, value).None? <==> MaySet(Bare(name), value)
  {
    hide KEYS, MaySet, ValueOk, KeyId, SESSION_KEYS;
    SessionKeys(0);
    if Refused(name, value).None? {
      var id := KeyId(name).value;
      NamedBare(name);
      SessionKeys(id);
      TakenById(id, value);
    } else if MaySet(Bare(name), value) {
      var id := NameOfTaken(Bare(name), value);
      SessionKeys(id);
      SessionName(name, id);
      TakenById(id, value);
      assert false;
    }
  }

  lemma NamedBare(name: string)
    ensures KeyId(name).Some? ==> KEYS[KeyId(name).value].name == Bare(name)
  {
  }

  lemma FlagIs(value: string)
    ensures ParseBool(value).Some? <==> value == "" || value in FLAG_WORDS
  {
  }

  /**
   Over every history, whatever a session overrides a key with is a value that the key takes, and not the
   empty one: a text below 8192 characters, an integer inside the key's bounds, or a flag word.
   */
  lemma StoredValues(calls: seq<Call>, sid: nat, key: nat)
    requires Override(History(calls), sid, key).Some?
    ensures key in SESSION_KEYS && |KEYS| == 18 && Override(History(calls), sid, key).value != ""
    ensures MaySet(KEYS[key].name, Override(History(calls), sid, key).value)
  {
    hide KEYS, History, Find, TableOk, ValueOk, MaySet;
    var v := History(calls);
    HistoryOk(calls);
    RowFound(v, sid);
    var value := Override(v, sid, key).value;
    SessionKeys(0);
    SessionKeys(key);
    TakenById(key, value);
  }

  // ----- the keys no session may set -----

  const DAEMON_KEYS: set<string> := {
    "reasoning_plugin", "reasoning_url", "reasoning_token", "reasoning_allow_plaintext", "embed_url",
    "think_provider", "think_native_url", "t2s_allowed_statements", "enterprise_lib", "enterprise_ledger_path",
    "enterprise_ledger_key", "enterprise_require_signature"}

  lemma DaemonKeys(id: nat)
    requires id < 18 && id !in SESSION_KEYS
    ensures |KEYS| == 18 && KEYS[id].name in DAEMON_KEYS
  {
  }

  lemma DaemonTable()
    ensures |KEYS| == 18
    ensures KEYS[0].name == "reasoning_plugin" && KEYS[1].name == "reasoning_url" && KEYS[2].name == "reasoning_token"
    ensures KEYS[4].name == "reasoning_allow_plaintext" && KEYS[5].name == "embed_url" && KEYS[8].name == "think_provider"
    ensures KEYS[0].kind == Path
  {
  }

  lemma DaemonTableBehind()
    ensures |KEYS| == 18
    ensures KEYS[9].name == "think_native_url" && KEYS[12].name == "t2s_allowed_statements"
    ensures KEYS[14].name == "enterprise_lib" && KEYS[15].name == "enterprise_ledger_path"
    ensures KEYS[16].name == "enterprise_ledger_key" && KEYS[17].name == "enterprise_require_signature"
    ensures KEYS[12].kind == Choice("select|select_insert_update")
  {
  }

  lemma DaemonNames(name: string) returns (id: nat)
    requires name in DAEMON_KEYS
    ensures |KEYS| == 18 && id < 18 && id !in SESSION_KEYS && KEYS[id].name == name
  {
    hide KEYS;
    DaemonTable();
    DaemonTableBehind();
    id := if name == "reasoning_plugin" then 0 else if name == "reasoning_url" then 1
          else if name == "reasoning_token" then 2 else if name == "reasoning_allow_plaintext" then 4
          else if name == "embed_url" then 5 else if name == "think_provider" then 8
          else if name == "think_native_url" then 9 else if name == "t2s_allowed_statements" then 12
          else if name == "enterprise_lib" then 14 else if name == "enterprise_ledger_path" then 15
          else if name == "enterprise_ledger_key" then 16 else 17;
  }

  /** A call is refused as daemon-wide exactly for these twelve names, whatever its value. */
  lemma DaemonWideIff(name: string, value: string)
    ensures Refused(name, value) == Some(DaemonWide) <==> Bare(name) in DAEMON_KEYS
  {
    hide KEYS, ValueOk, KeyIdFrom, DAEMON_KEYS, SESSION_KEYS;
    SessionKeys(0);
    var found := KeyIdFrom(Bare(name), 0);
    if Bare(name) in DAEMON_KEYS {
      var id := DaemonNames(Bare(name));
      if found.Some? {
        SessionKeys(found.value);
        if found.value in SESSION_KEYS {
          NamesTell(found.value, id);
        }
      }
    }
    if found.Some? {
      SessionKeys(found.value);
      if found.value !in SESSION_KEYS {
        DaemonKeys(found.value);
      }
    }
  }

  /** What the remaining kinds of key take: a path, or one of the listed words. */
  lemma DaemonValues(value: string)
    ensures |KEYS| == 18
    ensures ValueOk(KEYS[0], value) <==> value == "" || PathOk(value)
    ensures ValueOk(KEYS[12], value) <==> value in {"", "select", "select_insert_update"}
  {
    hide PathOk, Members, KEYS;
    DaemonTable();
    DaemonTableBehind();
    ChoiceOfTwo(value);
  }

  lemma ChoiceOfTwo(value: string)
    ensures value in Members("select|select_insert_update") <==> value == "select" || value == "select_insert_update"
  {
    hide Members;
    TwoWords();
    MembersAre("select", "select_insert_update");
    MembersAre("select_insert_update", "");
  }

  lemma TwoWords()
    ensures "select" + "|" + "select_insert_update" == "select|select_insert_update"
  {
  }
}
