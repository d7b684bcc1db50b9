/**
 `fractal_config_env_fingerprint`: the byte stream that is hashed, and exactly which environments it
 fails to tell apart.
 */
module Fingerprint {
  import opened Wrappers
  import opened ConfigKeys
  import opened BridgeEnv
  import opened Texts
  import SeqFacts

  function Name(v: Var): string {
    "FSQL_REASONING_HTTP_" +
    match v
    case Url => "URL"
    case Token => "TOKEN"
    case Model => "MODEL"
    case AllowPlaintext => "ALLOW_PLAINTEXT"
    case Mode => "MODE"
    case ResponseMode => "RESPONSE_MODE"
    case SystemTag => "SYSTEM_TAG"
    case Think => "THINK"
    case ThinkProvider => "THINK_PROVIDER"
    case NativeUrl => "NATIVE_URL"
    case NumCtx => "NUM_CTX"
  }

  /** The variables that count: all but SYSTEM_TAG, in the order they are hashed. */
  const COUNTED: seq<Var> :=
    [Url, Token, Model, AllowPlaintext, Mode, ResponseMode, Think, ThinkProvider, NativeUrl, NumCtx]

  /** `fnv_bytes`: the text and a NUL behind it; nothing at all for a null pointer. */
  function Token0(s: string): string {
    s + ['\0']
  }

  function ValueToken(e: Env, v: Var): string {
    if v in e then Token0(e[v]) else ""
  }

  function StreamFrom(e: Env, i: nat): string
    decreases |COUNTED| - i
  {
    if i >= |COUNTED| then "" else Token0(Name(COUNTED[i])) + (ValueToken(e, COUNTED[i]) + StreamFrom(e, i + 1))
  }

  /** FNV-1a as a fold over the stream; what one byte does to the hash is a parameter. */
  datatype Hash = Hash(basis: nat, step: (nat, char) -> nat)

  function Fold(h: Hash, acc: nat, s: string): nat
    decreases |s|
  {
    if s == "" then acc else Fold(h, h.step(acc, s[0]), s[1..])
  }

  function Stream(e: Env): string {
    StreamFrom(e, 0)
  }

  function Of(h: Hash, e: Env): nat {
    Fold(h, h.basis, Stream(e))
  }

  // ----- what the stream tells -----

  /** Values are C strings. */
  predicate CStrings(e: Env) {
    forall v :: v in e ==> NoNul(e[v])
  }

  predicate Agree(a: Env, b: Env) {
    forall i :: 0 <= i < |COUNTED| ==> Get(a, COUNTED[i]) == Get(b, COUNTED[i])
  }

  /** Two neighbours in the order, one set to the name of the second and the other not set. */
  predicate SwapsAt(e: Env, i: nat) {
    && i + 1 < |COUNTED|
    && var v, n := COUNTED[i], COUNTED[i + 1];
       (v !in e && Get(e, n) == Some(Name(n))) || (Get(e, v) == Some(Name(n)) && n !in e)
  }

  predicate Swappable(e: Env) {
    exists i: nat :: i + 1 < |COUNTED| && SwapsAt(e, i)
  }

  lemma FirstToken(a: string, x: string, b: string, y: string)
    requires NoNul(a) && NoNul(b) && Token0(a) + x == Token0(b) + y
    ensures a == b && x == y
  {
    var s, t := Token0(a) + x, Token0(b) + y;
    assert s[|a|] == '\0' && t[|b|] == '\0';
    assert forall i :: 0 <= i < |a| ==> s[i] == a[i];
    assert forall i :: 0 <= i < |b| ==> t[i] == b[i];
    assert |a| == |b|;
    assert s[..|a|] == a && t[..|b|] == b;
    SeqFacts.Skip(Token0(a), x);
    SeqFacts.Skip(Token0(b), y);
  }

  lemma NamesAreTexts(v: Var)
    ensures NoNul(Name(v))
  {
  }

  /** Neighbours have different names. */
  lemma NamesDiffer(i: nat)
    requires i + 1 < |COUNTED|
    ensures Name(COUNTED[i]) != Name(COUNTED[i + 1])
  {
    var v, n := COUNTED[i], COUNTED[i + 1];
    assert |Name(v)| != |Name(n)| || Name(v)[|Name(v)| - 1] != Name(n)[|Name(n)| - 1];
  }

  lemma StreamSteps(e: Env, i: nat)
    requires i < |COUNTED|
    ensures StreamFrom(e, i) == Token0(Name(COUNTED[i])) + (ValueToken(e, COUNTED[i]) + StreamFrom(e, i + 1))
  {
  }

  lemma StreamEnds(e: Env)
    ensures StreamFrom(e, |COUNTED|) == ""
  {
  }

  /** The stream from i on starts with the name of the i-th variable, if there is one. */
  lemma StartsWithName(e: Env, i: nat, a: string, x: string)
    requires i <= |COUNTED| && NoNul(a) && StreamFrom(e, i) == Token0(a) + x
    ensures i < |COUNTED| && a == Name(COUNTED[i]) && x == ValueToken(e, COUNTED[i]) + StreamFrom(e, i + 1)
  {
    var t := Token0(a) + x;
    assert t != "";
    if i < |COUNTED| {
      StreamSteps(e, i);
      NamesAreTexts(COUNTED[i]);
      FirstToken(a, x, Name(COUNTED[i]), ValueToken(e, COUNTED[i]) + StreamFrom(e, i + 1));
    }
  }

  /** One environment has taken the next name for a value; catching up, it meets a swap. */
  lemma {:induction false} Shifted(a: Env, b: Env, i: nat)
    requires CStrings(a) && CStrings(b) && i + 1 < |COUNTED|
    requires Get(a, COUNTED[i]) == Some(Name(COUNTED[i + 1]))
    requires ValueToken(b, COUNTED[i + 1]) + StreamFrom(b, i + 2) == StreamFrom(a, i + 1)
    ensures Swappable(a) && Get(b, COUNTED[i + 1]) == Some(Name(COUNTED[i + 1]))
    decreases |COUNTED| - i
  {
    hide Name, StreamFrom, Swappable, Token0, COUNTED;
    var n := COUNTED[i + 1];
    StreamSteps(a, i + 1);
    NamesAreTexts(n);
    var x := ValueToken(a, n) + StreamFrom(a, i + 2);
    if n !in b {
      assert ValueToken(b, n) + StreamFrom(b, i + 2) == StreamFrom(b, i + 2);
      StartsWithName(b, i + 2, Name(n), x);
      NamesDiffer(i + 1);
      assert false;
    } else {
      FirstToken(b[n], StreamFrom(b, i + 2), Name(n), x);
      if n !in a {
        SwapFound(a, i);
      } else {
        StartsWithName(b, i + 2, a[n], StreamFrom(a, i + 2));
        Shifted(a, b, i + 1);
      }
    }
  }

  lemma SwapFound(e: Env, i: nat)
    requires i + 1 < |COUNTED| && SwapsAt(e, i)
    ensures Swappable(e)
  {
  }

  /** Where two environments with the same stream first differ, both can be swapped. */
  lemma Differ(a: Env, b: Env, i: nat)
    requires CStrings(a) && CStrings(b) && i < |COUNTED| && COUNTED[i] in a && COUNTED[i] !in b
    requires StreamFrom(a, i) == StreamFrom(b, i)
    ensures Swappable(a) && Swappable(b)
  {
    hide Name, StreamFrom, Swappable, Token0, COUNTED;
    var v := COUNTED[i];
    StreamSteps(a, i);
    StreamSteps(b, i);
    NamesAreTexts(v);
    FirstToken(Name(v), ValueToken(a, v) + StreamFrom(a, i + 1), Name(v), ValueToken(b, v) + StreamFrom(b, i + 1));
    assert ValueToken(b, v) + StreamFrom(b, i + 1) == StreamFrom(b, i + 1);
    StartsWithName(b, i + 1, a[v], StreamFrom(a, i + 1));
    Shifted(a, b, i);
    SwapFound(b, i);
  }

  lemma {:induction false} SameStream(a: Env, b: Env, i: nat)
    requires CStrings(a) && CStrings(b) && i <= |COUNTED| && StreamFrom(a, i) == StreamFrom(b, i)
    requires !Swappable(a) || !Swappable(b)
    ensures forall j :: i <= j < |COUNTED| ==> Get(a, COUNTED[j]) == Get(b, COUNTED[j])
    decreases |COUNTED| - i
  {
    hide Name, StreamFrom, Swappable, Token0, COUNTED;
    if i < |COUNTED| {
      var v := COUNTED[i];
      if v in a && v !in b {
        Differ(a, b, i);
        assert false;
      } else if v in b && v !in a {
        Differ(b, a, i);
        assert false;
      } else {
        StreamSteps(a, i);
        StreamSteps(b, i);
        NamesAreTexts(v);
        FirstToken(Name(v), ValueToken(a, v) + StreamFrom(a, i + 1), Name(v), ValueToken(b, v) + StreamFrom(b, i + 1));
        if v in a {
          FirstToken(a[v], StreamFrom(a, i + 1), b[v], StreamFrom(b, i + 1));
        } else {
          assert ValueToken(a, v) + StreamFrom(a, i + 1) == StreamFrom(a, i + 1);
          assert ValueToken(b, v) + StreamFrom(b, i + 1) == StreamFrom(b, i + 1);
        }
        SameStream(a, b, i + 1);
      }
    }
  }

  /** The other environment of a swap. */
  function Swap(e: Env, i: nat): Env
    requires SwapsAt(e, i)
  {
    var v, n := COUNTED[i], COUNTED[i + 1];
    if v !in e then Put(Put(e, n, None), v, Some(Name(n))) else Put(Put(e, v, None), n, Some(Name(n)))
  }

  lemma CountedDiffer()
    ensures forall i, j :: 0 <= i < j < |COUNTED| ==> COUNTED[i] != COUNTED[j]
  {
  }

  lemma {:induction false} SwapStream(e: Env, i: nat, from: nat)
    requires SwapsAt(e, i) && from <= |COUNTED| && from != i + 1
    ensures StreamFrom(Swap(e, i), from) == StreamFrom(e, from)
    decreases |COUNTED| - from
  {
    CountedDiffer();
    hide Name, StreamFrom, Token0, COUNTED;
    var f := Swap(e, i);
    if from == |COUNTED| {
      StreamEnds(e);
      StreamEnds(f);
    } else {
      StreamSteps(e, from);
      StreamSteps(f, from);
      if from == i {
        StreamSteps(e, i + 1);
        StreamSteps(f, i + 1);
        SwapStream(e, i, i + 2);
        SwapPieces(Token0(Name(COUNTED[i + 1])), StreamFrom(e, i + 2));
      } else {
        SwapStream(e, i, from + 1);
      }
    }
  }

  lemma SwapPieces(t: string, x: string)
    ensures "" + (t + (t + x)) == t + (t + ("" + x))
  {
  }

  lemma PutCString(e: Env, v: Var, o: Option<string>)
    requires CStrings(e) && (o.Some? ==> NoNul(o.value))
    ensures CStrings(Put(e, v, o))
  {
  }

  lemma SwapCStrings(e: Env, i: nat)
    requires CStrings(e) && SwapsAt(e, i)
    ensures CStrings(Swap(e, i))
  {
    var v, n := COUNTED[i], COUNTED[i + 1];
    NamesAreTexts(n);
    hide Name, COUNTED, Put, CStrings, NoNul;
    PutCString(e, n, None);
    PutCString(e, v, None);
    PutCString(Put(e, n, None), v, Some(Name(n)));
    PutCString(Put(e, v, None), n, Some(Name(n)));
  }

  lemma SwapDiffers(e: Env, i: nat)
    requires SwapsAt(e, i)
    ensures Get(e, COUNTED[i]) != Get(Swap(e, i), COUNTED[i])
  {
    CountedDiffer();
    hide Name, COUNTED, Put;
  }

  lemma AgreeAt(a: Env, b: Env, i: nat)
    requires Agree(a, b) && i < |COUNTED|
    ensures Get(a, COUNTED[i]) == Get(b, COUNTED[i])
  {
  }

  lemma NoSwapNoOther(e: Env)
    requires CStrings(e) && !Swappable(e)
    ensures forall f: Env :: CStrings(f) && Stream(f) == Stream(e) ==> Agree(e, f)
  {
    hide Swappable, COUNTED, StreamFrom, CStrings, Name, Get;
    forall f: Env | CStrings(f) && Stream(f) == Stream(e)
      ensures Agree(e, f)
    {
      SameStream(e, f, 0);
    }
  }

  lemma SwapDisagrees(e: Env, i: nat)
    requires SwapsAt(e, i)
    ensures !Agree(e, Swap(e, i))
  {
    SwapDiffers(e, i);
    assert i < |COUNTED|;
    hide *;
    if Agree(e, Swap(e, i)) {
      AgreeAt(e, Swap(e, i), i);
    }
  }

  lemma SwapIsOther(e: Env, i: nat)
    requires CStrings(e) && SwapsAt(e, i)
    ensures CStrings(Swap(e, i)) && Stream(Swap(e, i)) == Stream(e) && !Agree(e, Swap(e, i))
  {
    hide SwapsAt, CStrings, StreamFrom, COUNTED, Swap, Agree;
    SwapStream(e, i, 0);
    SwapCStrings(e, i);
    SwapDisagrees(e, i);
  }

  lemma WhereItSwaps(e: Env) returns (i: nat)
    requires Swappable(e)
    ensures SwapsAt(e, i)
  {
    hide SwapsAt, COUNTED;
    i :| i + 1 < |COUNTED| && SwapsAt(e, i);
  }

  /**
   The stream tells an environment from every other one exactly when no two neighbouring variables
   are one unset, the other set to the name of the second.
   */
  lemma TellsApart(e: Env)
    requires CStrings(e)
    ensures (forall f: Env :: CStrings(f) && Stream(f) == Stream(e) ==> Agree(e, f)) <==> !Swappable(e)
  {
    hide *;
    if Swappable(e) {
      var i := WhereItSwaps(e);
      SwapIsOther(e, i);
    } else {
      NoSwapNoOther(e);
    }
  }

  /** No two neighbours differ. */
  predicate Sparse(a: Env, b: Env) {
    forall i :: 0 <= i < |COUNTED| - 1 ==>
      Get(a, COUNTED[i]) == Get(b, COUNTED[i]) || Get(a, COUNTED[i + 1]) == Get(b, COUNTED[i + 1])
  }

  lemma ShiftedOnce(a: Env, b: Env, i: nat)
    requires CStrings(a) && CStrings(b) && i + 1 < |COUNTED|
    requires ValueToken(b, COUNTED[i + 1]) + StreamFrom(b, i + 2) == StreamFrom(a, i + 1)
    ensures Get(a, COUNTED[i + 1]) != Get(b, COUNTED[i + 1])
  {
    hide Name, StreamFrom, Token0, COUNTED;
    var n := COUNTED[i + 1];
    StreamSteps(a, i + 1);
    NamesAreTexts(n);
    var x := ValueToken(a, n) + StreamFrom(a, i + 2);
    if n !in b {
      assert ValueToken(b, n) + StreamFrom(b, i + 2) == StreamFrom(b, i + 2);
      StartsWithName(b, i + 2, Name(n), x);
      NamesDiffer(i + 1);
      assert false;
    } else {
      FirstToken(b[n], StreamFrom(b, i + 2), Name(n), x);
      if n in a {
        StartsWithName(b, i + 2, a[n], StreamFrom(a, i + 2));
        NamesDiffer(i + 1);
      }
    }
  }

  lemma SparseDiffer(a: Env, b: Env, i: nat)
    requires CStrings(a) && CStrings(b) && Sparse(a, b) && i < |COUNTED| && StreamFrom(a, i) == StreamFrom(b, i)
    ensures !(COUNTED[i] in a && COUNTED[i] !in b)
  {
    hide Name, StreamFrom, Token0, COUNTED;
    var v := COUNTED[i];
    if v in a && v !in b {
      StreamSteps(a, i);
      StreamSteps(b, i);
      NamesAreTexts(v);
      FirstToken(Name(v), ValueToken(a, v) + StreamFrom(a, i + 1), Name(v), ValueToken(b, v) + StreamFrom(b, i + 1));
      assert ValueToken(b, v) + StreamFrom(b, i + 1) == StreamFrom(b, i + 1);
      StartsWithName(b, i + 1, a[v], StreamFrom(a, i + 1));
      ShiftedOnce(a, b, i);
    }
  }

  /** Environments that differ in no two neighbouring variables are told apart by the stream. */
  lemma {:induction false} SparseSameStream(a: Env, b: Env, i: nat)
    requires CStrings(a) && CStrings(b) && Sparse(a, b) && i <= |COUNTED| && StreamFrom(a, i) == StreamFrom(b, i)
    ensures forall j :: i <= j < |COUNTED| ==> Get(a, COUNTED[j]) == Get(b, COUNTED[j])
    decreases |COUNTED| - i
  {
    hide Name, StreamFrom, Token0, COUNTED, CStrings, Sparse;
    if i < |COUNTED| {
      var v := COUNTED[i];
      SparseDiffer(a, b, i);
      assert Sparse(b, a) by { SparseTurned(a, b); }
      SparseDiffer(b, a, i);
      StreamSteps(a, i);
      StreamSteps(b, i);
      NamesAreTexts(v);
      FirstToken(Name(v), ValueToken(a, v) + StreamFrom(a, i + 1), Name(v), ValueToken(b, v) + StreamFrom(b, i + 1));
      if v in a {
        ValueIsText(a, v);
        ValueIsText(b, v);
        FirstToken(a[v], StreamFrom(a, i + 1), b[v], StreamFrom(b, i + 1));
      } else {
        assert ValueToken(a, v) + StreamFrom(a, i + 1) == StreamFrom(a, i + 1);
        assert ValueToken(b, v) + StreamFrom(b, i + 1) == StreamFrom(b, i + 1);
      }
      SparseSameStream(a, b, i + 1);
    }
  }

  lemma SparseTurned(a: Env, b: Env)
    requires Sparse(a, b)
    ensures Sparse(b, a)
  {
  }

  lemma ValueIsText(e: Env, v: Var)
    requires CStrings(e) && v in e
    ensures NoNul(e[v])
  {
  }

  /** Two different texts that hash alike. */
  predicate Collide(h: Hash, a: string, b: string) {
    a != b && Fold(h, h.basis, a) == Fold(h, h.basis, b)
  }

  /** So equal fingerprints mean that such environments agree, or that the hash has collided. */
  lemma FingerprintDecides(h: Hash, e: Env, f: Env)
    requires CStrings(e) && CStrings(f) && Sparse(e, f) && Of(h, e) == Of(h, f)
    ensures Agree(e, f) || Collide(h, Stream(e), Stream(f))
  {
    if Stream(e) == Stream(f) {
      SparseSameStream(e, f, 0);
    }
  }

  /** Only the counted variables matter to the fingerprint. */
  lemma {:induction false} AgreeingStreams(e: Env, f: Env, i: nat)
    requires i <= |COUNTED| && forall j :: i <= j < |COUNTED| ==> Get(e, COUNTED[j]) == Get(f, COUNTED[j])
    ensures StreamFrom(e, i) == StreamFrom(f, i)
    decreases |COUNTED| - i
  {
    hide Name, Token0, COUNTED;
    if i < |COUNTED| {
      AgreeingStreams(e, f, i + 1);
      assert Get(e, COUNTED[i]) == Get(f, COUNTED[i]);
    }
  }

  /** What is hashed of an environment with nothing set: the ten names, each with a NUL behind it. */
  lemma EmptyStream()
    ensures Stream(map[])
         == Token0("FSQL_REASONING_HTTP_URL") + (Token0("FSQL_REASONING_HTTP_TOKEN")
            + (Token0("FSQL_REASONING_HTTP_MODEL") + (Token0("FSQL_REASONING_HTTP_ALLOW_PLAINTEXT")
            + (Token0("FSQL_REASONING_HTTP_MODE") + (Token0("FSQL_REASONING_HTTP_RESPONSE_MODE")
            + (Token0("FSQL_REASONING_HTTP_THINK") + (Token0("FSQL_REASONING_HTTP_THINK_PROVIDER")
            + (Token0("FSQL_REASONING_HTTP_NATIVE_URL") + Token0("FSQL_REASONING_HTTP_NUM_CTX")))))))))
  {
    hide StreamFrom, Token0, Name;
    StreamEnds(map[]);
    NameAlone(9);
    NameAlone(8);
    NameAlone(7);
    NameAlone(6);
    NameAlone(5);
    NameAlone(4);
    NameAlone(3);
    NameAlone(2);
    NameAlone(1);
    NameAlone(0);
    assert Token0(Name(NumCtx)) + "" == Token0(Name(NumCtx));
    FullNames();
  }

  lemma NameAlone(i: nat)
    requires i < |COUNTED|
    ensures StreamFrom(map[], i) == Token0(Name(COUNTED[i])) + StreamFrom(map[], i + 1)
  {
    hide StreamFrom, Token0, Name;
    StreamSteps(map[], i);
    assert ValueToken(map[], COUNTED[i]) + StreamFrom(map[], i + 1) == StreamFrom(map[], i + 1);
  }

  lemma FullNames()
    ensures Name(Url) == "FSQL_REASONING_HTTP_URL" && Name(Token) == "FSQL_REASONING_HTTP_TOKEN"
    ensures Name(Model) == "FSQL_REASONING_HTTP_MODEL" && Name(Mode) == "FSQL_REASONING_HTTP_MODE"
    ensures Name(AllowPlaintext) == "FSQL_REASONING_HTTP_ALLOW_PLAINTEXT"
    ensures Name(ResponseMode) == "FSQL_REASONING_HTTP_RESPONSE_MODE"
    ensures Name(SystemTag) == "FSQL_REASONING_HTTP_SYSTEM_TAG"
    ensures Name(Think) == "FSQL_REASONING_HTTP_THINK" && Name(ThinkProvider) == "FSQL_REASONING_HTTP_THINK_PROVIDER"
    ensures Name(NativeUrl) == "FSQL_REASONING_HTTP_NATIVE_URL" && Name(NumCtx) == "FSQL_REASONING_HTTP_NUM_CTX"
  {
  }
}
