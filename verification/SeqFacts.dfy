/** Facts about sequences that proofs elsewhere use as single steps. */
module SeqFacts {

  /** All but the element at k. */
  function Without<T>(v: seq<T>, k: nat): (w: seq<T>)
    requires k < |v|
    ensures |w| == |v| - 1
  {
    v[..k] + v[k + 1..]
  }

  lemma WithoutAt<T>(v: seq<T>, k: nat)
    requires k < |v|
    ensures forall j :: 0 <= j < |v| - 1 ==> Without(v, k)[j] == v[if j < k then j else j + 1]
  {
  }

  lemma Prepend<T>(xs: seq<T>, p: seq<T>, q: seq<T>)
    requires xs != [] && p == xs[1..] + q
    ensures [xs[0]] + p == xs + q
  {
  }

  lemma HeadTail<T>(xs: seq<T>)
    requires xs != []
    ensures [xs[0]] + xs[1..] == xs
  {
  }

  lemma Uncons<T>(a: seq<T>, b: seq<T>)
    requires a != []
    ensures a + b != [] && (a + b)[0] == a[0] && (a + b)[1..] == a[1..] + b
  {
  }

  lemma Join<T>(t: seq<T>, k: nat)
    requires k <= |t|
    ensures t[..k] + t[k..] == t
  {
  }

  lemma Assoc<T>(a: seq<T>, b: seq<T>, c: seq<T>)
    ensures a + (b + c) == a + b + c
  {
  }

  lemma Cut<T>(t: seq<T>, a: nat, b: nat)
    requires a + b <= |t|
    ensures t[..a + b] == t[..a] + t[a..][..b]
  {
  }

  lemma Skip<T>(a: seq<T>, b: seq<T>)
    ensures (a + b)[|a|..] == b && (a + b)[..|a|] == a
  {
  }

  lemma Assoc4<T>(a: seq<T>, b: seq<T>, c: seq<T>, d: seq<T>)
    ensures a + b + c + d == a + (b + (c + d))
  {
  }

  lemma Assoc5<T>(a: seq<T>, b: seq<T>, c: seq<T>, d: seq<T>, e: seq<T>)
    ensures a + b + c + d + e == a + (b + (c + (d + e)))
  {
  }

  lemma Assoc6<T>(a: seq<T>, b: seq<T>, c: seq<T>, d: seq<T>, e: seq<T>, f: seq<T>)
    ensures a + b + c + d + e + f == a + (b + (c + (d + (e + f))))
  {
  }
}
