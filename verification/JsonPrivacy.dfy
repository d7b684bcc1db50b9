/**
 What a redacted audit document still says about the texts under its sensitive keys: how a replacement is
 made up, and exactly which documents it cannot tell apart.
 */
module JsonPrivacy {
  import opened ByteStrings
  import opened Wrappers
  import opened JsonSyntax
  import opened JsonEscapes
  import opened JsonScan
  import opened JsonRedactor
  import opened JsonRedaction
  import JsonKeys
  import SeqFacts
  import Texts

  // ----- one text -----

  /** In truncate mode at most 64 characters from the front are left, and all of them only of a text that short. */
  lemma TruncatedIs(p: Policy, text: string)
    requires p.mode == Truncate
    ensures var r := Substitute(p, text);
      r <= text && |r| <= 64 && (r == text <==> |text| <= 64) && (|text| > 64 ==> |r| == 64)
  {
  }

  /** The i-th byte that a text of hexadecimal digits stands for. */
  function HexByte(s: string, i: nat): Option<nat>
    requires 2 * i + 1 < |s|
  {
    if HexValue(s[2 * i]).None? || HexValue(s[2 * i + 1]).None? then None
    else Some(HexValue(s[2 * i]).value * 16 + HexValue(s[2 * i + 1]).value)
  }

  /** "sha256:", 64 lower-case digits for the 32 bytes of the digest, " len=" and the length in decimal. */
  predicate Names(r: string, digest: Bytes, len: nat) {
    && |r| > 76 && |digest| == 32
    && r[..7] == "sha256:" && r[71..76] == " len="
    && (forall i :: 0 <= i < 32 ==> HexByte(r[7..71], i) == Some(digest[i]))
    && (forall i :: 7 <= i < 71 ==> IsDigit(r[i]) || 'a' <= r[i] <= 'f')
    && Digits(r[76..]) && DigitsValue(r[76..]) == len
  }

  lemma {:induction false} HexBytesRead(b: Bytes, i: nat)
    requires i < |b|
    ensures HexByte(HexBytes(b), i) == Some(b[i])
    decreases |b|
  {
    var s := HexBytes(b);
    HexOfDigit(b[0] / 16);
    HexOfDigit(b[0] % 16);
    if i > 0 {
      HexBytesRead(b[1..], i - 1);
      assert s[2..] == HexBytes(b[1..]);
      assert s[2 * i] == s[2..][2 * (i - 1)] && s[2 * i + 1] == s[2..][2 * (i - 1) + 1];
    }
  }

  lemma {:induction false} HexBytesLower(b: Bytes)
    ensures forall i :: 0 <= i < |HexBytes(b)| ==> IsDigit(HexBytes(b)[i]) || 'a' <= HexBytes(b)[i] <= 'f'
    decreases |b|
  {
    if b != [] {
      HexBytesLower(b[1..]);
    }
  }

  /** In hash mode the replacement is made of the digest of the text's bytes and its length, and of nothing else. */
  lemma HashedIs(p: Policy, text: string)
    requires p.mode == Hash && |text| < TWO64
    ensures Names(Substitute(p, text), p.digest(Texts.Octets(text)), |text|)
  {
    var digest := p.digest(Texts.Octets(text));
    var hex, len := HexBytes(digest), Texts.DecimalNat(|text|);
    HexDigestReads(digest, hex);
    JsonKeys.DecimalValue(|text|);
    FingerprintFits(p, text);
    hide HexBytes, Texts.DecimalNat, HexByte, DigitsValue, Digits, Substitute;
    var r := "sha256:" + hex + (" len=" + len);
    FingerprintPieces(hex, len);
    assert Fingerprint(p, text) == r;
  }

  lemma HexDigestReads(digest: Bytes, hex: string)
    requires |digest| == 32 && hex == HexBytes(digest)
    ensures forall i :: 0 <= i < 32 ==> HexByte(hex, i) == Some(digest[i])
    ensures forall i :: 0 <= i < 64 ==> IsDigit(hex[i]) || 'a' <= hex[i] <= 'f'
  {
    hide HexBytes, HexByte;
    HexBytesLower(digest);
    forall i | 0 <= i < 32
      ensures HexByte(hex, i) == Some(digest[i])
    {
      HexBytesRead(digest, i);
    }
  }

  lemma FingerprintPieces(hex: string, len: string)
    requires |hex| == 64 && |len| > 0
    ensures var r := "sha256:" + hex + (" len=" + len);
      |r| > 76 && r[..7] == "sha256:" && r[7..71] == hex && r[71..76] == " len=" && r[76..] == len
  {
  }

  /** Texts that the mode cannot tell apart. */
  predicate Indistinct(p: Policy, a: string, b: string) {
    match p.mode
    case Keep => a == b
    case Truncate => a == b || (|a| >= 64 && |b| >= 64 && a[..64] == b[..64])
    case Hash => |a| == |b| && p.digest(Texts.Octets(a)) == p.digest(Texts.Octets(b))
  }

  lemma HexBytesTell(a: Bytes, b: Bytes)
    requires |a| == |b| && HexBytes(a) == HexBytes(b)
    ensures a == b
  {
    hide HexBytes;
    forall i | 0 <= i < |a|
      ensures a[i] == b[i]
    {
      HexBytesRead(a, i);
      HexBytesRead(b, i);
    }
  }

  /** Two texts have one replacement exactly when the mode cannot tell them apart. */
  lemma SameReplacement(p: Policy, a: string, b: string)
    requires |a| < TWO64 && |b| < TWO64
    ensures Substitute(p, a) == Substitute(p, b) <==> Indistinct(p, a, b)
  {
    match p.mode
    case Keep =>
    case Truncate =>
      assert |a| == 64 ==> a[..64] == a;
      assert |b| == 64 ==> b[..64] == b;
    case Hash => SameHash(p, a, b);
  }

  lemma SameHash(p: Policy, a: string, b: string)
    requires p.mode == Hash && |a| < TWO64 && |b| < TWO64
    ensures Substitute(p, a) == Substitute(p, b) <==> Indistinct(p, a, b)
  {
    var da, db := p.digest(Texts.Octets(a)), p.digest(Texts.Octets(b));
    HashedIs(p, a);
    HashedIs(p, b);
    FingerprintFits(p, a);
    FingerprintFits(p, b);
    hide HexByte, DigitsValue, Digits, Substitute, HexBytes;
    if Substitute(p, a) == Substitute(p, b) {
      var r := Substitute(p, a);
      assert forall i :: 0 <= i < 32 ==> HexByte(r[7..71], i) == Some(da[i]) && HexByte(r[7..71], i) == Some(db[i]);
      assert da == db;
    }
  }

  // ----- whole documents -----

  /** The text that a replacement is made for: a string's decoded content, anything else as it is written. */
  function TextOf(v: Value): string {
    if v.Str? then
      if Unescape(v.raw).Some? then Texts.CString(Unescape(v.raw).value) else v.raw
    else Print(v)
  }

  predicate HasText(v: Value) {
    v.Str? || v.Empty? || v.Box?
  }

  /** Values under a sensitive key of which the redacted document cannot be told apart. */
  predicate AlikeSecret(p: Policy, v: Value, w: Value) {
    if HasText(v) then HasText(w) && Indistinct(p, TextOf(v), TextOf(w)) else v == w
  }

  /** Values that differ only in white space and in what stands under sensitive keys, and there not noticeably. */
  predicate Alike(p: Policy, v: Value, w: Value)
    decreases v, 0
  {
    match v
    case Empty(curly, _) => w.Empty? && w.curly == curly
    case Box(curly, _, items) =>
      w.Box? && w.curly == curly && if curly then AlikeMembers(p, items, w.items) else AlikeElements(p, items, w.items)
    case _ => v == w
  }

  predicate AlikeElements(p: Policy, a: Items, b: Items)
    decreases a, 0
  {
    match a
    case Last(v, _) => b.Last? && Alike(p, v, b.value)
    case More(v, _, sep, _, rest) => b.More? && b.sep == sep && Alike(p, v, b.value) && AlikeElements(p, rest, b.rest)
  }

  predicate AlikeMember(p: Policy, key: Value, v: Value, w: Value)
    decreases v, 1
  {
    if key.Str? && key.raw in SENSITIVE then AlikeSecret(p, v, w) else Alike(p, v, w)
  }

  predicate AlikeMembers(p: Policy, a: Items, b: Items)
    decreases a, 0
  {
    match a
    case Last(v, _) => b.Last? && b.value == v
    case More(key, _, colon, _, Last(v, _)) =>
      b.More? && b.value == key && b.sep == colon && b.rest.Last? && AlikeMember(p, key, v, b.rest.value)
    case More(key, _, colon, _, More(v, _, sep, _, rest)) =>
      && b.More? && b.value == key && b.sep == colon && b.rest.More? && b.rest.sep == sep
      && AlikeMember(p, key, v, b.rest.value) && AlikeMembers(p, rest, b.rest.rest)
  }

  lemma {:induction false} CStringShorter(s: string)
    ensures |Texts.CString(s)| <= |s|
    decreases |s|
  {
    if s != "" {
      CStringShorter(s[1..]);
    }
  }

  lemma TextIsShort(v: Value)
    ensures |TextOf(v)| <= |Print(v)|
  {
    if v.Str? && Unescape(v.raw).Some? {
      CStringShorter(Unescape(v.raw).value);
    }
  }

  lemma EscapeTells(s: string, t: string)
    requires Escape(s) == Escape(t)
    ensures s == t
  {
    hide Escape, Unescape;
    EscapeRoundTrip(s);
    EscapeRoundTrip(t);
  }

  lemma VeilIs(p: Policy, v: Value)
    ensures Veil(v, p) == if HasText(v) then Str(Escape(Substitute(p, TextOf(v)))) else v
  {
  }

  lemma SecretsAlike(p: Policy, v: Value, w: Value)
    requires |Print(v)| < TWO64 && |Print(w)| < TWO64
    ensures Veil(v, p) == Veil(w, p) <==> AlikeSecret(p, v, w)
  {
    hide Veil, Escape, Substitute, TextOf, Print, Indistinct;
    VeilIs(p, v);
    VeilIs(p, w);
    if HasText(v) && HasText(w) {
      TextIsShort(v);
      TextIsShort(w);
      SameReplacement(p, TextOf(v), TextOf(w));
      if Veil(v, p) == Veil(w, p) {
        EscapeTells(Substitute(p, TextOf(v)), Substitute(p, TextOf(w)));
      }
    }
  }

  /** Two documents are redacted to the same tree exactly when they are alike. */
  lemma {:induction false} SameTree(p: Policy, v: Value, w: Value)
    requires |Print(v)| < TWO64 && |Print(w)| < TWO64
    ensures Redact(v, p) == Redact(w, p) <==> Alike(p, v, w)
    decreases v, 0
  {
    if v.Box? && w.Box? && v.curly == w.curly {
      BoxIsLonger(v);
      BoxIsLonger(w);
      if v.curly {
        SameMembers(p, v.items, w.items);
      } else {
        SameElements(p, v.items, w.items);
      }
    }
  }

  lemma BoxIsLonger(v: Value)
    requires v.Box?
    ensures |PrintItems(v.items)| < |Print(v)|
  {
  }

  lemma MoreIsLonger(items: Items)
    requires items.More?
    ensures |Print(items.value)| + |PrintItems(items.rest)| < |PrintItems(items)|
  {
  }

  lemma LastIsLonger(items: Items)
    requires items.Last?
    ensures |Print(items.value)| <= |PrintItems(items)|
  {
  }

  lemma {:induction false} SameElements(p: Policy, a: Items, b: Items)
    requires |PrintItems(a)| < TWO64 && |PrintItems(b)| < TWO64
    ensures RedactElements(a, p) == RedactElements(b, p) <==> AlikeElements(p, a, b)
    decreases a, 0
  {
    hide Print, PrintItems, Redact, Alike;
    if a.More? && b.More? {
      MoreIsLonger(a);
      MoreIsLonger(b);
      SameTree(p, a.value, b.value);
      SameElements(p, a.rest, b.rest);
    } else if a.Last? && b.Last? {
      LastIsLonger(a);
      LastIsLonger(b);
      SameTree(p, a.value, b.value);
    }
  }

  lemma {:induction false} SameMember(p: Policy, key: Value, v: Value, w: Value)
    requires |Print(v)| < TWO64 && |Print(w)| < TWO64
    ensures JsonRedaction.RedactMember(key, v, p) == JsonRedaction.RedactMember(key, w, p) <==> AlikeMember(p, key, v, w)
    decreases v, 1
  {
    hide Print, Redact, Alike, Veil, AlikeSecret, SENSITIVE;
    if key.Str? && key.raw in SENSITIVE {
      SecretsAlike(p, v, w);
    } else {
      SameTree(p, v, w);
    }
  }

  lemma {:induction false} SameMembers(p: Policy, a: Items, b: Items)
    requires |PrintItems(a)| < TWO64 && |PrintItems(b)| < TWO64
    ensures RedactMembers(a, p) == RedactMembers(b, p) <==> AlikeMembers(p, a, b)
    decreases a, 0
  {
    hide Print, PrintItems, JsonRedaction.RedactMember, AlikeMember;
    if a.More? && b.More? && a.value == b.value && a.sep == b.sep {
      MoreIsLonger(a);
      MoreIsLonger(b);
      if a.rest.More? && b.rest.More? {
        MoreIsLonger(a.rest);
        MoreIsLonger(b.rest);
        SameMember(p, a.value, a.rest.value, b.rest.value);
        SameMembers(p, a.rest.rest, b.rest.rest);
      } else if a.rest.Last? && b.rest.Last? {
        LastIsLonger(a.rest);
        LastIsLonger(b.rest);
        SameMember(p, a.value, a.rest.value, b.rest.value);
      }
    }
  }

  /**
   So the redactor writes the same text for two documents that are alike, whatever the texts under their
   sensitive keys are: in hash mode of equal digest and length, in truncate mode with 64 characters in common.
   */
  lemma AlikeRedactSame(p: Policy, d: Doc, e: Doc)
    requires Blank(d.lead) && Strict(d.value) && Blank(d.trail)
    requires Blank(e.lead) && Strict(e.value) && Blank(e.trail)
    requires |Print(d.value)| < TWO64 && |Print(e.value)| < TWO64
    requires Alike(p, d.value, e.value)
    ensures WalkValue(PrintDoc(d), p).Some? && WalkValue(PrintDoc(d), p) == WalkValue(PrintDoc(e), p)
  {
    hide WalkValue, PrintDoc, Print, Strict, Redact, Alike;
    RedactionCommutes(d, p);
    RedactionCommutes(e, p);
    SameTree(p, d.value, e.value);
  }

  /**
   The first sensitive member on the way down any path: a number or a word stays; of anything else a string
   is left, which reads as the replacement of its text.
   */
  lemma SensitiveSays(v: Value, path: seq<nat>, i: nat, p: Policy) returns (said: string)
    requires Strict(v) && Exposed(v, path) && Lookup(v, path).Some?
    requires Child(Lookup(v, path).value, i).Some? && IsSensitive(Child(Lookup(v, path).value, i).value.0)
    requires |TextOf(Child(Lookup(v, path).value, i).value.1)| < TWO64
    ensures Lookup(Redact(v, p), path).Some? && Child(Lookup(Redact(v, p), path).value, i).Some?
    ensures var (key, was) := Child(Lookup(v, path).value, i).value;
      var (key', now) := Child(Lookup(Redact(v, p), path).value, i).value;
      var text := TextOf(was);
      && key' == key
      && if !HasText(was) then now == was
         else
           && now.Str? && Unescape(now.raw) == Some(said)
           && match p.mode
              case Keep => said == text
              case Truncate => said <= text && |said| <= 64 && (said == text <==> |text| <= 64)
              case Hash => Names(said, p.digest(Texts.Octets(text)), |text|)
  {
    hide Strict, Exposed, Lookup, Child, Redact, IsSensitive, Veil, Names, Escape, Unescape, TextOf, Substitute;
    SensitiveGoes(v, path, i, p);
    var was := Child(Lookup(v, path).value, i).value.1;
    said := Substitute(p, TextOf(was));
    VeilIs(p, was);
    EscapeRoundTrip(said);
    match p.mode
    case Keep => KeptIs(p, TextOf(was));
    case Truncate => TruncatedIs(p, TextOf(was));
    case Hash => HashedIs(p, TextOf(was));
  }

  lemma KeptIs(p: Policy, text: string)
    requires p.mode == Keep
    ensures Substitute(p, text) == text
  {
  }

  // ----- where paths lead -----

  /** The values of an array, in order. */
  function ValuesOf(items: Items): seq<Value> {
    [items.value] + if items.More? then ValuesOf(items.rest) else []
  }

  /** The members of an object with their keys, in order. */
  function MembersOf(items: Items): seq<(string, Value)>
    decreases items
  {
    if !(items.More? && items.value.Str?) then []
    else [(items.value.raw, items.rest.value)] + if items.rest.More? then MembersOf(items.rest.rest) else []
  }

  lemma {:induction false} ElementIs(items: Items, i: nat)
    ensures ElementAt(items, i) == if i < |ValuesOf(items)| then Some((None, ValuesOf(items)[i])) else None
    decreases items
  {
    if items.More? && i > 0 {
      ElementIs(items.rest, i - 1);
    }
  }

  lemma {:induction false} MemberIs(items: Items, i: nat)
    ensures MemberAt(items, i)
         == if i < |MembersOf(items)| then Some((Some(MembersOf(items)[i].0), MembersOf(items)[i].1)) else None
    decreases items
  {
    if items.More? && items.value.Str? && items.rest.More? && i > 0 {
      MemberIs(items.rest.rest, i - 1);
    }
  }

  /** A path goes to the i-th value or member and on from there; the empty one stays. */
  lemma PathsLead(v: Value, i: nat, path: seq<nat>)
    requires v.Box?
    ensures Lookup(v, []) == Some(v)
    ensures !v.curly ==>
      Lookup(v, [i] + path) == if i < |ValuesOf(v.items)| then Lookup(ValuesOf(v.items)[i], path) else None
    ensures v.curly ==>
      Lookup(v, [i] + path) == if i < |MembersOf(v.items)| then Lookup(MembersOf(v.items)[i].1, path) else None
  {
    ElementIs(v.items, i);
    MemberIs(v.items, i);
    assert ([i] + path)[0] == i && ([i] + path)[1..] == path;
    hide ElementAt, MemberAt, ValuesOf, MembersOf;
  }
}
