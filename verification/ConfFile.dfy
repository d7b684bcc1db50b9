/**
 The MCP server's reader and writer of the daemon's configuration file (mcp/src/conf_file.cpp).
 */
module ConfFile {
  import opened Wrappers
  import opened ConfigKeys
  import SeqFacts

  type Conf = map<string, string>

  // ----- one line -----

  function TrimRight(s: string): (r: string)
    ensures r != "" ==> !IsSpace(r[|r| - 1])
    ensures |r| <= |s| && r == s[..|r|]
    decreases |s|
  {
    if s != "" && IsSpace(s[|s| - 1]) then TrimRight(s[..|s| - 1]) else s
  }

  function Trim(s: string): string {
    TrimRight(SkipSpace(s))
  }

  /** The first equals sign, or the length. */
  function FindEquals(s: string): (i: nat)
    ensures i <= |s| && (i < |s| ==> s[i] == '=') && forall j :: 0 <= j < i ==> s[j] != '='
    decreases |s|
  {
    if s == "" || s[0] == '=' then 0 else 1 + FindEquals(s[1..])
  }

  /** What `readConf` takes from one line. */
  function ParseLine(line: string): Option<(string, string)> {
    var t := Trim(line);
    var eq := FindEquals(t);
    if t == "" || t[0] == '#' || eq == |t| || Trim(t[..eq]) == "" then None
    else Some((Trim(t[..eq]), Trim(t[eq + 1..])))
  }

  /** What `writeConf` writes for one pair. */
  function Line(k: string, v: string): string {
    k + " = " + v
  }

  // ----- the file -----

  /** getline: the lines between line feeds; a final line feed ends the last line. */
  function Lines(text: string): (ls: seq<string>)
    decreases |text|
  {
    if text == "" then []
    else
      var n := LineLength(text);
      if n == |text| then [text] else [text[..n]] + Lines(text[n + 1..])
  }

  function LineLength(text: string): (n: nat)
    ensures n <= |text| && (n < |text| ==> text[n] == '\n') && forall i :: 0 <= i < n ==> text[i] != '\n'
    decreases |text|
  {
    if text == "" || text[0] == '\n' then 0 else 1 + LineLength(text[1..])
  }

  function AddLine(c: Conf, line: string): Conf {
    match ParseLine(line)
    case None => c
    case Some((k, v)) => c[k := v]
  }

  function Collect(c: Conf, lines: seq<string>): Conf
    decreases |lines|
  {
    if lines == [] then c else Collect(AddLine(c, lines[0]), lines[1..])
  }

  /** `readConf`. */
  function Read(text: string): Conf {
    Collect(map[], Lines(text))
  }

  /** `lineBreakProblem` finds nothing. */
  predicate OneLine(s: string) {
    forall i :: 0 <= i < |s| ==> s[i] != '\n' && s[i] != '\r' && s[i] != '\0'
  }

  predicate Accepted(c: Conf) {
    forall k :: k in c ==> OneLine(k) && OneLine(c[k])
  }

  /** The keys of a map, each once, in the order they are written. */
  ghost predicate Enumerates(keys: seq<string>, c: Conf) {
    && (forall i, j :: 0 <= i < j < |keys| ==> keys[i] != keys[j])
    && (forall k :: k in keys <==> k in c)
  }

  function Body(c: Conf, keys: seq<string>): string
    requires forall k :: k in keys ==> k in c
    decreases |keys|
  {
    if keys == [] then "" else Line(keys[0], c[keys[0]]) + "\n" + Body(c, keys[1..])
  }

  function LinesOf(c: Conf, keys: seq<string>): seq<string>
    requires forall k :: k in keys ==> k in c
    decreases |keys|
  {
    if keys == [] then [] else [Line(keys[0], c[keys[0]])] + LinesOf(c, keys[1..])
  }

  // ----- the loops -----

  lemma SkipSpaceStep(t: string)
    ensures t != "" && IsSpace(t[0]) ==> SkipSpace(t) == SkipSpace(t[1..])
    ensures t == "" || !IsSpace(t[0]) ==> SkipSpace(t) == t
  {
  }

  lemma TrimRightStep(t: string)
    ensures t != "" && IsSpace(t[|t| - 1]) ==> TrimRight(t) == TrimRight(t[..|t| - 1])
    ensures t == "" || !IsSpace(t[|t| - 1]) ==> TrimRight(t) == t
  {
  }

  /** Where the text between two positions starts and ends without its outer white space. */
  method TrimAt(line: string, from: nat, upto: nat) returns (s: nat, e: nat)
    requires from <= upto <= |line|
    ensures from <= s <= e <= upto && line[s..e] == Trim(line[from..upto])
  {
    hide SkipSpace, TrimRight;
    s, e := from, upto;
    while s < e && IsSpace(line[s])
      invariant from <= s <= e == upto && SkipSpace(line[s..e]) == SkipSpace(line[from..upto])
    {
      SkipSpaceStep(line[s..e]);
      Shorter(line, s, e);
      s := s + 1;
    }
    SkipSpaceStep(line[s..e]);
    while e > s && IsSpace(line[e - 1])
      invariant s <= e <= upto && TrimRight(line[s..e]) == Trim(line[from..upto])
    {
      TrimRightStep(line[s..e]);
      Shorter(line, s, e);
      e := e - 1;
    }
    TrimRightStep(line[s..e]);
  }

  lemma Shorter(line: string, s: nat, e: nat)
    requires s < e <= |line|
    ensures line[s..e][1..] == line[s + 1..e] && line[s..e][..e - s - 1] == line[s..e - 1]
    ensures line[s..e][0] == line[s] && line[s..e][e - s - 1] == line[e - 1]
  {
  }

  method EqualsAt(line: string, s: nat, e: nat) returns (eq: nat)
    requires s <= e <= |line|
    ensures s <= eq <= e && eq - s == FindEquals(line[s..e])
  {
    eq := s;
    while eq < e && line[eq] != '='
      invariant s <= eq <= e && eq - s + FindEquals(line[eq..e]) == FindEquals(line[s..e])
    {
      assert line[eq..e][1..] == line[eq + 1..e];
      eq := eq + 1;
    }
    assert eq < e ==> line[eq..e][0] == line[eq];
  }

  /** The body of the loop of `readConf`. */
  method ReadLine(line: string, c: Conf) returns (r: Conf)
    ensures r == AddLine(c, line)
  {
    hide Trim, FindEquals;
    assert line[0..|line|] == line;
    var s, e := TrimAt(line, 0, |line|);
    ghost var t := line[s..e];
    if s == e || line[s] == '#' { return c; }
    var eq := EqualsAt(line, s, e);
    if eq == e { return c; }
    assert t[..eq - s] == line[s..eq] && t[eq - s + 1..] == line[eq + 1..e];
    var ks, ke := TrimAt(line, s, eq);
    var vs, ve := TrimAt(line, eq + 1, e);
    if ks == ke { return c; }
    r := c[line[ks..ke] := line[vs..ve]];
  }

  method LineEnd(text: string, from: nat) returns (j: nat)
    requires from <= |text|
    ensures from <= j <= |text| && j - from == LineLength(text[from..])
  {
    j := from;
    while j < |text| && text[j] != '\n'
      invariant from <= j <= |text| && j - from + LineLength(text[j..]) == LineLength(text[from..])
    {
      assert text[j..][1..] == text[j + 1..];
      j := j + 1;
    }
    assert j < |text| ==> text[j..][0] == text[j];
  }

  /** `readConf` on the file's text. */
  method ReadConf(text: string) returns (c: Conf)
    ensures c == Read(text)
  {
    hide AddLine, LineLength;
    c := map[];
    var i := 0;
    assert text[0..] == text;
    while i < |text|
      invariant i <= |text| && Collect(c, Lines(text[i..])) == Read(text)
      decreases |text| - i
    {
      ghost var t := text[i..];
      var j := LineEnd(text, i);
      assert t[..j - i] == text[i..j];
      assert j < |text| ==> t[j - i + 1..] == text[j + 1..];
      LinesStep(t);
      CollectStep(c, Lines(t));
      c := ReadLine(text[i..j], c);
      i := if j < |text| then j + 1 else j;
    }
  }

  lemma LinesStep(text: string)
    requires text != ""
    ensures var n := LineLength(text);
      Lines(text) != [] && Lines(text)[0] == text[..n] && Lines(text)[1..] == if n == |text| then [] else Lines(text[n + 1..])
    ensures Lines("") == []
  {
    hide LineLength;
    var n := LineLength(text);
    if n == |text| {
      assert text[..n] == text;
    } else {
      SeqFacts.Skip([text[..n]], Lines(text[n + 1..]));
    }
  }

  lemma CollectStep(c: Conf, lines: seq<string>)
    ensures lines != [] ==> Collect(c, lines) == Collect(AddLine(c, lines[0]), lines[1..])
  {
  }

  method LineBreakProblem(s: string) returns (problem: bool)
    ensures problem == !OneLine(s)
  {
    var i := 0;
    while i < |s|
      invariant i <= |s| && forall j :: 0 <= j < i ==> s[j] != '\n' && s[j] != '\r' && s[j] != '\0'
    {
      if s[i] == '\n' || s[i] == '\r' || s[i] == '\0' { return true; }
      i := i + 1;
    }
    return false;
  }

  /** `writeConf` up to the rename: everything is checked before anything is written. */
  method WriteConf(c: Conf, keys: seq<string>) returns (text: Option<string>)
    requires Enumerates(keys, c)
    ensures text == if Accepted(c) then Some(Body(c, keys)) else None
  {
    hide OneLine;
    var i := 0;
    while i < |keys|
      invariant i <= |keys| && forall j :: 0 <= j < i ==> OneLine(keys[j]) && OneLine(c[keys[j]])
    {
      var k := LineBreakProblem(keys[i]);
      if k { return None; }
      var v := LineBreakProblem(c[keys[i]]);
      if v { return None; }
      i := i + 1;
    }
    var out := "";
    i := 0;
    assert keys[0..] == keys;
    while i < |keys|
      invariant i <= |keys| && out + Body(c, keys[i..]) == Body(c, keys)
    {
      var line := Line(keys[i], c[keys[i]]) + "\n";
      assert keys[i..][1..] == keys[i + 1..];
      SeqFacts.Assoc(out, line, Body(c, keys[i + 1..]));
      out := out + line;
      i := i + 1;
    }
    assert out + Body(c, keys[i..]) == out;
    return Some(out);
  }

  // ----- trimming -----

  predicate Trimmed(s: string) {
    s != "" ==> !IsSpace(s[0]) && !IsSpace(s[|s| - 1])
  }

  lemma {:induction false} SkipSpaceFacts(s: string)
    ensures var r := SkipSpace(s);
      (r != "" ==> !IsSpace(r[0])) && |r| <= |s| && r == s[|s| - |r|..]
    decreases |s|
  {
    if s != "" && IsSpace(s[0]) {
      SkipSpaceFacts(s[1..]);
      var n := |SkipSpace(s[1..])|;
      assert s[1..][|s| - 1 - n..] == s[|s| - n..];
    }
  }

  lemma TrimIsTrimmed(s: string)
    ensures Trimmed(Trim(s))
  {
    SkipSpaceFacts(s);
  }

  /** Trimming cuts a piece out. */
  lemma TrimIsPiece(s: string) returns (i: nat, j: nat)
    ensures i <= j <= |s| && Trim(s) == s[i..j]
  {
    SkipSpaceFacts(s);
    i := |s| - |SkipSpace(s)|;
    j := i + |Trim(s)|;
    assert s[i..][..j - i] == s[i..j];
  }

  lemma TrimmedStays(s: string)
    requires Trimmed(s)
    ensures Trim(s) == s
  {
    SkipSpaceStep(s);
    TrimRightStep(s);
  }

  lemma SpaceBehind(s: string)
    requires s != "" && Trimmed(s)
    ensures Trim(s + " ") == s
  {
    var t := s + " ";
    assert t[0] == s[0] && t[|t| - 1] == ' ' && t[..|t| - 1] == s;
    SkipSpaceStep(t);
    TrimRightStep(t);
    TrimRightStep(s);
  }

  lemma SpaceInFront(s: string)
    requires Trimmed(s)
    ensures Trim(" " + s) == s
  {
    var t := " " + s;
    assert t[0] == ' ' && t[1..] == s;
    SkipSpaceStep(t);
    TrimmedStays(s);
  }

  lemma {:induction false} FirstEquals(s: string, i: nat)
    requires i < |s| && s[i] == '=' && forall j :: 0 <= j < i ==> s[j] != '='
    ensures FindEquals(s) == i
    decreases |s|
  {
    if i > 0 {
      FirstEquals(s[1..], i - 1);
    }
  }

  // ----- lines that were read before -----

  /** A key and a value as the reader produces them. */
  predicate GoodPair(k: string, v: string) {
    k != "" && Trimmed(k) && k[0] != '#' && '=' !in k && Trimmed(v)
  }

  lemma LineIsTrimmed(k: string, v: string)
    requires GoodPair(k, v)
    ensures Trim(Line(k, v)) == if v == "" then k + " =" else Line(k, v)
  {
    var t := Line(k, v);
    assert t[0] == k[0];
    if v == "" {
      var u := k + " =";
      assert t == u + " ";
      assert u[0] == k[0] && u[|u| - 1] == '=';
      SpaceBehind(u);
    } else {
      assert t[|t| - 1] == v[|v| - 1];
      TrimmedStays(t);
    }
  }

  /** A written pair of that sort is read back as it was. */
  lemma GoodLineReads(k: string, v: string)
    requires GoodPair(k, v)
    ensures ParseLine(Line(k, v)) == Some((k, v))
  {
    hide Trim, FindEquals;
    var t := Trim(Line(k, v));
    var eq := |k| + 1;
    LineIsTrimmed(k, v);
    assert t[0] == k[0] && t[eq] == '=' && forall j :: 0 <= j < eq ==> t[j] != '=' by {
      assert forall j :: 0 <= j < |k| ==> t[j] == k[j];
    }
    FirstEquals(t, eq);
    assert t[..eq] == k + " ";
    SpaceBehind(k);
    if v == "" {
      assert t[eq + 1..] == "";
      TrimmedStays("");
    } else {
      assert t[eq + 1..] == " " + v;
      SpaceInFront(v);
    }
  }

  lemma NoEqualsInKey(t: string, eq: nat)
    requires eq <= |t| && forall j :: 0 <= j < eq ==> t[j] != '='
    ensures '=' !in Trim(t[..eq])
  {
    hide Trim;
    var i, j := TrimIsPiece(t[..eq]);
    var k := Trim(t[..eq]);
    assert forall m :: 0 <= m < |k| ==> k[m] == t[i + m];
  }

  lemma KeyStartsText(t: string, eq: nat)
    requires 0 < eq <= |t| && !IsSpace(t[0]) && Trim(t[..eq]) != ""
    ensures Trim(t[..eq])[0] == t[0]
  {
    SkipSpaceStep(t[..eq]);
    hide SkipSpace;
  }

  /** Whatever is read from a line is such a pair. */
  lemma ReadIsGood(line: string)
    requires ParseLine(line).Some?
    ensures GoodPair(ParseLine(line).value.0, ParseLine(line).value.1)
  {
    hide Trim, FindEquals;
    var t := Trim(line);
    var eq := FindEquals(t);
    TrimIsTrimmed(line);
    TrimIsTrimmed(t[..eq]);
    TrimIsTrimmed(t[eq + 1..]);
    NoEqualsInKey(t, eq);
    TrimNothing();
    assert eq > 0;
    KeyStartsText(t, eq);
  }

  lemma TrimNothing()
    ensures Trim("") == ""
  {
  }

  ghost predicate GoodConf(c: Conf) {
    forall k :: k in c ==> GoodPair(k, c[k])
  }

  lemma {:induction false} CollectIsGood(c: Conf, lines: seq<string>)
    requires GoodConf(c)
    ensures GoodConf(Collect(c, lines))
    decreases |lines|
  {
    if lines != [] {
      if ParseLine(lines[0]).Some? { ReadIsGood(lines[0]); }
      CollectIsGood(AddLine(c, lines[0]), lines[1..]);
    }
  }

  // ----- what a written file holds -----

  lemma {:induction false} LineLengthOf(line: string, rest: string)
    requires '\n' !in line
    ensures LineLength(line + "\n" + rest) == |line|
    decreases |line|
  {
    var t := line + "\n" + rest;
    if line == "" {
      assert t[0] == '\n';
    } else {
      assert t[0] == line[0] && t[1..] == line[1..] + "\n" + rest;
      LineLengthOf(line[1..], rest);
    }
  }

  lemma LinesCons(line: string, rest: string)
    requires '\n' !in line
    ensures Lines(line + "\n" + rest) == [line] + Lines(rest)
  {
    var t := line + "\n" + rest;
    LineLengthOf(line, rest);
    assert t[..|line|] == line && t[|line| + 1..] == rest;
  }

  /** An accepted map is written as one line per pair, and no other. */
  lemma {:induction false} OneLineEach(c: Conf, keys: seq<string>)
    requires (forall k :: k in keys ==> k in c) && Accepted(c)
    ensures Lines(Body(c, keys)) == LinesOf(c, keys)
    decreases |keys|
  {
    if keys != [] {
      var line := Line(keys[0], c[keys[0]]);
      assert '\n' !in line by {
        assert OneLine(keys[0]) && OneLine(c[keys[0]]);
      }
      LinesCons(line, Body(c, keys[1..]));
      OneLineEach(c, keys[1..]);
    }
  }

  lemma {:induction false} LinesAt(c: Conf, keys: seq<string>, i: nat)
    requires (forall k :: k in keys ==> k in c) && i < |keys|
    ensures |LinesOf(c, keys)| == |keys| && LinesOf(c, keys)[i] == Line(keys[i], c[keys[i]])
  {
    if |keys| > 1 {
      LinesAt(c, keys[1..], if i == 0 then 0 else i - 1);
    }
  }

  predicate Gives(line: string, k: string) {
    ParseLine(line).Some? && ParseLine(line).value.0 == k
  }

  /** A collected key was there before and no line has given it since, or the last line that gives it gave its value. */
  lemma {:induction false} CollectSources(c: Conf, lines: seq<string>, k: string)
    requires k in Collect(c, lines)
    ensures (k in c && Collect(c, lines)[k] == c[k] && forall i :: 0 <= i < |lines| ==> !Gives(lines[i], k))
         || exists i :: 0 <= i < |lines| && ParseLine(lines[i]) == Some((k, Collect(c, lines)[k]))
                        && forall j :: i < j < |lines| ==> !Gives(lines[j], k)
    decreases |lines|
  {
    if lines != [] {
      var rest := lines[1..];
      var value := Collect(c, lines)[k];
      CollectSources(AddLine(c, lines[0]), rest, k);
      if i :| 0 <= i < |rest| && ParseLine(rest[i]) == Some((k, value)) && forall j :: i < j < |rest| ==> !Gives(rest[j], k) {
        assert lines[i + 1] == rest[i];
        assert forall j :: i + 1 < j < |lines| ==> lines[j] == rest[j - 1];
      } else {
        assert forall j :: 0 < j < |lines| ==> lines[j] == rest[j - 1];
        assert Gives(lines[0], k) ==> ParseLine(lines[0]) == Some((k, value));
      }
    }
  }

  /**
   No injection: every key read back from an accepted map has its value from one pair of the map, as what
   that pair's own line says: the last pair written whose line gives the key.
   */
  lemma NoInjection(c: Conf, keys: seq<string>, k: string)
    requires Enumerates(keys, c) && Accepted(c) && k in Read(Body(c, keys))
    ensures exists i :: 0 <= i < |keys| && ParseLine(Line(keys[i], c[keys[i]])) == Some((k, Read(Body(c, keys))[k]))
                        && forall j :: i < j < |keys| ==> !Gives(Line(keys[j], c[keys[j]]), k)
  {
    OneLineEach(c, keys);
    var lines := LinesOf(c, keys);
    CollectSources(map[], lines, k);
    LinesLength(c, keys);
    var i :| 0 <= i < |lines| && ParseLine(lines[i]) == Some((k, Read(Body(c, keys))[k]))
             && forall j :: i < j < |lines| ==> !Gives(lines[j], k);
    LinesAt(c, keys, i);
    forall j | i < j < |keys|
      ensures !Gives(Line(keys[j], c[keys[j]]), k)
    {
      LinesAt(c, keys, j);
    }
  }

  /** Among pairs of the sort the reader produces, a key is given by its own pair and by no other. */
  lemma OnlyWriter(c: Conf, w: string, k: string)
    requires GoodConf(c) && w in c
    ensures Gives(Line(w, c[w]), k) <==> w == k
  {
    GoodLineReads(w, c[w]);
  }

  lemma {:induction false} LinesLength(c: Conf, keys: seq<string>)
    requires forall k :: k in keys ==> k in c
    ensures |LinesOf(c, keys)| == |keys|
    decreases |keys|
  {
    if keys != [] {
      LinesLength(c, keys[1..]);
    }
  }

  lemma {:induction false} CollectGood(acc: Conf, c: Conf, keys: seq<string>)
    requires (forall k :: k in keys ==> k in c) && GoodConf(c)
    requires forall k :: k in acc ==> k in c && acc[k] == c[k]
    ensures var r := Collect(acc, LinesOf(c, keys));
      (forall k :: k in r <==> k in acc || k in keys) && forall k :: k in r ==> r[k] == c[k]
    decreases |keys|
  {
    if keys != [] {
      var k := keys[0];
      GoodLineReads(k, c[k]);
      CollectGood(acc[k := c[k]], c, keys[1..]);
      assert LinesOf(c, keys)[1..] == LinesOf(c, keys[1..]);
    }
  }

  /**
   An accepted map is read back as it was exactly when every pair is of the sort the reader produces:
   key and value without outer white space, the key not empty, without "=", and not a comment.
   */
  lemma RoundTripIff(c: Conf, keys: seq<string>)
    requires Enumerates(keys, c) && Accepted(c)
    ensures Read(Body(c, keys)) == c <==> GoodConf(c)
  {
    hide ParseLine, GoodPair, Lines, Body, Collect;
    OneLineEach(c, keys);
    CollectIsGood(map[], Lines(Body(c, keys)));
    if GoodConf(c) {
      CollectGood(map[], c, keys);
      assert Read(Body(c, keys)).Keys == c.Keys;
    }
  }

  /** Whatever was read from a file is read again unchanged after it has been written. */
  lemma RoundTrip(text: string, keys: seq<string>)
    requires Enumerates(keys, Read(text)) && Accepted(Read(text))
    ensures Read(Body(Read(text), keys)) == Read(text)
  {
    CollectIsGood(map[], Lines(text));
    RoundTripIff(Read(text), keys);
  }

  // ----- the check is exactly what that takes -----

  function Feeds(s: string): (n: nat)
    ensures n == 0 <==> '\n' !in s
    decreases |s|
  {
    if s == "" then 0 else (if s[0] == '\n' then 1 else 0) + Feeds(s[1..])
  }

  lemma {:induction false} FeedsAppend(a: string, b: string)
    ensures Feeds(a + b) == Feeds(a) + Feeds(b)
    decreases |a|
  {
    if a == "" {
      assert a + b == b;
    } else {
      SeqFacts.Uncons(a, b);
      FeedsAppend(a[1..], b);
    }
  }

  lemma SplitAt(t: string, n: nat)
    requires n < |t|
    ensures t == t[..n] + ([t[n]] + t[n + 1..])
    ensures n + 1 < |t| ==> t[n + 1..][|t| - n - 2] == t[|t| - 1]
  {
  }

  lemma OneFeed()
    ensures Feeds("\n") == 1
  {
  }

  lemma FirstLine(text: string)
    requires text != "" && text[|text| - 1] == '\n'
    ensures var n := LineLength(text);
      n < |text| && Feeds(text) == 1 + Feeds(text[n + 1..])
      && (text[n + 1..] == "" || text[n + 1..][|text| - n - 2] == '\n')
  {
    hide LineLength, Feeds;
    var n := LineLength(text);
    assert n < |text|;
    var rest := text[n + 1..];
    SplitAt(text, n);
    OneFeed();
    FeedsAppend(text[..n], "\n" + rest);
    FeedsAppend("\n", rest);
    assert '\n' !in text[..n];
  }

  lemma NoLines()
    ensures Lines("") == [] && Feeds("") == 0
  {
  }

  /** A text that ends in a line feed has as many lines as line feeds. */
  lemma {:induction false} LineCount(text: string)
    requires text == "" || text[|text| - 1] == '\n'
    ensures |Lines(text)| == Feeds(text)
    decreases |text|
  {
    hide *;
    if text == "" {
      NoLines();
    } else {
      var n := LineLength(text);
      FirstLine(text);
      LinesStep(text);
      LineCount(text[n + 1..]);
      assert n + 1 == |text| ==> text[n + 1..] == "";
      NoLines();
    }
  }

  function FeedsIn(c: Conf, keys: seq<string>): nat
    requires forall k :: k in keys ==> k in c
    decreases |keys|
  {
    if keys == [] then 0 else Feeds(keys[0]) + Feeds(c[keys[0]]) + FeedsIn(c, keys[1..])
  }

  lemma {:induction false} BodyFeeds(c: Conf, keys: seq<string>)
    requires forall k :: k in keys ==> k in c
    ensures Feeds(Body(c, keys)) == |keys| + FeedsIn(c, keys)
    ensures Body(c, keys) == "" || Body(c, keys)[|Body(c, keys)| - 1] == '\n'
    decreases |keys|
  {
    if keys != [] {
      var line := Line(keys[0], c[keys[0]]);
      BodyFeeds(c, keys[1..]);
      FeedsAppend(line + "\n", Body(c, keys[1..]));
      FeedsAppend(line, "\n");
      FeedsAppend(keys[0] + " = ", c[keys[0]]);
      FeedsAppend(keys[0], " = ");
      assert Feeds("\n") == 1 && Feeds(" = ") == 0;
    }
  }

  /** Written without the check, a map has one line per pair exactly when no key and no value holds a line feed. */
  lemma ExtraLines(c: Conf, keys: seq<string>)
    requires forall k :: k in keys ==> k in c
    ensures |Lines(Body(c, keys))| == |keys| + FeedsIn(c, keys)
  {
    BodyFeeds(c, keys);
    LineCount(Body(c, keys));
  }
}
