/**
 The vector and corpus parsers of src/fractalsql_parse.c. What strtod makes of an element is a
 parameter; everything around it, the separators, the rows and the growing store, is as in the source.
 */
module Corpus {
  import opened Wrappers
  import opened JsonScan
  import JsonKeys
  import JsonSyntax
  import SeqFacts
  import Texts

  const MAX_ELEMS: nat := 1048576

  /** The element at the head of a text and its length; None for no number, out of range, or not finite. */
  datatype Lexer<!T> = Lexer(read: string -> Option<(T, nat)>)

  function Element<T>(l: Lexer<T>, t: string): (r: Option<(T, nat)>)
    ensures r.Some? ==> 0 < r.value.1 <= |t|
  {
    match l.read(t)
    case None => None
    case Some((x, n)) => if 0 < n <= |t| then Some((x, n)) else None
  }

  predicate IsSep(c: char) {
    JsonSyntax.IsWs(c) || c == ',' || c == '[' || c == ']'
  }

  function SkipSeps(t: string): (r: string)
    ensures |r| <= |t|
    decreases |t|
  {
    if t != "" && IsSep(t[0]) then SkipSeps(t[1..]) else t
  }

  /** The elements of a row text, of which n have been read before. */
  function Elements<T>(l: Lexer<T>, t: string, n: nat): Option<seq<T>>
    decreases |t|
  {
    var u := SkipSeps(t);
    if u == "" then Some([])
    else
      match Element(l, u)
      case None => None
      case Some((x, k)) =>
        if n >= MAX_ELEMS then None
        else
          match Elements(l, u[k..], n + 1)
          case None => None
          case Some(more) => Some([x] + more)
  }

  /** `parse_vector_csv`: at least one element. */
  function Vector<T>(l: Lexer<T>, src: string): Option<seq<T>> {
    match Elements(l, Texts.CString(src), 0)
    case None => None
    case Some(v) => if v == [] then None else Some(v)
  }

  // ----- rows -----

  predicate Leads(c: char) {
    JsonSyntax.IsWs(c) || c == '['
  }

  predicate Trails(c: char) {
    JsonSyntax.IsWs(c) || c == ']' || c == ','
  }

  function TrimTrail(t: string): string
    decreases |t|
  {
    if t != "" && Trails(t[|t| - 1]) then TrimTrail(t[..|t| - 1]) else t
  }

  function TrimLead(t: string): string
    decreases |t|
  {
    if t != "" && Leads(t[0]) then TrimLead(t[1..]) else t
  }

  /** How far the first row's segment reaches: a bracket that opens the segment does not end it. */
  function SegmentEnd(t: string, brackets: bool, k: nat): (e: nat)
    requires k <= |t|
    ensures k <= e <= |t|
    decreases |t| - k
  {
    if k == |t| || t[k] == ';' || (brackets && t[k] == '[' && k > 0) then k else SegmentEnd(t, brackets, k + 1)
  }

  /** The rows of the rest of the text; `dim` is 0 until a row has fixed it. */
  function Rows<T>(l: Lexer<T>, t: string, brackets: bool, dim: nat): Option<(seq<seq<T>>, nat)>
    decreases |t|
  {
    var e := SegmentEnd(t, brackets, 0);
    var row := TrimLead(TrimTrail(t[..e]));
    var v := if row == "" then Some([]) else Vector(l, row);
    if v.None? || (row != "" && dim != 0 && |v.value| != dim) then None
    else
      var dim' := if row != "" && dim == 0 then |v.value| else dim;
      var here := if row == "" then [] else [v.value];
      if e == |t| then Some((here, dim'))
      else
        match Rows(l, if t[e] == '[' then t[e..] else t[e + 1..], brackets, dim')
        case None => None
        case Some((more, d)) => Some((here + more, d))
  }

  /** The region the rows stand in, and whether brackets separate them. */
  function Region(src: string): (string, bool) {
    var t := SkipWs(src);
    if t != "" && t[0] == '[' && SkipWs(t[1..]) != "" && SkipWs(t[1..])[0] == '[' then
      var u := TrimEnd(t[1..]);
      (if u != "" && u[|u| - 1] == ']' then u[..|u| - 1] else u, true)
    else (t, false)
  }

  predicate NoRows(t: string) {
    forall i :: 0 <= i < |t| ==> JsonSyntax.IsWs(t[i]) || t[i] == '[' || t[i] == ']'
  }

  /** `parse_corpus`: the rows and their dimension. */
  function Parse<T>(l: Lexer<T>, src: string, expected: nat): Option<(seq<seq<T>>, nat)> {
    var (t, brackets) := Region(src);
    if NoRows(t) then Some(([], expected)) else Rows(l, t, brackets, expected)
  }

  // ----- the two notations -----

  /** A way to write elements that the lexer reads back in front of a separator or at the end. */
  ghost predicate Faithful<T(!new)>(l: Lexer<T>, p: T -> string) {
    forall x, rest :: ReadsBack(l, p, x, rest)
  }

  ghost predicate ReadsBack<T(!new)>(l: Lexer<T>, p: T -> string, x: T, rest: string) {
    && p(x) != "" && Plain(p(x))
    && (rest == "" || rest[0] == ',' ==> Element(l, p(x) + rest) == Some((x, |p(x)|)))
  }

  /** Without separators and NUL bytes. */
  predicate Plain(s: string) {
    forall i :: 0 <= i < |s| ==> !IsSep(s[i]) && s[i] != ';' && s[i] != '\0'
  }

  function PrintRow<T>(p: T -> string, row: seq<T>): string
    decreases |row|
  {
    if row == [] then "" else if |row| == 1 then p(row[0]) else p(row[0]) + ("," + PrintRow(p, row[1..]))
  }

  /** a,b;c,d */
  function Semicolons<T>(p: T -> string, rows: seq<seq<T>>): string
    decreases |rows|
  {
    if rows == [] then ""
    else if |rows| == 1 then PrintRow(p, rows[0])
    else PrintRow(p, rows[0]) + (";" + Semicolons(p, rows[1..]))
  }

  /** [a,b],[c,d] */
  function Bracketed<T>(p: T -> string, rows: seq<seq<T>>): string
    decreases |rows|
  {
    if rows == [] then ""
    else if |rows| == 1 then "[" + (PrintRow(p, rows[0]) + "]")
    else "[" + (PrintRow(p, rows[0]) + ("]," + Bracketed(p, rows[1..])))
  }

  /** What stands in a printed row. */
  predicate RowChars(s: string) {
    forall i :: 0 <= i < |s| ==> !JsonSyntax.IsWs(s[i]) && s[i] != '[' && s[i] != ']' && s[i] != ';' && s[i] != '\0'
  }

  /** A printed row has a number at both ends. */
  predicate RowText(s: string) {
    s != "" && RowChars(s) && s[0] != ',' && s[|s| - 1] != ','
  }

  lemma {:induction false} PrintedRow<T(!new)>(l: Lexer<T>, p: T -> string, row: seq<T>)
    requires Faithful(l, p) && row != []
    ensures RowText(PrintRow(p, row))
    decreases |row|
  {
    var a := p(row[0]);
    FaithfulAt(l, p, row[0], "");
    if |row| > 1 {
      PrintedRow(l, p, row[1..]);
      var b := PrintRow(p, row[1..]);
      var s := a + ("," + b);
      assert s[|s| - 1] == b[|b| - 1];
    }
  }

  lemma FaithfulAt<T(!new)>(l: Lexer<T>, p: T -> string, x: T, rest: string)
    requires Faithful(l, p) && (rest == "" || rest[0] == ',')
    ensures p(x) != "" && Plain(p(x)) && Element(l, p(x) + rest) == Some((x, |p(x)|))
  {
    assert ReadsBack(l, p, x, rest);
  }

  lemma PrintRowIs<T>(p: T -> string, row: seq<T>)
    requires row != []
    ensures PrintRow(p, row) == p(row[0]) + if |row| == 1 then "" else "," + PrintRow(p, row[1..])
  {
    assert p(row[0]) + "" == p(row[0]);
  }

  lemma SepsStay(a: string, rest: string)
    requires a != "" && Plain(a)
    ensures a + rest != "" && SkipSeps(a + rest) == a + rest
  {
    assert (a + rest)[0] == a[0];
  }

  lemma {:induction false} ElementsPrinted<T(!new)>(l: Lexer<T>, p: T -> string, row: seq<T>, n: nat)
    requires Faithful(l, p) && row != [] && n + |row| <= MAX_ELEMS
    ensures Elements(l, PrintRow(p, row), n) == Some(row)
    decreases |row|
  {
    hide *;
    var a := p(row[0]);
    var rest := if |row| == 1 then "" else "," + PrintRow(p, row[1..]);
    assert rest == "" || rest[0] == ',';
    PrintRowIs(p, row);
    FaithfulAt(l, p, row[0], rest);
    SepsStay(a, rest);
    ElementsStep(l, a + rest, n);
    SeqFacts.Skip(a, rest);
    SeqFacts.HeadTail(row);
    if |row| == 1 {
      NoElements(l, n + 1);
      assert row[1..] == [];
    } else {
      ElementsPrinted(l, p, row[1..], n + 1);
      CommaSkipped(l, PrintRow(p, row[1..]), n + 1);
    }
  }

  lemma ElementsStep<T>(l: Lexer<T>, t: string, n: nat)
    requires t != "" && SkipSeps(t) == t && n < MAX_ELEMS && Element(l, t).Some?
    ensures var (x, k) := Element(l, t).value;
      Elements(l, t, n) == match Elements(l, t[k..], n + 1)
                           case None => None
                           case Some(more) => Some([x] + more)
  {
  }

  lemma NoElements<T>(l: Lexer<T>, n: nat)
    ensures Elements(l, "", n) == Some([])
  {
  }

  lemma CommaSkipped<T>(l: Lexer<T>, b: string, n: nat)
    ensures Elements(l, "," + b, n) == Elements(l, b, n)
  {
    assert ("," + b)[0] == ',' && ("," + b)[1..] == b;
    assert SkipSeps("," + b) == SkipSeps(b);
  }

  /** One element too many, and the whole row is refused. */
  lemma {:induction false} TooManyElements<T(!new)>(l: Lexer<T>, p: T -> string, row: seq<T>, n: nat)
    requires Faithful(l, p) && row != [] && n <= MAX_ELEMS < n + |row|
    ensures Elements(l, PrintRow(p, row), n) == None
    decreases |row|
  {
    hide *;
    var a := p(row[0]);
    var rest := if |row| == 1 then "" else "," + PrintRow(p, row[1..]);
    assert rest == "" || rest[0] == ',';
    PrintRowIs(p, row);
    FaithfulAt(l, p, row[0], rest);
    SepsStay(a, rest);
    if n == MAX_ELEMS {
      FullAlready(l, a + rest, n);
    } else {
      ElementsStep(l, a + rest, n);
      SeqFacts.Skip(a, rest);
      TooManyElements(l, p, row[1..], n + 1);
      CommaSkipped(l, PrintRow(p, row[1..]), n + 1);
    }
  }

  lemma FullAlready<T>(l: Lexer<T>, t: string, n: nat)
    requires t != "" && SkipSeps(t) == t && n >= MAX_ELEMS
    ensures Elements(l, t, n) == None
  {
  }

  lemma VectorIsElements<T>(l: Lexer<T>, t: string)
    requires Texts.CString(t) == t
    ensures Vector(l, t) == match Elements(l, t, 0) case None => None case Some(v) => if v == [] then None else Some(v)
  {
  }

  /** A printed row is read back exactly when it has at most 1048576 elements, and one that is longer is refused. */
  lemma VectorPrinted<T(!new)>(l: Lexer<T>, p: T -> string, row: seq<T>)
    requires Faithful(l, p) && row != []
    ensures Vector(l, PrintRow(p, row)) == if |row| <= 1048576 then Some(row) else None
  {
    hide Elements, Vector, Faithful, PrintRow;
    PrintedRow(l, p, row);
    Texts.CStringWhole(PrintRow(p, row));
    VectorIsElements(l, PrintRow(p, row));
    if |row| <= MAX_ELEMS {
      ElementsPrinted(l, p, row, 0);
    } else {
      TooManyElements(l, p, row, 0);
    }
  }

  // ----- whole corpora -----

  lemma {:induction false} SegmentFinds(t: string, brackets: bool, k: nat, e: nat)
    requires k <= e <= |t| && (e == |t| || t[e] == ';' || (brackets && t[e] == '[' && e > 0))
    requires forall i :: k <= i < e ==> t[i] != ';' && !(brackets && t[i] == '[' && i > 0)
    ensures SegmentEnd(t, brackets, k) == e
    decreases e - k
  {
    if k < e {
      SegmentFinds(t, brackets, k + 1, e);
    }
  }

  /** A row's text between brackets and commas is cut out whole. */
  lemma {:induction false} TrimTrailStops(s: string, tail: string)
    requires RowText(s) && forall i :: 0 <= i < |tail| ==> Trails(tail[i])
    ensures TrimTrail(s + tail) == s
    decreases |tail|
  {
    if tail == "" {
      assert s + tail == s;
    } else {
      var u := tail[..|tail| - 1];
      assert (s + tail)[|s + tail| - 1] == tail[|tail| - 1] && (s + tail)[..|s + tail| - 1] == s + u;
      TrimTrailStops(s, u);
    }
  }

  lemma PlainRowStays(s: string)
    requires RowText(s)
    ensures TrimLead(TrimTrail(s)) == s
  {
    assert s + "" == s;
    TrimTrailStops(s, "");
  }

  lemma BracketRowStays(s: string, tail: string)
    requires RowText(s) && forall i :: 0 <= i < |tail| ==> Trails(tail[i])
    ensures TrimLead(TrimTrail("[" + (s + tail))) == s
  {
    BracketTrimTrail(s, tail);
    var u := "[" + s;
    assert u[0] == '[' && u[1..] == s;
    assert TrimLead(u) == TrimLead(s);
  }

  lemma {:induction false} BracketTrimTrail(s: string, tail: string)
    requires RowText(s) && forall i :: 0 <= i < |tail| ==> Trails(tail[i])
    ensures TrimTrail("[" + (s + tail)) == "[" + s
    decreases |tail|
  {
    var t := "[" + (s + tail);
    if tail == "" {
      assert t == "[" + s && t[|t| - 1] == s[|s| - 1];
    } else {
      var u := tail[..|tail| - 1];
      assert t[|t| - 1] == tail[|tail| - 1] && t[..|t| - 1] == "[" + (s + u);
      BracketTrimTrail(s, u);
    }
  }

  /** Rows of one length. */
  predicate Rectangular<T>(rows: seq<seq<T>>, dim: nat) {
    forall i :: 0 <= i < |rows| ==> |rows[i]| == dim
  }

  /** What a reader that has fixed its dimension, or not yet, makes of rows it can read. */
  function Checked<T>(rows: seq<seq<T>>, dim: nat): Option<(seq<seq<T>>, nat)>
    requires forall i :: 0 <= i < |rows| ==> rows[i] != []
    decreases |rows|
  {
    if rows == [] then Some(([], dim))
    else if dim != 0 && |rows[0]| != dim then None
    else
      match Checked(rows[1..], |rows[0]|)
      case None => None
      case Some((more, d)) => Some(([rows[0]] + more, d))
  }

  lemma {:induction false} CheckedIsRectangular<T>(rows: seq<seq<T>>, dim: nat)
    requires rows != [] && forall i :: 0 <= i < |rows| ==> rows[i] != []
    ensures var d := if dim == 0 then |rows[0]| else dim;
      Checked(rows, dim) == if Rectangular(rows, d) then Some((rows, d)) else None
    decreases |rows|
  {
    if |rows| > 1 {
      CheckedIsRectangular(rows[1..], |rows[0]|);
      assert forall i :: 0 <= i < |rows| - 1 ==> rows[1..][i] == rows[i + 1];
      if Rectangular(rows, |rows[0]|) {
        assert [rows[0]] + rows[1..] == rows;
      }
    } else {
      assert rows[1..] == [] && [rows[0]] + [] == rows;
    }
  }

  predicate Writable<T>(rows: seq<seq<T>>) {
    rows != [] && forall i :: 0 <= i < |rows| ==> 0 < |rows[i]| <= MAX_ELEMS
  }

  /** One row and the rest of the text. */
  lemma RowStep<T>(l: Lexer<T>, t: string, brackets: bool, dim: nat, e: nat, s: string, row: seq<T>)
    requires SegmentEnd(t, brackets, 0) == e && TrimLead(TrimTrail(t[..e])) == s
    requires s != "" && Vector(l, s) == Some(row)
    ensures row != []
    ensures Rows(l, t, brackets, dim)
         == if dim != 0 && |row| != dim then None
            else if e == |t| then Some(([row], |row|))
            else
              match Rows(l, if t[e] == '[' then t[e..] else t[e + 1..], brackets, |row|)
              case None => None
              case Some((more, d)) => Some(([row] + more, d))
  {
  }

  lemma {:induction false} SemicolonRows<T(!new)>(l: Lexer<T>, p: T -> string, rows: seq<seq<T>>, dim: nat)
    requires Faithful(l, p) && Writable(rows)
    ensures Rows(l, Semicolons(p, rows), false, dim) == Checked(rows, dim)
    decreases |rows|
  {
    hide Faithful, Vector, TrimTrail, TrimLead, RowText, SegmentEnd, PrintRow, Rows;
    var a := PrintRow(p, rows[0]);
    PrintedRow(l, p, rows[0]);
    VectorPrinted(l, p, rows[0]);
    PlainRowStays(a);
    if |rows| == 1 {
      SegmentToSemicolon(a, "");
      assert Semicolons(p, rows) == a;
      RowStep(l, a, false, dim, |a|, a, rows[0]);
      assert rows[1..] == [] && [rows[0]] + [] == [rows[0]];
    } else {
      var more := Semicolons(p, rows[1..]);
      SegmentToSemicolon(a, ";" + more);
      RowStep(l, a + (";" + more), false, dim, |a|, a, rows[0]);
      SemicolonRows(l, p, rows[1..], |rows[0]|);
    }
  }

  lemma SegmentToSemicolon(a: string, tail: string)
    requires RowText(a) && (tail == "" || tail[0] == ';')
    ensures SegmentEnd(a + tail, false, 0) == |a| && (a + tail)[..|a|] == a && (tail == "" ==> a + tail == a)
    ensures tail != "" ==> (a + tail)[|a|] == ';' && (a + tail)[|a| + 1..] == tail[1..]
  {
    NoSemicolon(a);
    SegmentFinds(a + tail, false, 0, |a|);
  }

  lemma NoSemicolon(s: string)
    requires RowText(s)
    ensures s != "" && forall i :: 0 <= i < |s| ==> s[i] != ';' && s[i] != '['
  {
  }

  lemma {:induction false} BracketedRows<T(!new)>(l: Lexer<T>, p: T -> string, rows: seq<seq<T>>, dim: nat)
    requires Faithful(l, p) && Writable(rows)
    ensures Rows(l, Bracketed(p, rows), true, dim) == Checked(rows, dim)
    decreases |rows|
  {
    hide Faithful, Vector, TrimTrail, TrimLead, RowText, SegmentEnd, PrintRow;
    var a := PrintRow(p, rows[0]);
    var t := Bracketed(p, rows);
    PrintedRow(l, p, rows[0]);
    VectorPrinted(l, p, rows[0]);
    NoSemicolon(a);
    if |rows| == 1 {
      BracketRowStays(a, "]");
      assert t[..|t|] == t && forall i :: 0 < i < |t| - 1 ==> t[i] == a[i - 1];
      SegmentFinds(t, true, 0, |t|);
      RowStep(l, t, true, dim, |t|, a, rows[0]);
      assert rows[1..] == [] && [rows[0]] + [] == [rows[0]];
    } else {
      var more := Bracketed(p, rows[1..]);
      var e := |a| + 3;
      BracketRowStays(a, "],");
      BracketSegment(a, more);
      BracketOpens(p, rows[1..]);
      SegmentFinds(t, true, 0, e);
      RowStep(l, t, true, dim, e, a, rows[0]);
      BracketedRows(l, p, rows[1..], |rows[0]|);
    }
  }

  lemma BracketOpens<T>(p: T -> string, rows: seq<seq<T>>)
    requires rows != []
    ensures Bracketed(p, rows) != "" && Bracketed(p, rows)[0] == '['
  {
  }

  lemma BracketSegment(a: string, more: string)
    ensures var t := "[" + (a + ("]," + more)); var e := |a| + 3;
      && t[..e] == "[" + (a + "],") && t[e..] == more
      && (forall i :: 0 < i <= |a| ==> t[i] == a[i - 1]) && t[|a| + 1] == ']' && t[|a| + 2] == ',' && t[0] == '['
  {
    var t := "[" + (a + ("]," + more));
    assert t == "[" + (a + "],") + more;
    SeqFacts.Skip("[" + (a + "],"), more);
  }

  lemma SomethingToRead(s: string, t: string, i: nat)
    requires RowText(s) && i + |s| <= |t| && t[i..i + |s|] == s
    ensures !NoRows(t)
  {
    assert t[i] == t[i..i + |s|][0] == s[0];
  }

  /** Both notations of a row list are read as the same rows; rows of different lengths are refused. */
  lemma NotationsAgree<T(!new)>(l: Lexer<T>, p: T -> string, rows: seq<seq<T>>, expected: nat)
    requires Faithful(l, p) && Writable(rows)
    ensures var d := if expected == 0 then |rows[0]| else expected;
      var result := if Rectangular(rows, d) then Some((rows, d)) else None;
      && Parse(l, Semicolons(p, rows), expected) == result
      && Parse(l, "[" + (Bracketed(p, rows) + "]"), expected) == result
  {
    CheckedIsRectangular(rows, expected);
    SemicolonRows(l, p, rows, expected);
    BracketedRows(l, p, rows, expected);
    PrintedRow(l, p, rows[0]);
    hide Faithful, Rows, Checked, Rectangular, Writable, PrintRow, NoRows, Region;
    SemicolonRegion(p, rows);
    BracketRegion(p, rows);
  }

  lemma SemicolonRegion<T>(p: T -> string, rows: seq<seq<T>>)
    requires rows != [] && RowText(PrintRow(p, rows[0]))
    ensures Region(Semicolons(p, rows)) == (Semicolons(p, rows), false) && !NoRows(Semicolons(p, rows))
  {
    var a, t := PrintRow(p, rows[0]), Semicolons(p, rows);
    assert t[..|a|] == a && t[0] == a[0];
    assert t[0..0 + |a|] == a;
    SomethingToRead(a, t, 0);
    assert SkipWs(t) == t;
  }

  lemma BracketsAround(t: string)
    requires t != "" && t[0] == '['
    ensures Region("[" + (t + "]")) == (t, true)
  {
    var s, u := "[" + (t + "]"), t + "]";
    assert s[0] == '[' && s[1..] == u && u[0] == '[';
    assert SkipWs(s) == s && SkipWs(u) == u;
    assert u[|u| - 1] == ']' && TrimEnd(u) == u && u[..|u| - 1] == t;
  }

  lemma BracketRegion<T>(p: T -> string, rows: seq<seq<T>>)
    requires rows != [] && RowText(PrintRow(p, rows[0]))
    ensures Region("[" + (Bracketed(p, rows) + "]")) == (Bracketed(p, rows), true) && !NoRows(Bracketed(p, rows))
  {
    hide Region, NoRows, RowText, PrintRow, TrimEnd;
    var a, t := PrintRow(p, rows[0]), Bracketed(p, rows);
    var tail := if |rows| == 1 then "]" else "]," + Bracketed(p, rows[1..]);
    assert t == "[" + (a + tail);
    assert t[1..1 + |a|] == a;
    SomethingToRead(a, t, 1);
    BracketsAround(t);
  }

  // ----- decimal integers are such elements -----

  /** A reader of unsigned decimal integers. */
  function ReadDecimal(t: string): Option<(nat, nat)> {
    var n := JsonKeys.Lead(t);
    if n == 0 then None else Some((JsonSyntax.DigitsValue(t[..n]), n))
  }

  lemma DecimalReadsBack(x: nat, rest: string)
    ensures ReadsBack(Lexer(ReadDecimal), Texts.DecimalNat, x, rest)
  {
    var s := Texts.DecimalNat(x);
    JsonKeys.DecimalValue(x);
    hide JsonKeys.Lead, Texts.DecimalNat, JsonSyntax.DigitsValue;
    if rest == "" || rest[0] == ',' {
      JsonKeys.LeadPrinted(s, rest);
      assert ReadDecimal(s + rest) == Some((x, |s|));
    }
  }

  lemma DecimalsAreFaithful()
    ensures Faithful(Lexer(ReadDecimal), Texts.DecimalNat)
  {
    hide ReadsBack;
    forall x: nat, rest: string
      ensures ReadsBack(Lexer(ReadDecimal), Texts.DecimalNat, x, rest)
    {
      DecimalReadsBack(x, rest);
    }
  }

  // ----- the loops -----

  const SIZE_MAX: nat := 18446744073709551615

  /** `mul_ok`: the products do not wrap. */
  function MulOk(a: nat, b: nat, c: nat): (ok: bool)
    ensures ok <==> a * b <= 18446744073709551615 && (c != 0 ==> a * b * c <= 18446744073709551615)
  {
    QuotientBound(a, b);
    if a != 0 && b > SIZE_MAX / a then false
    else
      QuotientBound(c, a * b);
      !(c != 0 && a * b > SIZE_MAX / c)
  }

  lemma QuotientBound(a: nat, b: nat)
    ensures a != 0 ==> (b <= SIZE_MAX / a <==> b * a <= SIZE_MAX)
    ensures a == 0 ==> a * b == 0
  {
    if a != 0 {
      var q := SIZE_MAX / a;
      assert SIZE_MAX == q * a + SIZE_MAX % a;
      if b <= q {
        Monotone(b, q, a);
      } else {
        Monotone(q + 1, b, a);
        assert (q + 1) * a == q * a + a;
      }
    }
  }

  lemma Monotone(x: nat, y: nat, a: nat)
    requires x <= y
    ensures x * a <= y * a
  {
  }

  method SkipSepsAt(t: string, from: nat) returns (p: nat)
    requires from <= |t|
    ensures from <= p <= |t| && t[p..] == SkipSeps(t[from..])
  {
    p := from;
    while p < |t| && IsSep(t[p])
      invariant from <= p <= |t| && SkipSeps(t[p..]) == SkipSeps(t[from..])
    {
      assert t[p..][1..] == t[p + 1..];
      p := p + 1;
    }
    assert p < |t| ==> t[p..][0] == t[p];
  }

  /** realloc: the same elements in a larger array. */
  method Grown<T(0)>(v: array<T>, n: nat, cap: nat) returns (w: array<T>)
    requires n <= v.Length <= cap
    ensures fresh(w) && w.Length == cap && w[..n] == v[..n]
  {
    w := new T[cap];
    var i := 0;
    while i < n
      invariant i <= n && w[..i] == v[..i]
    {
      w[i] := v[i];
      assert w[..i + 1] == w[..i] + [w[i]] && v[..i + 1] == v[..i] + [v[i]];
      i := i + 1;
    }
  }

  /** `parse_vector_csv`. */
  method ParseVector<T(0)>(l: Lexer<T>, src: string) returns (ok: bool, v: array<T>, n: nat)
    ensures fresh(v) && ok == Vector(l, src).Some?
    ensures ok ==> n <= v.Length && Vector(l, src) == Some(v[..n])
  {
    hide Element, SkipSeps;
    var buf := Texts.CString(src);
    ghost var goal := Elements(l, buf, 0);
    v, n := new T[16], 0;
    var cap, p := 16, 0;
    assert buf[0..] == buf && v[..0] == [];
    ThenNothing(goal);
    while p < |buf|
      invariant fresh(v) && cap == v.Length && 16 <= cap && n <= cap && n <= MAX_ELEMS && p <= |buf|
      invariant goal == Then(v[..n], Elements(l, buf[p..], n))
      decreases |buf| - p
    {
      var q := SkipSepsAt(buf, p);
      if q == |buf| { p := q; break; }
      var element := Element(l, buf[q..]);
      if element.None? { return false, v, n; }
      if n == MAX_ELEMS { return false, v, n; }
      if n == cap {
        var ncap := cap * 2;
        if !MulOk(ncap, 8, 1) { assert false; }
        v := Grown(v, n, ncap);
        cap := ncap;
      }
      var (x, k) := element.value;
      ghost var before := v[..n];
      v[n] := x;
      assert v[..n + 1] == before + [x] && buf[q..][k..] == buf[q + k..];
      ThenMore(before, x, Elements(l, buf[q + k..], n + 1));
      n, p := n + 1, q + k;
    }
    assert SkipSeps(buf[p..]) == "" ==> Elements(l, buf[p..], n) == Some([]);
    assert v[..n] + [] == v[..n];
    ok := n > 0;
  }

  /** The elements read so far and what the rest brings. */
  function Then<T>(seen: seq<T>, more: Option<seq<T>>): Option<seq<T>> {
    if more.None? then None else Some(seen + more.value)
  }

  lemma ThenMore<T>(seen: seq<T>, x: T, more: Option<seq<T>>)
    ensures Then(seen, Then([x], more)) == Then(seen + [x], more)
  {
    if more.Some? {
      SeqFacts.Assoc(seen, [x], more.value);
    }
  }

  lemma ThenNothing<T>(more: Option<seq<T>>)
    ensures Then([], more) == more
  {
    if more.Some? {
      assert [] + more.value == more.value;
    }
  }

  // ----- the store of rows -----

  function Flat<T>(rows: seq<seq<T>>): seq<T>
    decreases |rows|
  {
    if rows == [] then [] else Flat(rows[..|rows| - 1]) + rows[|rows| - 1]
  }

  lemma {:induction false} FlatLength<T>(rows: seq<seq<T>>, dim: nat)
    requires Rectangular(rows, dim)
    ensures |Flat(rows)| == |rows| * dim
    decreases |rows|
  {
    if rows != [] {
      FlatLength(rows[..|rows| - 1], dim);
      assert (|rows| - 1) * dim + dim == |rows| * dim;
    }
  }

  lemma {:induction false} RowFits(k: nat, n: nat, dim: nat)
    requires k < n
    ensures k * dim + dim <= n * dim
    decreases n
  {
    assert (n - 1) * dim + dim == n * dim;
    if k + 1 < n {
      RowFits(k, n - 1, dim);
    }
  }

  lemma Piece<T>(a: seq<T>, b: seq<T>, p: nat, q: nat)
    requires p <= q <= |a|
    ensures (a + b)[p..q] == a[p..q] && (a + b)[|a|..|a| + |b|] == b
  {
  }

  /** Row k of a flat store. */
  lemma {:induction false} FlatAt<T>(rows: seq<seq<T>>, dim: nat, k: nat)
    requires Rectangular(rows, dim) && k < |rows|
    ensures k * dim + dim <= |Flat(rows)| && Flat(rows)[k * dim..k * dim + dim] == rows[k]
    decreases |rows|
  {
    var n := |rows| - 1;
    var front, p := rows[..n], k * dim;
    FlatLength(front, dim);
    assert Flat(rows) == Flat(front) + rows[n];
    hide Flat;
    if k < n {
      FlatAt(front, dim, k);
      RowFits(k, n, dim);
      Piece(Flat(front), rows[n], p, p + dim);
    } else {
      Piece(Flat(front), rows[n], p, p);
    }
  }

  /** The growing buffer of `parse_corpus`: rows one behind the other, dim elements each. */
  class RowStore<T(0)> {
    var store: array<T>
    var capRows: nat
    var nRows: nat
    const dim: nat
    /** The rows stored so far. */
    ghost var rows: seq<seq<T>>

    ghost predicate Valid()
      reads this, store
    {
      && store.Length == capRows * dim && nRows == |rows| <= capRows
      && Rectangular(rows, dim) && nRows * dim <= store.Length && store[..nRows * dim] == Flat(rows)
    }

    constructor (dim: nat)
      ensures Valid() && rows == [] && this.dim == dim && fresh(store)
    {
      this.dim := dim;
      store := new T[0];
      capRows, nRows, rows := 0, 0, [];
    }

    /** Doubling, unless the size product would wrap. */
    method Grow() returns (ok: bool)
      requires Valid() && nRows == capRows && dim > 0
      modifies this`store, this`capRows
      ensures Valid() && (store == old(store) || fresh(store))
      ensures ok <==> MulOk(if old(capRows) == 0 then 16 else old(capRows) * 2, dim, 8)
      ensures if ok then nRows < capRows else capRows == old(capRows)
    {
      var ncap := if capRows == 0 then 16 else capRows * 2;
      if !MulOk(ncap, dim, 8) { return false; }
      Monotone(capRows, ncap, dim);
      store := Grown(store, nRows * dim, ncap * dim);
      capRows := ncap;
      return true;
    }

    /** memcpy of one row behind the others. */
    method Append(row: array<T>, n: nat)
      requires Valid() && nRows < capRows && n == dim <= row.Length && row != store
      modifies this`nRows, this`rows, store
      ensures Valid() && rows == old(rows) + [row[..n]]
    {
      hide Flat;
      Monotone(nRows + 1, capRows, dim);
      assert (nRows + 1) * dim == nRows * dim + dim;
      CopyRow(store, nRows * dim, row, dim);
      FlatSnoc(rows, row[..n]);
      rows := rows + [row[..n]];
      nRows := nRows + 1;
    }
  }

  method CopyRow<T>(store: array<T>, base: nat, row: array<T>, n: nat)
    requires base + n <= store.Length && n <= row.Length && row != store
    modifies store
    ensures store[..base + n] == old(store[..base]) + row[..n]
  {
    var i := 0;
    while i < n
      invariant i <= n && store[..base + i] == old(store[..base]) + row[..i]
    {
      store[base + i] := row[i];
      assert store[..base + i + 1] == store[..base + i] + [row[i]] && row[..i + 1] == row[..i] + [row[i]];
      i := i + 1;
    }
  }

  lemma FlatSnoc<T>(rows: seq<seq<T>>, row: seq<T>)
    ensures Flat(rows + [row]) == Flat(rows) + row
  {
    assert (rows + [row])[..|rows|] == rows;
  }

  // ----- the scan for rows -----

  method SkipWsAt(t: string, from: nat, upto: nat) returns (p: nat)
    requires from <= upto <= |t|
    ensures from <= p <= upto && t[p..upto] == SkipWs(t[from..upto])
  {
    p := from;
    while p < upto && JsonSyntax.IsWs(t[p])
      invariant from <= p <= upto && SkipWs(t[p..upto]) == SkipWs(t[from..upto])
    {
      assert t[p..upto][1..] == t[p + 1..upto];
      p := p + 1;
    }
    assert p < upto ==> t[p..upto][0] == t[p];
  }

  method TrimEndAt(t: string, from: nat, upto: nat) returns (e: nat)
    requires from <= upto <= |t|
    ensures from <= e <= upto && t[from..e] == TrimEnd(t[from..upto])
  {
    e := upto;
    while e > from && JsonSyntax.IsWs(t[e - 1])
      invariant from <= e <= upto && TrimEnd(t[from..e]) == TrimEnd(t[from..upto])
    {
      assert t[from..e][..e - from - 1] == t[from..e - 1];
      e := e - 1;
    }
    assert e > from ==> t[from..e][e - from - 1] == t[e - 1];
  }

  /** The start of `parse_corpus`: outer brackets are stripped when the text opens with two. */
  method RegionAt(src: string) returns (i: nat, end: nat, brackets: bool)
    ensures i <= end <= |src| && (src[i..end], brackets) == Region(src)
  {
    hide SkipWs, TrimEnd;
    end, brackets := |src|, false;
    assert src[0..|src|] == src;
    i := SkipWsAt(src, 0, |src|);
    ghost var t := src[i..end];
    assert i < end ==> t[0] == src[i] && t[1..] == src[i + 1..end];
    if i < end && src[i] == '[' {
      var j := SkipWsAt(src, i + 1, end);
      assert j < end ==> src[j..end][0] == src[j];
      if j < end && src[j] == '[' {
        brackets := true;
        i := i + 1;
        end := TrimEndAt(src, i, end);
        ghost var u := src[i..end];
        assert end > i ==> u[|u| - 1] == src[end - 1] && u[..|u| - 1] == src[i..end - 1];
        if end > i && src[end - 1] == ']' { end := end - 1; }
      }
    }
  }

  method NoRowsAt(src: string, i: nat, end: nat) returns (none: bool)
    requires i <= end <= |src|
    ensures none == NoRows(src[i..end])
  {
    var j := i;
    while j < end && (JsonSyntax.IsWs(src[j]) || src[j] == '[' || src[j] == ']')
      invariant i <= j <= end && forall k :: i <= k < j ==> JsonSyntax.IsWs(src[k]) || src[k] == '[' || src[k] == ']'
    {
      j := j + 1;
    }
    none := j >= end;
    assert j < end ==> src[i..end][j - i] == src[j];
  }

  method SegmentEndAt(src: string, start: nat, end: nat, brackets: bool) returns (i: nat)
    requires start <= end <= |src|
    ensures start <= i <= end && i - start == SegmentEnd(src[start..end], brackets, 0)
  {
    ghost var t := src[start..end];
    i := start;
    while i < end && !(src[i] == ';' || (brackets && src[i] == '[' && i > start))
      invariant start <= i <= end && SegmentEnd(t, brackets, i - start) == SegmentEnd(t, brackets, 0)
    {
      assert t[i - start] == src[i];
      i := i + 1;
    }
    assert i < end ==> t[i - start] == src[i];
  }

  method RowAt(src: string, start: nat, i: nat) returns (s: nat, e: nat)
    requires start <= i <= |src|
    ensures start <= s <= e <= i && src[s..e] == TrimLead(TrimTrail(src[start..i]))
  {
    s, e := start, i;
    while e > start && Trails(src[e - 1])
      invariant start <= e <= i && TrimTrail(src[start..e]) == TrimTrail(src[start..i])
    {
      assert src[start..e][..e - start - 1] == src[start..e - 1];
      e := e - 1;
    }
    assert e > start ==> src[start..e][e - start - 1] == src[e - 1];
    while s < e && Leads(src[s])
      invariant start <= s <= e && TrimLead(src[s..e]) == TrimLead(TrimTrail(src[start..i]))
    {
      assert src[s..e][1..] == src[s + 1..e];
      s := s + 1;
    }
    assert s < e ==> src[s..e][0] == src[s];
  }

  // ----- the corpus -----

  datatype Status = Read | Malformed | TooLarge

  /** The rows so far and what the rest of the text brings. */
  function After<T>(rows: seq<seq<T>>, more: Option<(seq<seq<T>>, nat)>): Option<(seq<seq<T>>, nat)> {
    match more
    case None => None
    case Some((rest, d)) => Some((rows + rest, d))
  }

  lemma AfterRow<T>(rows: seq<seq<T>>, row: seq<T>, more: Option<(seq<seq<T>>, nat)>)
    ensures After(rows, After([row], more)) == After(rows + [row], more)
    ensures After(rows, After([], more)) == After(rows, more)
    ensures After([], more) == more
  {
    if more.Some? {
      SeqFacts.Assoc(rows, [row], more.value.0);
      assert [] + more.value.0 == more.value.0;
    }
  }

  /** One segment, as the loop of `parse_corpus` treats it. */
  lemma RowsStep<T>(l: Lexer<T>, t: string, brackets: bool, dim: nat)
    ensures var e := SegmentEnd(t, brackets, 0);
      var row := TrimLead(TrimTrail(t[..e]));
      var next := if e == |t| then "" else if t[e] == '[' then t[e..] else t[e + 1..];
      Rows(l, t, brackets, dim)
      == if row == "" then
           (if e == |t| then Some(([], dim)) else After([], Rows(l, next, brackets, dim)))
         else if Vector(l, row).None? || (dim != 0 && |Vector(l, row).value| != dim) then None
         else
           var v := Vector(l, row).value;
           if e == |t| then Some(([v], |v|)) else After([v], Rows(l, next, brackets, |v|))
  {
  }

  ghost function Held<T(0)>(store: RowStore?<T>): seq<seq<T>>
    reads store
  {
    if store == null then [] else store.rows
  }

  ghost predicate StoreOk<T(0)>(store: RowStore?<T>, dim: nat)
    reads store, if store == null then {} else {store.store}
  {
    store != null ==> store.Valid() && store.dim == dim && dim > 0
  }

  /** A row of the right length goes into the store, which comes to be with the first one. */
  method AddRow<T(0)>(store0: RowStore?<T>, dim: nat, row: array<T>, n: nat) returns (ok: bool, store: RowStore<T>)
    requires StoreOk(store0, dim) && n == dim <= row.Length && dim > 0 && (store0 != null ==> row != store0.store)
    modifies store0, if store0 == null then {} else {store0.store}
    ensures store.Valid() && store.dim == dim
    ensures store0 != null ==> store == store0 && (store.store == old(store0.store) || fresh(store.store))
    ensures store0 == null ==> fresh(store) && fresh(store.store)
    ensures ok ==> store.rows == old(Held(store0)) + [row[..n]]
    ensures !ok ==> !MulOk(if store.capRows == 0 then 16 else store.capRows * 2, dim, 8)
  {
    hide MulOk, Flat, Rectangular;
    if store0 == null {
      store := new RowStore(dim);
    } else {
      store := store0;
    }
    ok := true;
    if store.nRows == store.capRows {
      ok := store.Grow();
    }
    if ok {
      store.Append(row, n);
    }
  }

  /** What a non-empty row text does to the store: the first row fixes the dimension. */
  method ParseRow<T(0)>(l: Lexer<T>, text: string, store0: RowStore?<T>, dim0: nat)
      returns (status: Status, store: RowStore?<T>, dim: nat)
    requires StoreOk(store0, dim0)
    modifies store0, if store0 == null then {} else {store0.store}
    ensures store != null ==>
      if store0 == null then fresh(store) && fresh(store.store)
      else store == store0 && (store.store == old(store0.store) || fresh(store.store))
    ensures status == Read ==>
      && store != null && StoreOk(store, dim) && Vector(l, text).Some?
      && dim == |Vector(l, text).value| && (dim0 == 0 || dim0 == dim)
      && Held(store) == old(Held(store0)) + [Vector(l, text).value]
    ensures status == Malformed ==> Vector(l, text).None? || (dim0 != 0 && |Vector(l, text).value| != dim0)
    ensures status == TooLarge ==>
      store != null && store.Valid() && !MulOk(if store.capRows == 0 then 16 else store.capRows * 2, store.dim, 8)
  {
    hide Vector, MulOk, Flat, Rectangular;
    store, dim := store0, dim0;
    var ok, row, n := ParseVector(l, text);
    if !ok { return Malformed, store, dim; }
    VectorNotEmpty(l, text);
    if dim == 0 { dim := n; }
    if n != dim { return Malformed, store, dim; }
    var fits;
    fits, store := AddRow(store, dim, row, n);
    status := if fits then Read else TooLarge;
  }

  /** `parse_corpus`: on success the store holds the rows of the text, one behind the other. */
  method ParseCorpus<T(0)>(l: Lexer<T>, src: string, expected: nat) returns (status: Status, store: RowStore?<T>, dim: nat)
    ensures store != null ==> fresh(store) && fresh(store.store)
    ensures status == Read ==> StoreOk(store, dim) && Parse(l, src, expected) == Some((Held(store), dim))
    ensures status == Malformed ==> Parse(l, src, expected) == None
    ensures status == TooLarge ==>
      store != null && store.Valid() && !MulOk(if store.capRows == 0 then 16 else store.capRows * 2, store.dim, 8)
  {
    hide Region, NoRows, Vector, TrimLead, TrimTrail, SegmentEnd, MulOk, Rows, Flat, Rectangular;
    store, dim := null, expected;
    var start, end, brackets := RegionAt(src);
    var none := NoRowsAt(src, start, end);
    if none { return Read, null, dim; }
    ghost var goal := Rows(l, src[start..end], brackets, expected);
    AfterRow([], [], goal);
    var more := true;
    while more
      invariant start <= end <= |src| && StoreOk(store, dim)
      invariant store != null ==> fresh(store) && fresh(store.store)
      invariant goal == After(Held(store), if more then Rows(l, src[start..end], brackets, dim) else Some(([], dim)))
      decreases if more then 1 + end - start else 0
    {
      ghost var t := src[start..end];
      ghost var seen := Held(store);
      var e := SegmentEndAt(src, start, end, brackets);
      Next(src, start, e, end);
      ghost var next := if e == end then "" else if src[e] == '[' then src[e..end] else src[e + 1..end];
      var a, b := RowAt(src, start, e);
      RowsAdvance(l, t, brackets, dim, e - start, src[a..b], next, seen);
      if a < b {
        status, store, dim := ParseRow(l, src[a..b], store, dim);
        if status != Read { return; }
      }
      if e == end {
        more := false;
      } else {
        if src[e] == '[' { NotStuck(t, brackets, e - start); }
        start := if src[e] == '[' then e else e + 1;
      }
    }
    assert Held(store) + [] == Held(store);
    status := Read;
  }

  /** One turn of the loop: what is known of the goal before a segment is known of it after. */
  lemma RowsAdvance<T>(l: Lexer<T>, t: string, brackets: bool, dim: nat, e: nat, row: string, next: string, seen: seq<seq<T>>)
    requires e == SegmentEnd(t, brackets, 0) && row == TrimLead(TrimTrail(t[..e]))
    requires next == if e == |t| then "" else if t[e] == '[' then t[e..] else t[e + 1..]
    ensures var rest := (d: nat) => if e == |t| then Some(([], d)) else Rows(l, next, brackets, d);
      After(seen, Rows(l, t, brackets, dim))
      == if row == "" then After(seen, rest(dim))
         else if Vector(l, row).None? || (dim != 0 && |Vector(l, row).value| != dim) then None
         else After(seen + [Vector(l, row).value], rest(|Vector(l, row).value|))
  {
    hide Rows, Vector, SegmentEnd, TrimLead, TrimTrail;
    RowsStep(l, t, brackets, dim);
    AfterRow(seen, [], Rows(l, next, brackets, dim));
    if row != "" && Vector(l, row).Some? {
      var v := Vector(l, row).value;
      AfterLast(seen, v, |v|);
      AfterRow(seen, v, Rows(l, next, brackets, |v|));
    }
  }

  lemma VectorNotEmpty<T>(l: Lexer<T>, src: string)
    ensures Vector(l, src).Some? ==> Vector(l, src).value != []
  {
  }

  lemma AfterLast<T>(seen: seq<seq<T>>, row: seq<T>, d: nat)
    ensures After(seen, Some(([row], d))) == After(seen + [row], Some(([], d)))
  {
    assert seen + [row] + [] == seen + [row];
  }

  lemma Next(src: string, start: nat, e: nat, end: nat)
    requires start <= e <= end <= |src|
    ensures src[start..end][..e - start] == src[start..e]
    ensures e < end ==>
      src[start..end][e - start] == src[e]
      && src[start..end][e - start..] == src[e..end] && src[start..end][e - start + 1..] == src[e + 1..end]
  {
  }

  /** A bracket that ends a segment does not open it. */
  lemma NotStuck(t: string, brackets: bool, e: nat)
    requires e < |t| && SegmentEnd(t, brackets, 0) == e && t[e] == '['
    ensures e > 0
  {
  }
}
