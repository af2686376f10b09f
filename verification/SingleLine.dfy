/** Single line strings with `$(name)` references: `NewSingleLineString` and the `String` methods of
    pkg/geneos/conftypes.go. */
module SingleLine {

  datatype Part = Data(data: string) | Var(name: string)

  // ----- parsing -----

  predicate OpenerAt(s: string, i: nat) {
    i + 1 < |s| && s[i] == '$' && s[i + 1] == '('
  }

  /** The first `$(` from index i on, or the length of `s`. */
  function IndexOpen(s: string, i: nat): (j: nat)
    requires i <= |s|
    ensures i <= j <= |s| && (j < |s| ==> OpenerAt(s, j))
    decreases |s| - i
  {
    if i + 1 >= |s| then |s| else if OpenerAt(s, i) then i else IndexOpen(s, i + 1)
  }

  /** The first `)` from index i on, or the length of `s`. */
  function IndexClose(s: string, i: nat): (j: nat)
    requires i <= |s|
    ensures i <= j <= |s| && (j < |s| ==> s[j] == ')')
    decreases |s| - i
  {
    if i == |s| then |s| else if s[i] == ')' then i else IndexClose(s, i + 1)
  }

  lemma {:induction false} NoneBefore(s: string, i: nat)
    requires i <= |s|
    ensures forall k | i <= k < IndexOpen(s, i) :: !OpenerAt(s, k)
    decreases |s| - i
  {
    if i + 1 < |s| && !OpenerAt(s, i) {
      NoneBefore(s, i + 1);
    }
  }

  lemma {:induction false} NoCloseBefore(s: string, i: nat)
    requires i <= |s|
    ensures forall k | i <= k < IndexClose(s, i) :: s[k] != ')'
    decreases |s| - i
  {
    if i < |s| && s[i] != ')' {
      NoCloseBefore(s, i + 1);
    }
  }

  function Parse(s: string, i: nat): seq<Part>
    requires i <= |s|
    decreases |s| - i, 1
  {
    if i == |s| then []
    else
      var st := IndexOpen(s, i);
      if st == |s| then [Data(s[i..])]
      else (if st > i then [Data(s[i..st])] else []) + ParseReference(s, st)
  }

  function ParseReference(s: string, st: nat): seq<Part>
    requires OpenerAt(s, st)
    decreases |s| - st, 0
  {
    var en := IndexClose(s, st + 2);
    if en == |s| then [Var(s[st + 2..])] else [Var(s[st + 2..en])] + Parse(s, en + 1)
  }

  lemma ParseData(s: string, i: nat)
    requires i < |s| && IndexOpen(s, i) == |s|
    ensures Parse(s, i) == [Data(s[i..])]
  {
  }

  lemma ParseVar(s: string, i: nat)
    requires OpenerAt(s, i)
    ensures Parse(s, i) == ParseReference(s, i)
  {
    hide IndexClose, ParseReference;
    assert IndexOpen(s, i) == i;
  }

  lemma ParseSkip(s: string, i: nat)
    requires i < |s| && i < IndexOpen(s, i) < |s|
    ensures Parse(s, i) == [Data(s[i..IndexOpen(s, i)])] + Parse(s, IndexOpen(s, i))
  {
    hide IndexClose, IndexOpen, ParseReference;
    assert IndexOpen(s, IndexOpen(s, i)) == IndexOpen(s, i) by { Again(s, IndexOpen(s, i)); }
  }

  lemma Again(s: string, i: nat)
    requires OpenerAt(s, i)
    ensures IndexOpen(s, i) == i
  {
  }

  lemma Associative(a: seq<Part>, b: seq<Part>, c: seq<Part>)
    ensures a + b + c == a + (b + c)
  {
  }

  method NewSingleLineString(s: string) returns (parts: seq<Part>)
    ensures parts == Parse(s, 0)
  {
    hide IndexOpen, IndexClose, Parse;
    parts := [];
    var i := 0;
    while i < |s|
      invariant 0 <= i <= |s|
      invariant parts + Parse(s, i) == Parse(s, 0)
    {
      var st := IndexOpen(s, i);
      if st == |s| {
        ParseData(s, i);
        return parts + [Data(s[i..])];
      }
      if st > i {
        ParseSkip(s, i);
        Associative(parts, [Data(s[i..st])], Parse(s, st));
        parts := parts + [Data(s[i..st])];
      }
      var en := IndexClose(s, st + 2);
      ParseVar(s, st);
      if en == |s| {
        return parts + [Var(s[st + 2..])];
      }
      Associative(parts, [Var(s[st + 2..en])], Parse(s, en + 1));
      parts := parts + [Var(s[st + 2..en])];
      i := en + 1;
    }
    assert Parse(s, |s|) == [] by { ParseNothing(s); }
  }

  lemma ParseNothing(s: string)
    ensures Parse(s, |s|) == []
  {
  }

  // ----- printing -----

  function Text(p: Part): string {
    match p
    case Data(d) => d
    case Var(v) => "$(" + v + ")"
  }

  function Print(ps: seq<Part>): string {
    if ps == [] then "" else Text(ps[0]) + Print(ps[1..])
  }

  lemma PrintCons(p: Part, ps: seq<Part>)
    ensures Print([p] + ps) == Text(p) + Print(ps)
    ensures Print([p]) == Text(p)
  {
    assert ([p] + ps)[1..] == ps;
    assert [p][1..] == [];
  }

  method String(ps: seq<Part>) returns (out: string)
    ensures out == Print(ps)
  {
    out := "";
    for i := 0 to |ps|
      invariant out + Print(ps[i..]) == Print(ps)
    {
      out := out + Text(ps[i]);
    }
  }

  // ----- printing what was parsed -----

  /** Some `$(` from index i on has no `)` after it. */
  ghost predicate Unterminated(s: string, i: nat) {
    exists j :: i <= j && Open(s, j)
  }

  ghost predicate Open(s: string, j: nat) {
    OpenerAt(s, j) && forall k | j + 2 <= k < |s| :: s[k] != ')'
  }

  /** Whether the rest is unterminated is settled behind a closed reference. */
  lemma SameEnd(s: string, st: nat, en: nat)
    requires st + 2 <= en < |s| && s[en] == ')'
    ensures Unterminated(s, st) <==> Unterminated(s, en + 1)
  {
    if j :| st <= j && Open(s, j) {
      assert j > en;
    }
  }

  lemma SkipSame(s: string, i: nat)
    requires i <= |s|
    ensures Unterminated(s, i) <==> Unterminated(s, IndexOpen(s, i))
  {
    hide IndexOpen;
    NoneBefore(s, i);
    if j :| i <= j && Open(s, j) {
      assert j >= IndexOpen(s, i);
    }
  }

  function Close(open: bool): string {
    if open then ")" else ""
  }

  lemma Regroup(open: string, name: string, close: string, rest: string, tail: string)
    ensures open + name + close + (rest + tail) == open + (name + (close + rest)) + tail
  {
  }

  lemma ReferenceText(s: string, i: nat, en: nat, tail: string)
    requires OpenerAt(s, i) && i + 2 <= en < |s| && s[en] == ')'
    ensures Text(Var(s[i + 2..en])) + (s[en + 1..] + tail) == s[i..] + tail
  {
    Regroup("$(", s[i + 2..en], ")", s[en + 1..], tail);
    assert s[i..] == "$(" + s[i + 2..];
    assert s[i + 2..] == s[i + 2..en] + s[en..];
    assert s[en..] == ")" + s[en + 1..];
  }

  lemma LastText(s: string, i: nat)
    requires OpenerAt(s, i)
    ensures Text(Var(s[i + 2..])) == s[i..] + ")"
  {
    assert s[i..] == "$(" + s[i + 2..];
  }

  lemma IsUnterminated(s: string, i: nat)
    requires Open(s, i)
    ensures Unterminated(s, i)
  {
  }

  lemma {:induction false} PrintVarFrom(s: string, i: nat)
    requires OpenerAt(s, i)
    ensures Print(Parse(s, i)) == s[i..] + Close(Unterminated(s, i))
    decreases |s| - i, 0
  {
    hide IndexOpen, IndexClose, Parse, Print, Unterminated, Text;
    ParseVar(s, i);
    NoCloseBefore(s, i + 2);
    var en := IndexClose(s, i + 2);
    if en < |s| {
      PrintParseFrom(s, en + 1);
      SameEnd(s, i, en);
      PrintCons(Var(s[i + 2..en]), Parse(s, en + 1));
      ReferenceText(s, i, en, Close(Unterminated(s, i)));
    } else {
      assert Open(s, i);
      IsUnterminated(s, i);
      PrintCons(Var(s[i + 2..]), []);
      LastText(s, i);
    }
  }

  /** Printing what was parsed from index i on gives the rest of the string, closed if it was not. */
  lemma {:induction false} PrintParseFrom(s: string, i: nat)
    requires i <= |s|
    ensures Print(Parse(s, i)) == s[i..] + Close(Unterminated(s, i))
    decreases |s| - i, 1
  {
    hide IndexOpen, IndexClose, Parse, Print;
    var st := IndexOpen(s, i);
    SkipSame(s, i);
    if i == |s| {
      ParseNothing(s);
      assert Print([]) == "" by { PrintNothing(); }
    } else if st == |s| {
      ParseData(s, i);
      PrintCons(Data(s[i..]), []);
    } else {
      PrintVarFrom(s, st);
      if i < st {
        ParseSkip(s, i);
        PrintCons(Data(s[i..st]), Parse(s, st));
        assert s[i..] == s[i..st] + s[st..];
      }
    }
  }

  lemma PrintNothing()
    ensures Print([]) == ""
  {
  }

  /** Printing what was parsed gives the string back, with a `)` added exactly when a `$(` in it has
      no `)` after it. */
  lemma PrintParse(s: string)
    ensures Print(Parse(s, 0)) == s + Close(Unterminated(s, 0))
  {
    PrintParseFrom(s, 0);
    assert s[0..] == s;
  }

  // ----- parsing what was printed -----

  ghost predicate PartOk(p: Part) {
    match p
    case Data(d) => d != "" && forall k :: !OpenerAt(d, k)
    case Var(v) => ')' !in v
  }

  /** Data is not empty, holds no `$(` and does not follow data; names hold no `)`. */
  ghost predicate Canonical(ps: seq<Part>) {
    && (forall i | 0 <= i < |ps| :: PartOk(ps[i]))
    && (forall i | 0 <= i < |ps| - 1 :: ps[i].Data? ==> ps[i + 1].Var?)
  }

  lemma {:induction false} ShiftOpen(p: string, s: string, i: nat)
    requires i <= |s|
    ensures IndexOpen(p + s, |p| + i) == |p| + IndexOpen(s, i)
    decreases |s| - i
  {
    if i + 1 < |s| && !OpenerAt(s, i) {
      ShiftOpen(p, s, i + 1);
    }
  }

  lemma {:induction false} ShiftClose(p: string, s: string, i: nat)
    requires i <= |s|
    ensures IndexClose(p + s, |p| + i) == |p| + IndexClose(s, i)
    decreases |s| - i
  {
    if i < |s| && s[i] != ')' {
      ShiftClose(p, s, i + 1);
    }
  }

  /** What is parsed does not depend on what lies before. */
  lemma {:induction false} ShiftParse(p: string, s: string, i: nat)
    requires i <= |s|
    ensures Parse(p + s, |p| + i) == Parse(s, i)
    decreases |s| - i, 1
  {
    hide IndexOpen, IndexClose, Parse, ParseReference;
    ShiftOpen(p, s, i);
    var st := IndexOpen(s, i);
    if i == |s| {
      ParseNothing(s);
      ParseNothing(p + s);
    } else if st == |s| {
      ParseData(s, i);
      ParseData(p + s, |p| + i);
      assert (p + s)[|p| + i..] == s[i..];
    } else {
      ShiftReference(p, s, st);
      ParseVar(s, st);
      ParseVar(p + s, |p| + st);
      if st > i {
        ParseSkip(s, i);
        ParseSkip(p + s, |p| + i);
        assert (p + s)[|p| + i..|p| + st] == s[i..st];
      }
    }
  }

  lemma {:induction false} ShiftReference(p: string, s: string, st: nat)
    requires OpenerAt(s, st)
    ensures OpenerAt(p + s, |p| + st) && ParseReference(p + s, |p| + st) == ParseReference(s, st)
    decreases |s| - st, 0
  {
    hide IndexOpen, IndexClose, Parse;
    ShiftClose(p, s, st + 2);
    var en := IndexClose(s, st + 2);
    assert (p + s)[|p| + (st + 2)..|p| + en] == s[st + 2..en];
    assert (p + s)[|p| + (st + 2)..] == s[st + 2..];
    if en < |s| {
      ShiftParse(p, s, en + 1);
    }
  }

  lemma {:induction false} FirstClose(s: string, i: nat, n: nat)
    requires i <= n < |s| && s[n] == ')' && forall k | i <= k < n :: s[k] != ')'
    ensures IndexClose(s, i) == n
    decreases n - i
  {
    if i < n {
      FirstClose(s, i + 1, n);
    }
  }

  lemma {:induction false} FirstOpen(s: string, i: nat, n: nat)
    requires i <= n <= |s| && (n < |s| ==> OpenerAt(s, n)) && forall k | i <= k < n :: !OpenerAt(s, k)
    ensures IndexOpen(s, i) == n
    decreases n - i
  {
    if i < n && i + 1 < |s| {
      FirstOpen(s, i + 1, n);
    }
  }

  lemma ParseVarThen(v: string, rest: string)
    requires ')' !in v
    ensures Parse("$(" + v + ")" + rest, 0) == [Var(v)] + Parse(rest, 0)
  {
    hide IndexOpen, IndexClose, Parse;
    var p := "$(" + v + ")";
    var s := p + rest;
    forall k | 2 <= k < 2 + |v| ensures s[k] != ')' {
      assert s[k] == v[k - 2];
    }
    FirstClose(s, 2, 2 + |v|);
    ParseVar(s, 0);
    ShiftParse(p, rest, 0);
    assert s[2..2 + |v|] == v;
  }

  lemma ParseDataThen(d: string, rest: string)
    requires PartOk(Data(d)) && (rest == "" || OpenerAt(rest, 0))
    ensures Parse(d + rest, 0) == [Data(d)] + Parse(rest, 0)
  {
    hide IndexOpen, IndexClose, Parse;
    var s, n := d + rest, |d|;
    forall k | 0 <= k < n ensures !OpenerAt(s, k) {
      assert !OpenerAt(d, k);
      assert k + 1 == n && n < |s| ==> s[k + 1] == rest[0];
    }
    FirstOpen(s, 0, n);
    assert s[..n] == d;
    if rest == "" {
      ParseData(s, 0);
      ParseNothing(rest);
      assert s == d && s[0..] == s;
    } else {
      ParseSkip(s, 0);
      ShiftParse(d, rest, 0);
    }
  }

  lemma {:induction false} ParsePrint(ps: seq<Part>)
    requires Canonical(ps)
    ensures Parse(Print(ps), 0) == ps
  {
    hide Parse, PartOk;
    if ps == [] {
      ParseNothing("");
    } else {
      var rest := Print(ps[1..]);
      ParsePrint(ps[1..]);
      assert ps == [ps[0]] + ps[1..];
      match ps[0]
      case Var(v) =>
        assert ')' !in v by { assert PartOk(ps[0]); NameOk(v); }
        ParseVarThen(v, rest);
      case Data(d) =>
        if |ps| > 1 {
          assert ps[1..][0] == ps[1] && ps[1].Var?;
        }
        ParseDataThen(d, rest);
    }
  }

  lemma NameOk(v: string)
    requires PartOk(Var(v))
    ensures ')' !in v
  {
  }

  /** Whatever is parsed is canonical, and begins with data only if no reference begins there. */
  lemma {:induction false} ParseCanonical(s: string, i: nat)
    requires i <= |s|
    ensures Canonical(Parse(s, i))
    ensures Parse(s, i) != [] && OpenerAt(s, i) ==> Parse(s, i)[0].Var?
    decreases |s| - i
  {
    hide IndexOpen, IndexClose, PartOk, Parse;
    if i == |s| {
      ParseNothing(s);
    } else {
      var st := IndexOpen(s, i);
      NoneBefore(s, i);
      if st > i {
        SliceOk(s, i, st);
      }
      if st == |s| {
        ParseData(s, i);
        assert s[i..] == s[i..st];
      } else if st > i {
        ParseSkip(s, i);
        ParseCanonical(s, st);
        assert Parse(s, st) != [] by { ParseVar(s, st); NotNothing(s, st); }
      } else {
        ParseVar(s, i);
        NoCloseBefore(s, i + 2);
        var en := IndexClose(s, i + 2);
        assert PartOk(Var(s[i + 2..en])) by { NameSliceOk(s, i + 2, en); }
        if en < |s| {
          ParseCanonical(s, en + 1);
        } else {
          assert s[i + 2..] == s[i + 2..en];
        }
      }
    }
  }

  lemma NotNothing(s: string, st: nat)
    requires OpenerAt(s, st)
    ensures ParseReference(s, st) != []
  {
  }

  lemma SliceOk(s: string, i: nat, st: nat)
    requires i < st <= |s| && forall k | i <= k < st :: !OpenerAt(s, k)
    ensures PartOk(Data(s[i..st]))
  {
    forall k: nat ensures !OpenerAt(s[i..st], k) {
      assert i + k < st ==> !OpenerAt(s, i + k);
    }
  }

  lemma NameSliceOk(s: string, i: nat, en: nat)
    requires i <= en <= |s| && forall k | i <= k < en :: s[k] != ')'
    ensures PartOk(Var(s[i..en]))
  {
  }

  /** A list of parts is what its print parses to exactly when it is canonical. */
  lemma ParsePrintIff(ps: seq<Part>)
    ensures Parse(Print(ps), 0) == ps <==> Canonical(ps)
  {
    ParseCanonical(Print(ps), 0);
    if Canonical(ps) {
      ParsePrint(ps);
    }
  }
}
