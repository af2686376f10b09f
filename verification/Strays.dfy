/** When `replaceStringParam` of pkg/config/internal.go slices out of range: on a value with a stray brace,
    over one replacement and over a list of them. */
module Strays {
  import opened Expansion
  import opened GoText
  import opened Replacement

  /** The brace at `e` has no opener before it that an earlier brace does not end, none right behind it,
      but one further on. */
  predicate Stray(s: string, e: nat) {
    && e < |s| && s[e] == '}' && !OpenerAt(s, e + 1)
    && (exists j | e + 1 < j < |s| :: OpenerAt(s, j))
    && (forall j | 0 <= j < e && OpenerAt(s, j) :: exists k | j < k < e :: s[k] == '}')
  }

  lemma OpenerShift(s: string, d: nat, j: int)
    requires d <= |s|
    ensures j >= 0 ==> (OpenerAt(s[d..], j) <==> OpenerAt(s, d + j))
    ensures 0 <= j < |s| - d ==> s[d..][j] == s[d + j]
  {
  }

  lemma StrayDown(s: string, d: nat, e: nat)
    requires 0 < d <= |s| && Stray(s, d + e)
    ensures Stray(s[d..], e)
  {
    hide OpenerAt;
    var t := s[d..];
    OpenerShift(s, d, e + 1);
    var m :| d + e + 1 < m < |s| && OpenerAt(s, m);
    OpenerShift(s, d, m - d);
    forall j | 0 <= j < e && OpenerAt(t, j) ensures exists k | j < k < e :: t[k] == '}' {
      OpenerShift(s, d, j);
      var k :| d + j < k < d + e && s[k] == '}';
      assert t[k - d] == '}';
    }
  }

  lemma StrayUp(s: string, d: nat, e: nat)
    requires 0 < d <= |s| && s[d - 1] == '}' && Stray(s[d..], e)
    ensures Stray(s, d + e)
  {
    var t := s[d..];
    OpenerShift(s, d, e + 1);
    var m :| e + 1 < m < |t| && OpenerAt(t, m);
    OpenerShift(s, d, m);
    forall j | 0 <= j < d + e && OpenerAt(s, j) ensures exists k | j < k < d + e :: s[k] == '}' {
      if j >= d {
        OpenerShift(s, d, j - d);
        var k :| j - d < k < e && t[k] == '}';
        assert s[d + k] == '}';
      } else {
        assert j != d - 1 && s[d - 1] == '}';
      }
    }
  }

  /** Behind the first brace nothing before it matters. */
  lemma StrayBehind(s: string, end: nat, e: nat)
    requires end < |s| && s[end] == '}'
    ensures Stray(s, end + 1 + e) <==> Stray(s[end + 1..], e)
  {
    hide Stray;
    if Stray(s, end + 1 + e) {
      StrayDown(s, end + 1, e);
    }
    if Stray(s[end + 1..], e) {
      StrayUp(s, end + 1, e);
    }
  }

  predicate HasStray(s: string) {
    exists e | 0 <= e < |s| :: Stray(s, e)
  }

  lemma StrayFirst(s: string, start: nat, end: nat)
    requires start < |s| && OpenerAt(s, start) && forall m | 0 <= m < start :: !OpenerAt(s, m)
    requires end < |s| && s[end] == '}' && forall m | 0 <= m < end :: s[m] != '}'
    ensures Stray(s, end) <==> end + 1 < start
  {
    assert start < end ==> !(exists k | start < k < end :: s[k] == '}');
  }

  /** The first brace not being stray, the others are those of the rest. */
  lemma StrayRest(s: string, start: nat, end: nat)
    requires start < |s| && OpenerAt(s, start) && forall m | 0 <= m < start :: !OpenerAt(s, m)
    requires end < |s| && s[end] == '}' && forall m | 0 <= m < end :: s[m] != '}'
    requires start <= end + 1
    ensures HasStray(s) <==> HasStray(s[end + 1..])
  {
    StrayFirst(s, start, end);
    var t := s[end + 1..];
    if HasStray(t) {
      var e: nat :| e < |t| && Stray(t, e);
      StrayBehind(s, end, e);
      assert Stray(s, end + 1 + e);
    }
    if HasStray(s) {
      var e: nat :| e < |s| && Stray(s, e);
      assert s[e] == '}' && e > end;
      StrayBehind(s, end, e - (end + 1));
    }
  }

  lemma FoldStops(s: string, start: nat, end: nat, sub: string, ref: string)
    requires start < |s| && OpenerAt(s, start) && forall m | 0 <= m < start :: !OpenerAt(s, m)
    requires end < |s| && s[end] == '}' && forall m | 0 <= m < end :: s[m] != '}'
    requires end + 1 < start
    ensures Fold(s, sub, ref) == SliceOutOfRange
  {
    hide ReplaceAllFrom, IndexOpener, IndexFrom;
    var k, e := IndexOpener(s, 0), IndexFrom(s, 0, '}');
    assert k == start && e == end;
  }

  lemma FoldEnds(s: string, sub: string, ref: string)
    requires !HasOpener(s) || '}' !in s
    ensures Fold(s, sub, ref) == Text(s) && !HasStray(s)
  {
    hide ReplaceAllFrom, IndexOpener, IndexFrom;
    var k, e := IndexOpener(s, 0), IndexFrom(s, 0, '}');
    assert k == -1 || e == -1;
  }

  lemma {:induction false} FoldFailsIff(s: string, sub: string, ref: string)
    ensures Fold(s, sub, ref) == SliceOutOfRange <==> HasStray(s)
    decreases |s|
  {
    hide ReplaceAllFrom, IndexOpener, IndexFrom, Stray, HasStray, Fold;
    if !HasOpener(s) || '}' !in s {
      FoldEnds(s, sub, ref);
    } else {
      var start, end := IndexOpener(s, 0), IndexFrom(s, 0, '}');
      if start <= end + 1 {
        StrayRest(s, start, end);
        FoldUnit(s, start, end, sub, ref);
        FoldFailsIff(s[end + 1..], sub, ref);
      } else {
        StrayFirst(s, start, end);
        FoldStops(s, start, end, sub, ref);
        assert HasStray(s) by { IsStray(s, end); }
      }
    }
  }

  lemma IsStray(s: string, e: nat)
    requires Stray(s, e)
    ensures HasStray(s)
  {
  }

  /** One replacement fails exactly on a value with a stray brace, whatever is replaced by what. */
  lemma FoldOneFailsIff(value: string, sub: string, key: string)
    ensures FoldOne(value, sub, key) == SliceOutOfRange <==> HasStray(value)
  {
    hide Fold;
    FoldFailsIff(value, sub, RefText(key));
    if !HasOpener(value) {
      FoldEnds(value, sub, RefText(key));
    }
  }

  // ----- no replacement makes a brace stray -----

  /** Up to the first brace with an opener before it, or right behind it, nothing matters. */
  lemma PastBrace(w: string, y: string)
    requires |w| > 0 && w[|w| - 1] == '}' && '}' !in w[..|w| - 1]
    requires HasOpener(w) || OpenerAt(y, 0)
    ensures HasStray(w + y) <==> HasStray(y)
  {
    hide HasStray, Stray;
    var s, end := w + y, |w| - 1;
    var start, m := IndexOpener(s, 0), |w|;
    if HasOpener(w) {
      var i: nat :| i < |w| && OpenerAt(w, i);
      m := i;
    }
    assert OpenerAt(s, m);
    assert 0 <= start <= m;
    forall i | 0 <= i < end ensures s[i] != '}' {
      assert s[i] == w[..|w| - 1][i];
    }
    StrayRest(s, start, end);
    assert s[end + 1..] == y;
  }

  /** Nor does text without a brace before an opener. */
  lemma PastPlain(w: string, y: string)
    requires '}' !in w && OpenerAt(y, 0)
    ensures HasStray(w + y) <==> HasStray(y)
  {
    hide Stray;
    var s := w + y;
    if '}' in y {
      var e := IndexFrom(y, 0, '}');
      var end := |w| + e;
      forall i | 0 <= i < end ensures s[i] != '}' {
      }
      assert OpenerAt(s, |w|);
      StrayRest(y, 0, e);
      StrayRest(s, IndexOpener(s, 0), end);
      assert s[end + 1..] == y[e + 1..];
    } else {
      FoldEnds(s, "", "");
      FoldEnds(y, "", "");
    }
  }

  lemma RefUnit(w: string, key: string)
    requires '}' !in w && '}' !in RefName(key)
    ensures var u := w + RefText(key); u[|u| - 1] == '}' && '}' !in u[..|u| - 1] && HasOpener(u)
    ensures OpenerAt(RefText(key), 0)
  {
    var u := w + RefText(key);
    assert u[..|u| - 1] == w + ("${" + RefName(key));
    assert OpenerAt(u, |w|);
  }

  lemma AfterMatch(w: string, key: string, more: string, y: string)
    requires '}' !in w && '}' !in RefName(key)
    ensures HasStray(w + (RefText(key) + more) + y) <==> HasStray("" + more + y)
  {
    hide HasStray, RefText, RefName, HasOpener;
    RefUnit(w, key);
    assert w + (RefText(key) + more) + y == w + RefText(key) + (more + y);
    assert "" + more == more;
    PastBrace(w + RefText(key), more + y);
  }

  lemma AfterBrace(w: string, y: string)
    requires '}' !in w && OpenerAt(y, 0)
    ensures HasStray(w + ['}'] + y) <==> HasStray(y)
  {
    hide HasStray;
    assert (w + ['}'])[..|w|] == w;
    PastBrace(w + ['}'], y);
  }

  /** Text whose only brace, if any, is its last character: folding it in front of an opener makes no
      brace stray. */
  lemma {:induction false} TextKeeps(w: string, t: string, i: nat, sub: string, key: string, y: string)
    requires i <= |t| && '}' !in w && (forall m | i <= m < |t| - 1 :: t[m] != '}')
    requires '}' !in RefName(key) && OpenerAt(y, 0)
    ensures HasStray(w + ReplaceAllFrom(t, i, sub, RefText(key)) + y) <==> HasStray(y)
    decreases |t| - i, 1
  {
    hide HasStray, RefText, RefName, HasOpener, OpenerAt, RuneEnd;
    var ref := RefText(key);
    if |sub| == 0 && i == |t| {
      AfterMatch(w, key, "", y);
      assert ref + "" == ref && "" + "" + y == y;
    } else if |sub| == 0 {
      RuneKeeps(w, t, i, sub, key, y);
    } else if i + |sub| <= |t| && t[i..i + |sub|] == sub {
      var k := i + |sub|;
      TextKeeps("", t, k, sub, key, y);
      AfterMatch(w, key, ReplaceAllFrom(t, k, sub, ref), y);
    } else if i == |t| {
      assert w + "" + y == w + y;
      PastPlain(w, y);
    } else if t[i] != '}' {
      var rest := ReplaceAllFrom(t, i + 1, sub, ref);
      TextKeeps(w + [t[i]], t, i + 1, sub, key, y);
      assert w + ([t[i]] + rest) == w + [t[i]] + rest;
    } else {
      assert ReplaceAllFrom(t, |t|, sub, ref) == "";
      assert w + (['}'] + "") == w + ['}'];
      AfterBrace(w, y);
    }
  }

  lemma {:induction false} RuneKeeps(w: string, t: string, i: nat, sub: string, key: string, y: string)
    requires |sub| == 0 && i < |t| && '}' !in w && (forall m | i <= m < |t| - 1 :: t[m] != '}')
    requires '}' !in RefName(key) && OpenerAt(y, 0)
    ensures HasStray(w + ReplaceAllFrom(t, i, sub, RefText(key)) + y) <==> HasStray(y)
    decreases |t| - i, 0
  {
    hide HasStray, RefText, RefName, HasOpener, RuneEnd;
    var ref, k := RefText(key), RuneEnd(t, i);
    var r, more := t[i..k], ReplaceAllFrom(t, k, sub, ref);
    assert ref + r + more == ref + (r + more);
    AfterMatch(w, key, r + more, y);
    assert "" + (r + more) + y == r + more + y;
    if '}' !in r {
      TextKeeps(r, t, k, sub, key, y);
    } else {
      var m :| 0 <= m < |r| && r[m] == '}';
      assert t[i + m] == '}' && i + m == |t| - 1 && k == |t|;
      assert more == ref && r == r[..m] + ['}'];
      assert '}' !in r[..m] by {
        forall n | 0 <= n < m ensures r[n] != '}' {
          assert r[n] == t[i + n];
        }
      }
      RefUnit("", key);
      assert r + more + y == r[..m] + ['}'] + (ref + y);
      assert OpenerAt(ref + y, 0);
      AfterBrace(r[..m], ref + y);
      AfterMatch("", key, "", y);
      assert "" + (ref + "") + y == ref + y && "" + "" + y == y;
    }
  }

  lemma TurnClean(s: string, start: nat, end: nat, sub: string, key: string, rest: string)
    requires start < |s| && OpenerAt(s, start) && forall m | 0 <= m < start :: !OpenerAt(s, m)
    requires end < |s| && s[end] == '}' && (forall m | 0 <= m < end :: s[m] != '}') && start <= end + 1
    requires '}' !in RefName(key) && !HasStray(rest) && (OpenerAt(s[end + 1..], 0) ==> OpenerAt(rest, 0))
    ensures var r := ReplaceAllFrom(s[..start], 0, sub, RefText(key)) + s[start..end + 1] + rest;
            !HasStray(r) && HasOpener(r) && (start == 0 ==> OpenerAt(r, 0))
  {
    hide HasStray, RefText, RefName, ReplaceAllFrom;
    var p, u, t := s[..start], s[start..end + 1], s[end + 1..];
    var x, y := ReplaceAllFrom(p, 0, sub, RefText(key)), u + rest;
    if start < end {
      assert u[..|u| - 1] == s[start..end];
      assert OpenerAt(u, 0) && OpenerAt(y, 0);
      PastBrace(u, rest);
    } else {
      assert t[0] == s[start] && t[1] == s[start + 1];
      assert OpenerAt(t, 0) && u == "" && y == rest;
    }
    TextKeeps("", p, 0, sub, key, y);
    assert "" + x + y == x + y == x + u + rest;
    assert OpenerAt(x + y, |x|);
    if start == 0 {
      StartsSame(p, sub, key, y);
    }
  }

  /** One replacement in a text with openers leaves no stray brace, and openers where they were. */
  lemma {:induction false} FoldClean(s: string, sub: string, key: string)
    requires '}' !in RefName(key) && Fold(s, sub, RefText(key)).Text?
    ensures var r := Fold(s, sub, RefText(key)).s;
            !HasStray(r) && (OpenerAt(s, 0) ==> OpenerAt(r, 0)) && (HasOpener(s) ==> HasOpener(r))
    decreases |s|
  {
    hide HasStray, Fold, RefText, RefName, IndexOpener, IndexFrom, ReplaceAllFrom;
    var ref := RefText(key);
    if !HasOpener(s) || '}' !in s {
      FoldEnds(s, sub, ref);
    } else {
      var start, end := IndexOpener(s, 0), IndexFrom(s, 0, '}');
      if start > end + 1 {
        FoldStops(s, start, end, sub, ref);
      } else {
        FoldUnit(s, start, end, sub, ref);
        FoldClean(s[end + 1..], sub, key);
        TurnClean(s, start, end, sub, key, Fold(s[end + 1..], sub, ref).s);
      }
    }
  }

  lemma StartsSame(p: string, sub: string, key: string, y: string)
    requires p == "" && OpenerAt(y, 0)
    ensures OpenerAt(ReplaceAllFrom(p, 0, sub, RefText(key)) + y, 0)
  {
    assert OpenerAt(RefText(key), 0);
  }

  /** A list of replacements fails on a value with an opener exactly when the first one does: when the
      value has a stray brace, whatever is replaced by what. */
  lemma {:induction false} KeysFailIff(value: string, keys: seq<string>, subs: string -> string)
    requires HasOpener(value) && forall key | key in keys :: '}' !in RefName(key)
    ensures FoldKeys(value, keys, subs) == SliceOutOfRange <==> keys != [] && HasStray(value)
    decreases |keys|
  {
    hide HasStray, Fold, RefText, RefName, HasOpener;
    if keys != [] {
      var key := keys[0];
      FoldOneFailsIff(value, subs(key), key);
      if !HasStray(value) {
        FoldClean(value, subs(key), key);
        KeysFailIff(FoldOne(value, subs(key), key).s, keys[1..], subs);
      }
    }
  }

  // ----- plain values -----

  /** A brace that stays, with text that stays directly behind it and a match further on. */
  predicate LeavesStray(ms: seq<Mark>) {
    exists i | 0 <= i < |ms| :: StrayMark(ms, i)
  }

  predicate StrayMark(ms: seq<Mark>, i: nat) {
    i + 1 < |ms| && ms[i] == Same(Char('}')) && ms[i + 1] != Folded && exists j | i < j < |ms| :: ms[j] == Folded
  }

  lemma FirstMark(ms: seq<Mark>)
    requires ms != []
    ensures LeavesStray(ms) <==> StrayMark(ms, 0) || LeavesStray(ms[1..])
  {
    var tail := ms[1..];
    forall i: nat ensures StrayMark(tail, i) <==> StrayMark(ms, i + 1) {
      if StrayMark(tail, i) {
        var j :| i < j < |tail| && tail[j] == Folded;
        assert ms[j + 1] == Folded;
      }
      if StrayMark(ms, i + 1) {
        var j :| i + 1 < j < |ms| && ms[j] == Folded;
        assert tail[j - 1] == Folded;
      }
    }
    if LeavesStray(ms) {
      var i: nat :| i < |ms| && StrayMark(ms, i);
      assert i > 0 ==> StrayMark(tail, i - 1);
    }
    if LeavesStray(tail) {
      var i: nat :| i < |tail| && StrayMark(tail, i);
      assert StrayMark(ms, i + 1);
    }
  }

  lemma {:induction false} SkipChars(w: string, rest: seq<Mark>)
    requires '}' !in w
    ensures LeavesStray(SameAll(CharsOf(w)) + rest) <==> LeavesStray(rest)
  {
    hide LeavesStray;
    if w == "" {
      assert SameAll(CharsOf(w)) + rest == rest;
    } else {
      var ms := SameAll(CharsOf(w)) + rest;
      assert ms[1..] == SameAll(CharsOf(w[1..])) + rest;
      SkipChars(w[1..], rest);
      FirstMark(ms);
    }
  }

  /** Marks of a plain text: characters and matches, no opener among them. */
  predicate Calm(ms: seq<Mark>) {
    && (forall i | 0 <= i < |ms| && ms[i].Same? :: ms[i].t.Char?)
    && (forall i | 0 <= i < |ms| - 1 :: !(ms[i] == Same(Char('$')) && ms[i + 1] == Same(Char('{'))))
  }

  /** The characters before the first brace or match. */
  lemma {:induction false} Lead(ms: seq<Mark>) returns (w: string, rest: seq<Mark>)
    requires Calm(ms)
    ensures ms == SameAll(CharsOf(w)) + rest && '}' !in w && !HasOpener(w) && Calm(rest)
    ensures rest != [] ==> rest[0] == Folded || rest[0] == Same(Char('}'))
  {
    if ms == [] || ms[0] == Folded || ms[0] == Same(Char('}')) {
      w, rest := "", ms;
    } else {
      var v;
      v, rest := Lead(ms[1..]);
      var c := ms[0].t.c;
      w := [c] + v;
      assert SameAll(CharsOf(w)) == [ms[0]] + SameAll(CharsOf(v));
      assert |v| > 0 ==> ms[1] == Same(Char(v[0]));
      forall i | 0 <= i < |w| ensures !OpenerAt(w, i) {
        if i > 0 {
          assert !OpenerAt(v, i - 1);
        }
      }
    }
  }

  function Spelled(ms: seq<Mark>, key: string): string {
    SourceOf(Folding(ms, key))
  }

  lemma SpelledLead(w: string, rest: seq<Mark>, key: string)
    ensures Spelled(SameAll(CharsOf(w)) + rest, key) == w + Spelled(rest, key)
  {
    FoldingConcat(SameAll(CharsOf(w)), rest, key);
    MarkSame(w, "", key);
  }

  lemma SpelledFirst(ms: seq<Mark>, key: string)
    requires ms != []
    ensures Spelled(ms, key) == (match ms[0] case Same(t) => Source(t) case Folded => RefText(key)) + Spelled(ms[1..], key)
  {
    assert Folding(ms, key)[1..] == Folding(ms[1..], key);
  }

  lemma {:induction false} SpelledOpener(ms: seq<Mark>, key: string) returns (m: nat)
    requires Calm(ms) && Folded in ms
    ensures OpenerAt(Spelled(ms, key), m) && (ms[0] != Folded ==> m > 0)
  {
    SpelledFirst(ms, key);
    if ms[0] == Folded {
      m := 0;
      assert OpenerAt(RefText(key), 0);
    } else {
      var k := SpelledOpener(ms[1..], key);
      m := k + 1;
    }
  }

  /** In the folded text a brace is stray exactly when the marks leave one. */
  lemma {:induction false} MarksStray(ms: seq<Mark>, key: string)
    requires Calm(ms) && '}' !in RefName(key)
    ensures HasStray(Spelled(ms, key)) <==> LeavesStray(ms)
    decreases |ms|
  {
    hide HasStray, RefText, RefName, HasOpener, Spelled, LeavesStray;
    var w, rest := Lead(ms);
    SpelledLead(w, rest, key);
    if rest == [] {
      NoMarksNoStray(w, ms, key);
    } else {
      var tail := rest[1..];
      SpelledFirst(rest, key);
      SkipChars(w, rest);
      FirstMark(rest);
      if rest[0] == Folded {
        MarksStray(tail, key);
        RefUnit(w, key);
        assert w + (RefText(key) + Spelled(tail, key)) == w + RefText(key) + Spelled(tail, key);
        PastBrace(w + RefText(key), Spelled(tail, key));
      } else if Folded !in tail {
        PlainBrace(w, rest, key);
      } else if tail[0] == Folded {
        MarksStray(tail, key);
        var m := SpelledOpener(tail, key);
        SpelledFirst(tail, key);
        RefUnit("", key);
        assert w + ("}" + Spelled(tail, key)) == w + "}" + Spelled(tail, key);
        assert (w + "}")[..|w|] == w;
        PastBrace(w + "}", Spelled(tail, key));
      } else {
        LooseBrace(w, tail, key);
        assert w + ("}" + Spelled(tail, key)) == w + "}" + Spelled(tail, key);
        assert StrayMark(rest, 0) by { IsStrayMark(rest); }
      }
    }
  }

  lemma IsStrayMark(rest: seq<Mark>)
    requires |rest| > 1 && rest[0] == Same(Char('}')) && rest[1] != Folded && Folded in rest[1..]
    ensures StrayMark(rest, 0)
  {
    var j :| 0 <= j < |rest[1..]| && rest[1..][j] == Folded;
    assert rest[j + 1] == Folded;
  }

  lemma NoMarksNoStray(w: string, ms: seq<Mark>, key: string)
    requires ms == SameAll(CharsOf(w)) && '}' !in w
    ensures !HasStray(w + Spelled([], key)) && !LeavesStray(ms)
  {
    FoldEnds(w, "", "");
    assert w + "" == w;
  }

  lemma CalmPlain(ms: seq<Mark>) returns (x: string)
    requires Calm(ms) && Folded !in ms
    ensures ms == SameAll(CharsOf(x)) && !HasOpener(x)
  {
    forall i | 0 <= i < |ms| ensures ms[i].Same? && ms[i].t.Char? {
      assert ms[i] in ms;
    }
    x := seq(|ms|, i requires 0 <= i < |ms| => ms[i].t.c);
    forall i | 0 <= i < |x| ensures !OpenerAt(x, i) {
      if i + 1 < |x| {
        assert ms[i] == Same(Char(x[i])) && ms[i + 1] == Same(Char(x[i + 1]));
      }
    }
  }

  lemma PlainBrace(w: string, rest: seq<Mark>, key: string)
    requires Calm(rest) && rest != [] && rest[0] == Same(Char('}')) && Folded !in rest[1..] && !HasOpener(w)
    ensures !HasStray(w + Spelled(rest, key)) && !LeavesStray(rest)
  {
    assert Folded !in rest by {
      assert rest == [rest[0]] + rest[1..];
    }
    var x := CalmPlain(rest);
    SpelledLead(x, [], key);
    assert SameAll(CharsOf(x)) + [] == rest && x + "" == x;
    var s := w + x;
    forall i | 0 <= i < |s| ensures !OpenerAt(s, i) {
      assert !OpenerAt(w, i) && !OpenerAt(x, i - |w|);
      assert rest[0] == Same(Char(x[0]));
    }
    FoldEnds(s, "", "");
  }

  lemma LooseBrace(w: string, tail: seq<Mark>, key: string)
    requires Calm(tail) && tail != [] && tail[0] != Folded && Folded in tail
    requires '}' !in w && !HasOpener(w)
    ensures HasStray(w + "}" + Spelled(tail, key))
  {
    hide RefText;
    var y := Spelled(tail, key);
    var s, e := w + "}" + y, |w|;
    var m := SpelledOpener(tail, key);
    assert OpenerAt(s, e + 1 + m);
    assert !OpenerAt(s, e + 1) by {
      NoOpenerFirst(tail, key);
      assert s[e + 1..] == y;
    }
    forall j | 0 <= j < e ensures !OpenerAt(s, j) {
      assert !OpenerAt(w, j);
    }
    assert Stray(s, e);
  }

  lemma NoOpenerFirst(tail: seq<Mark>, key: string)
    requires Calm(tail) && tail != [] && tail[0] != Folded
    ensures !OpenerAt(Spelled(tail, key), 0)
  {
    SpelledFirst(tail, key);
    if |tail| > 1 {
      SpelledFirst(tail[1..], key);
      assert OpenerAt(RefText(key), 0);
    }
  }

  lemma MarkTextCalm(value: string, sub: string, key: string)
    requires !HasOpener(value)
    ensures Calm(MarkText(value, 0, sub))
    ensures FoldOne(value, sub, key) == Text(Spelled(MarkText(value, 0, sub), key))
  {
    hide Before, MarkText, SourceOf, Folding;
    var ms := MarkText(value, 0, sub);
    assert value[0..] == value;
    MarkTextMeaning(value, 0, sub, key);
    forall i | 0 <= i < |ms| && ms[i].Same?
      ensures ms[i].t.Char? && (i + 1 < |ms| ==> !(ms[i] == Same(Char('$')) && ms[i + 1] == Same(Char('{'))))
    {
      var k := BeforeHas(ms, sub, i);
      assert !OpenerAt(value, k);
    }
  }

  /** A replacement that follows one in a plain value fails exactly when the first one kept a brace with
      text that it kept directly behind it and a match further on. */
  lemma NextFailsIff(value: string, sub: string, key: string, sub': string, key': string)
    requires !HasOpener(value) && '}' !in RefName(key)
    ensures FoldOne(FoldOne(value, sub, key).s, sub', key') == SliceOutOfRange <==> LeavesStray(MarkText(value, 0, sub))
  {
    hide MarkText, Spelled, FoldOne, HasStray, LeavesStray;
    MarkTextCalm(value, sub, key);
    MarksStray(MarkText(value, 0, sub), key);
    FoldOneFailsIff(FoldOne(value, sub, key).s, sub', key');
  }

  /** The first replacement that matches leaves a stray brace, and another one follows. */
  predicate PlainFails(value: string, keys: seq<string>, subs: string -> string)
    decreases |keys|
  {
    && |keys| > 1
    && var ms := MarkText(value, 0, subs(keys[0]));
       if Folded in ms then LeavesStray(ms) else PlainFails(value, keys[1..], subs)
  }

  lemma NoMatch(value: string, sub: string, key: string)
    requires !HasOpener(value) && Folded !in MarkText(value, 0, sub)
    ensures FoldOne(value, sub, key) == Text(value)
  {
    hide MarkText;
    var ms := MarkText(value, 0, sub);
    MarkTextCalm(value, sub, key);
    var x := CalmPlain(ms);
    SpelledLead(x, [], key);
    assert SameAll(CharsOf(x)) + [] == ms && x + "" == x;
    assert value[0..] == value;
    MarkTextMeaning(value, 0, sub, key);
    BeforeSame(CharsOf(x), sub);
    SameChars(x, value);
  }

  lemma SameChars(a: string, b: string)
    requires CharsOf(a) == CharsOf(b)
    ensures a == b
  {
    forall i | 0 <= i < |a| ensures a[i] == b[i] {
      assert CharsOf(a)[i] == CharsOf(b)[i];
    }
  }

  lemma MatchOpens(value: string, sub: string, key: string)
    requires !HasOpener(value) && Folded in MarkText(value, 0, sub)
    ensures HasOpener(FoldOne(value, sub, key).s)
  {
    hide MarkText, Spelled;
    MarkTextCalm(value, sub, key);
    var m := SpelledOpener(MarkText(value, 0, sub), key);
  }

  /** When a list of replacements fails on a plain value. */
  lemma {:induction false} PlainKeysFailIff(value: string, keys: seq<string>, subs: string -> string)
    requires !HasOpener(value) && forall key | key in keys :: '}' !in RefName(key)
    ensures FoldKeys(value, keys, subs) == SliceOutOfRange <==> PlainFails(value, keys, subs)
    decreases |keys|
  {
    hide MarkText, HasStray, LeavesStray, RefName, HasOpener, Fold;
    if keys != [] {
      var key, sub := keys[0], subs(keys[0]);
      if Folded in MarkText(value, 0, sub) {
        MatchOpens(value, sub, key);
        KeysFailIff(FoldOne(value, sub, key).s, keys[1..], subs);
        NextFailsIff(value, sub, key, "", "");
        FoldOneFailsIff(FoldOne(value, sub, key).s, "", "");
      } else {
        NoMatch(value, sub, key);
        PlainKeysFailIff(value, keys[1..], subs);
      }
    }
  }
}
