/** When `replaceStringParam` of pkg/config/internal.go keeps the meaning of a value: what expanding it gives
    before and after the rewrite. */
module Preservation {
  import opened Expansion
  import opened GoText
  import opened Replacement
  import opened Strays

  // ----- legal token lists -----

  /** A reference as it comes out of a text. */
  predicate Proper(t: Token) {
    t.Ref? ==> t.name != "" && Balanced(t.name)
  }

  /** A proper token other than a plain brace. */
  predicate Quiet(t: Token) {
    Proper(t) && t != Char('}')
  }

  predicate AllProper(ts: seq<Token>) {
    forall i | 0 <= i < |ts| :: Proper(ts[i])
  }

  predicate AllQuiet(ts: seq<Token>) {
    forall i | 0 <= i < |ts| :: Quiet(ts[i])
  }

  /** No plain brace behind an opener that is kept. */
  predicate KeptQuiet(ts: seq<Token>) {
    forall i, j | 0 <= i < j < |ts| :: ts[i] == Kept ==> ts[j] != Char('}')
  }

  /** A stretch that closes what it opens does not matter to a scan that has more braces open. */
  lemma {:induction false} SkipClosed(s: string, i: nat, k: nat, st: Scan, extra: nat)
    requires i <= k <= |s| && Closed(s[i..k], st) && extra > 0
    ensures Closing(s, i, Scan(st.depth + extra, st.hidden)) == Closing(s, k, Scan(extra, false))
    decreases k - i
  {
    if i < k {
      assert s[i..k][1..] == s[i + 1..k];
      SkipClosed(s, i + 1, k, Next(st, s[i]), extra);
    }
  }

  /** Scanning over `${` opens one more brace. */
  lemma SkipOpener(s: string, j: nat, st: Scan)
    requires OpenerAt(s, j)
    ensures Closing(s, j, st) == Closing(s, j + 2, Scan(st.depth + 1, false))
  {
    assert Closing(s, j, st) == Closing(s, j + 1, Scan(st.depth, false));
  }

  lemma SkipRef(s: string, j: nat, k: nat, st: Scan)
    requires OpenerAt(s, j) && j + 2 <= k < |s| && s[k] == '}' && Balanced(s[j + 2..k])
    ensures Closing(s, j, st) == Closing(s, k + 1, Scan(st.depth, false))
  {
    SkipOpener(s, j, st);
    SkipClosed(s, j + 2, k, START, st.depth + 1);
  }

  /** Scanning over a token other than a plain brace never closes anything that was open before it. */
  lemma SkipToken(s: string, j: nat, t: Token, st: Scan) returns (st': Scan)
    requires Quiet(t) && j + |Source(t)| <= |s| && Source(t) == s[j..j + |Source(t)|]
    ensures Closing(s, j, st) == Closing(s, j + |Source(t)|, st')
  {
    hide Closed;
    var u := Source(t);
    SliceAt(s, j, u);
    assert s[j + 0] == u[0];
    match t
    case Char(c) =>
      st' := Next(st, s[j]);
    case Kept =>
      assert s[j + 1] == u[1];
      SkipOpener(s, j, st);
      st' := Scan(st.depth + 1, false);
    case Eaten =>
      assert s[j + 1] == u[1] && s[j + 2] == u[2];
      EmptyIsBalanced();
      assert s[j + 2..j + 2] == "";
      SkipRef(s, j, j + 2, st);
      st' := Scan(st.depth, false);
    case Ref(name) =>
      var k := j + |name| + 2;
      assert s[j + 1] == u[1] && s[j + (|name| + 2)] == u[|name| + 2];
      assert u[2..|name| + 2] == name;
      assert s[j..k + 1] == u && s[j + 2..k] == s[j..k + 1][2..|name| + 2];
      SkipRef(s, j, k, st);
      st' := Scan(st.depth, false);
  }

  lemma EmptyIsBalanced()
    ensures Balanced("")
  {
  }

  lemma {:induction false} QuietNeverCloses(s: string, j: nat, ts: seq<Token>, st: Scan)
    requires j <= |s| && s[j..] == SourceOf(ts) && AllQuiet(ts)
    ensures Closing(s, j, st) == -1
    decreases |ts|
  {
    hide Source, Quiet;
    if |ts| > 0 {
      var u, rest := Source(ts[0]), SourceOf(ts[1..]);
      var k := j + |u|;
      assert s[j..] == u + rest;
      assert s[j..k] == (u + rest)[..|u|] == u;
      assert s[k..] == (u + rest)[|u|..] == rest;
      var st' := SkipToken(s, j, ts[0], st);
      QuietNeverCloses(s, k, ts[1..], st');
    }
  }

  /** A list of proper tokens without seams, with no plain brace behind a kept opener, is a legal split. */
  lemma {:induction false} SeamlessGrammatical(ts: seq<Token>)
    requires Seamless(ts) && AllProper(ts) && KeptQuiet(ts)
    ensures Grammatical(ts)
  {
    if |ts| > 0 {
      var rest := SourceOf(ts[1..]);
      assert forall i | 0 <= i < |ts| - 1 :: ts[1..][i] == ts[i + 1];
      SeamlessGrammatical(ts[1..]);
      assert Proper(ts[0]);
      match ts[0]
      case Kept =>
        assert rest[0..] == rest;
        QuietNeverCloses(rest, 0, ts[1..], START);
        NeverClosesIff(rest, 0);
      case Char(c) =>
        if |ts| > 1 {
          assert rest == Source(ts[1]) + SourceOf(ts[1..][1..]);
          assert rest[0] == Source(ts[1])[0];
        }
      case _ =>
    }
  }

  lemma {:induction false} TokensProper(s: string, j: nat)
    ensures AllProper(TokensFrom(s, j))
    decreases |s| - j
  {
    hide TokenAt, After, Balanced;
    if j < |s| {
      TokenFits(s, j);
      TokensProper(s, After(s, j));
    }
  }

  lemma {:induction false} RenderChars(s: string, mapping: string -> string)
    ensures Render(CharsOf(s), mapping) == s
  {
    if |s| > 0 {
      assert CharsOf(s)[1..] == CharsOf(s[1..]);
      RenderChars(s[1..], mapping);
      assert s == [s[0]] + s[1..];
    }
  }

  /** Folding does not change what the tokens expand to if the reference yields what was folded. */
  lemma {:induction false} FoldingRender(ms: seq<Mark>, sub: string, key: string, mapping: string -> string)
    requires mapping(RefName(key)) == sub
    ensures Render(Folding(ms, key), mapping) == Render(Before(ms, sub), mapping)
  {
    if |ms| > 0 {
      FoldingRender(ms[1..], sub, key, mapping);
      assert Folding(ms, key)[1..] == Folding(ms[1..], key);
      var first := match ms[0] case Same(t) => [t] case Folded => CharsOf(sub);
      RenderConcat(first, Before(ms[1..], sub), mapping);
      RenderChars(sub, mapping);
      if ms[0].Same? {
        assert first[1..] == [];
        assert Render(first, mapping) == Image(ms[0].t, mapping);
      }
    }
  }

  /** The text before the first opener is a run of plain characters. */
  lemma TokensToOpener(s: string, start: nat)
    requires start < |s| && OpenerAt(s, start) && forall m | 0 <= m < start :: !OpenerAt(s, m)
    ensures Tokens(s) == CharsOf(s[..start]) + Tokens(s[start..])
  {
    var a, b := s[..start], s[start..];
    forall i | 0 <= i < |a|
      ensures !OpenerAt(a, i)
    {
      assert !OpenerAt(s, i);
    }
    PlainTokens(a, 0);
    assert a[0..] == a && a + b == s;
    assert b[0] == '$';
    TokensConcat(a, b);
  }

  lemma OneToken(t: Token)
    ensures SourceOf([t]) == Source(t)
  {
    assert SourceOf([t][1..]) == "";
  }

  // ----- braces inside names -----

  /** The part of a name behind its first brace. */
  function BehindBrace(n: string): string {
    n[IndexFrom(n, 0, '}') + 1..]
  }

  /** A brace lies inside the name of the reference, and an opener further on. */
  predicate NestedAt(ts: seq<Token>, i: nat) {
    && i < |ts| && ts[i].Ref? && '}' in ts[i].name
    && HasOpener(BehindBrace(ts[i].name) + "}" + SourceOf(ts[i + 1..]))
  }

  predicate Unnested(ts: seq<Token>) {
    forall i | 0 <= i < |ts| :: !NestedAt(ts, i)
  }

  /** No brace inside a name. */
  predicate Simple(ts: seq<Token>) {
    forall i | 0 <= i < |ts| && ts[i].Ref? :: '}' !in ts[i].name
  }

  /** A value with openers that keeps its meaning whatever is replaced: no stray brace, no opener behind a
      brace inside a name, no plain brace behind a kept opener. */
  predicate Foldable(value: string) {
    !HasStray(value) && Unnested(Tokens(value)) && KeptQuiet(Tokens(value))
  }

  lemma UnnestedConcat(a: seq<Token>, t: seq<Token>)
    requires Simple(a)
    ensures Unnested(a + t) <==> Unnested(t)
  {
    hide BehindBrace, SourceOf, HasOpener;
    forall i | 0 <= i < |t| ensures NestedAt(a + t, |a| + i) <==> NestedAt(t, i) {
      assert (a + t)[|a| + i] == t[i] && (a + t)[|a| + i + 1..] == t[i + 1..];
    }
    forall i | 0 <= i < |a| ensures !NestedAt(a + t, i) {
      assert (a + t)[i] == a[i];
    }
    if Unnested(a + t) {
      forall i | 0 <= i < |t| ensures !NestedAt(t, i) {
        assert !NestedAt(a + t, |a| + i);
      }
    }
    if Unnested(t) {
      forall i | 0 <= i < |a + t| ensures !NestedAt(a + t, i) {
        assert i >= |a| ==> !NestedAt(t, i - |a|);
      }
    }
  }

  // ----- what one replacement does to the tokens -----

  /** The text up to the first brace of a name, behind its opener. */
  function UpToBrace(n: string): string {
    "${" + n[..IndexFrom(n, 0, '}') + 1]
  }

  /** The text `b` ends with the first brace inside the name of the reference that `b + rest` begins with. */
  predicate Cut(b: string, rest: string) {
    && b + rest != "" && TokenAt(b + rest, 0).Ref?
    && '}' in TokenAt(b + rest, 0).name && b == UpToBrace(TokenAt(b + rest, 0).name)
  }

  lemma NameAt(s: string, j: nat)
    requires j < |s| && TokenAt(s, j).Ref?
    ensures var n := TokenAt(s, j).name;
            && After(s, j) == j + |n| + 3 <= |s| && OpenerAt(s, j) && s[j + 2..j + 2 + |n|] == n
            && forall m | 0 <= m < |n| :: s[j + 2 + m] == n[m]
  {
    var n := TokenAt(s, j).name;
    TokenIsThere(s, j);
    assert After(s, j) == j + |n| + 3;
  }

  /** The token at `j` reaches no further than the first brace, or that lies inside its name. */
  lemma TokenReach(s: string, j: nat, e: nat)
    requires j <= e < |s| && s[e] == '}' && forall m | j <= m < e :: s[m] != '}'
    ensures var t, k := TokenAt(s, j), After(s, j);
            && (k <= e + 1 ==> Simple([t]))
            && (k > e + 1 ==> t.Ref? && j + 2 <= e && e - j - 2 < |t.name| && t.name[e - j - 2] == '}'
                              && forall m | 0 <= m < e - j - 2 :: t.name[m] != '}')
  {
    hide Closing;
    if TokenAt(s, j).Ref? {
      NameAt(s, j);
    }
  }

  lemma FirstIs(n: string, k: nat)
    requires k < |n| && n[k] == '}' && forall m | 0 <= m < k :: n[m] != '}'
    ensures IndexFrom(n, 0, '}') == k
  {
  }

  lemma SimpleNothing()
    ensures Simple([]) && SourceOf([]) == ""
  {
  }

  lemma SimpleCons(t: Token, us: seq<Token>)
    requires Simple([t]) && Simple(us)
    ensures Simple([t] + us)
  {
    assert [t][0] == t;
  }

  lemma TokensStep(s: string, j: nat)
    requires j < |s|
    ensures TokensFrom(s, j) == [TokenAt(s, j)] + TokensFrom(s, After(s, j))
  {
  }

  lemma SourceFirst(t: Token, us: seq<Token>, more: seq<Token>)
    ensures SourceOf([t] + us) == Source(t) + SourceOf(us)
    ensures [t] + (us + more) == [t] + us + more
  {
    hide Source;
    assert ([t] + us)[1..] == us;
  }

  /** The tokens up to the first brace: it ends one, or lies inside the name of the one at `k`. */
  lemma {:induction false} TokensToBrace(s: string, j: nat, e: nat) returns (ts: seq<Token>, k: nat)
    requires j <= e < |s| && s[e] == '}' && forall m | j <= m < e :: s[m] != '}'
    ensures j <= k <= e + 1 && TokensFrom(s, j) == ts + TokensFrom(s, k) && SourceOf(ts) == s[j..k] && Simple(ts)
    ensures k < e + 1 ==> After(s, k) > e + 1
    decreases e - j
  {
    hide TokenAt, Source, Simple, TokensFrom, After, SourceOf;
    var t, n := TokenAt(s, j), After(s, j);
    TokenReach(s, j, e);
    TokensStep(s, j);
    TokenIsThere(s, j);
    if n > e + 1 {
      ts, k := [], j;
      SimpleNothing();
    } else if n == e + 1 {
      ts, k := [t], n;
      OneToken(t);
    } else {
      var us;
      us, k := TokensToBrace(s, n, e);
      ts := [t] + us;
      SourceFirst(t, us, TokensFrom(s, k));
      assert s[j..n] + s[n..k] == s[j..k];
      SimpleCons(t, us);
    }
  }

  /** What one replacement does: fold the tokens up to the last brace that it looks at, leaving the rest to a
      loop that stops at once, unless that brace lies inside a name. */
  ghost predicate FoldsTo(s: string, sub: string, key: string, ms: seq<Mark>, b: string, rest: string) {
    && Tokens(s) == Before(ms, sub) + Tokens(b + rest)
    && Simple(Before(ms, sub))
    && Fold(s, sub, RefText(key)) == Prepend(SourceOf(Folding(ms, key)) + b, Fold(rest, sub, RefText(key)))
    && (Cut(b, rest) || (b == "" && (!HasOpener(rest) || '}' !in rest)))
  }

  predicate Turn(s: string, start: nat, end: nat) {
    && start < |s| && OpenerAt(s, start) && (forall m | 0 <= m < start :: !OpenerAt(s, m))
    && end < |s| && s[end] == '}' && (forall m | 0 <= m < end :: s[m] != '}') && start <= end + 1
  }

  lemma FirstTurn(s: string) returns (start: nat, end: nat)
    requires !HasStray(s) && HasOpener(s) && '}' in s
    ensures Turn(s, start, end) && !HasStray(s[end + 1..]) && start != end
  {
    hide HasStray, Stray;
    start, end := IndexOpener(s, 0), IndexFrom(s, 0, '}');
    StrayFirst(s, start, end);
    if Stray(s, end) {
      IsStray(s, end);
    }
    StrayRest(s, start, end);
  }

  lemma {:induction false} FoldHead(s: string, sub: string, key: string) returns (ms: seq<Mark>, b: string, rest: string)
    requires !HasStray(s)
    ensures FoldsTo(s, sub, key, ms, b, rest)
    decreases |s|
  {
    hide FoldsTo, HasStray, HasOpener, MarkText;
    if !HasOpener(s) || '}' !in s {
      ms, b, rest := [], "", s;
      StopsAtOnce(s, sub, key);
    } else {
      var start, end := FirstTurn(s);
      var ns;
      if start == end + 1 {
        ns, b, rest := FoldHead(s[start..], sub, key);
        ms := MarkText(s[..start], 0, sub) + ns;
        PlainTurn(s, start, end, sub, key, ns, b, rest);
      } else {
        var ts, k := TokensToBrace(s, start, end);
        ms := MarkText(s[..start], 0, sub) + SameAll(ts);
        if k == end + 1 {
          ns, b, rest := FoldHead(s[k..], sub, key);
          WholeTurn(s, start, end, ts, sub, key, ns, b, rest);
          ms := ms + ns;
        } else {
          b, rest := s[k..end + 1], s[end + 1..];
          CutTurn(s, start, end, ts, k, sub, key);
        }
      }
    }
  }

  lemma StopsAtOnce(s: string, sub: string, key: string)
    requires !HasOpener(s) || '}' !in s
    ensures FoldsTo(s, sub, key, [], "", s)
  {
    hide Fold, RefText;
    FoldEnds(s, sub, RefText(key));
    assert "" + s == s && [] + Tokens(s) == Tokens(s);
    assert Before([], sub) == [] && Folding([], key) == [];
    assert SourceOf([]) + "" == "";
  }

  /** The plain text before the first opener. */
  lemma PlainHead(s: string, start: nat, sub: string, key: string)
    requires start < |s| && OpenerAt(s, start) && forall m | 0 <= m < start :: !OpenerAt(s, m)
    ensures var ms := MarkText(s[..start], 0, sub);
            && Tokens(s) == Before(ms, sub) + Tokens(s[start..]) && Simple(Before(ms, sub))
            && SourceOf(Folding(ms, key)) == ReplaceAllFrom(s[..start], 0, sub, RefText(key))
  {
    hide MarkText, RefText, Tokens;
    TokensToOpener(s, start);
    var p := s[..start];
    assert p[0..] == p;
    MarkTextMeaning(p, 0, sub, key);
  }

  lemma SimpleConcat(a: seq<Token>, c: seq<Token>)
    requires Simple(a) && Simple(c)
    ensures Simple(a + c)
  {
  }

  lemma Joined(a: string, c: string, b: string, o: Outcome)
    ensures Prepend(a, Prepend(c + b, o)) == Prepend(a + c + b, o)
  {
    PrependStep(a, c, b, o);
  }

  lemma PlainTurn(s: string, start: nat, end: nat, sub: string, key: string, ns: seq<Mark>, b: string, rest: string)
    requires Turn(s, start, end) && start == end + 1 && FoldsTo(s[start..], sub, key, ns, b, rest)
    ensures FoldsTo(s, sub, key, MarkText(s[..start], 0, sub) + ns, b, rest)
  {
    hide MarkText, RefText, Tokens, Fold, Simple, Before, Folding, SourceOf, Cut, ReplaceAllFrom, HasOpener;
    var ms := MarkText(s[..start], 0, sub);
    var ref := RefText(key);
    PlainHead(s, start, sub, key);
    FoldUnit(s, start, end, sub, ref);
    BeforeConcat(ms, ns, sub);
    FoldingConcat(ms, ns, key);
    SimpleConcat(Before(ms, sub), Before(ns, sub));
    assert s[start..end + 1] == "";
    var p, q := SourceOf(Folding(ms, key)), SourceOf(Folding(ns, key));
    assert p + "" == p;
    Joined(p, q, b, Fold(rest, sub, ref));
    assert Before(ms, sub) + (Before(ns, sub) + Tokens(b + rest)) == Before(ms, sub) + Before(ns, sub) + Tokens(b + rest);
  }

  /** The marks of a turn whose brace ends a token. */
  lemma HeadMarks(s: string, start: nat, ts: seq<Token>, k: nat, sub: string, key: string)
    requires start <= k <= |s| && OpenerAt(s, start) && forall m | 0 <= m < start :: !OpenerAt(s, m)
    requires TokensFrom(s, start) == ts + TokensFrom(s, k) && SourceOf(ts) == s[start..k] && Simple(ts)
    ensures var ms := MarkText(s[..start], 0, sub) + SameAll(ts);
            && Tokens(s) == Before(ms, sub) + Tokens(s[k..]) && Simple(Before(ms, sub))
            && SourceOf(Folding(ms, key)) == ReplaceAllFrom(s[..start], 0, sub, RefText(key)) + s[start..k]
  {
    hide MarkText, RefText, TokensFrom, Simple, Before, Folding, SourceOf, SameAll;
    var m0 := MarkText(s[..start], 0, sub);
    PlainHead(s, start, sub, key);
    TokensShift(s, start, s[start..], 0);
    TokensShift(s, k, s[k..], 0);
    BeforeSame(ts, sub);
    FoldingSame(ts, key);
    BeforeConcat(m0, SameAll(ts), sub);
    FoldingConcat(m0, SameAll(ts), key);
    SimpleConcat(Before(m0, sub), ts);
    assert Before(m0, sub) + (ts + Tokens(s[k..])) == Before(m0, sub) + ts + Tokens(s[k..]);
  }

  lemma WholeTurn(s: string, start: nat, end: nat, ts: seq<Token>, sub: string, key: string,
                  ns: seq<Mark>, b: string, rest: string)
    requires Turn(s, start, end) && start < end && FoldsTo(s[end + 1..], sub, key, ns, b, rest)
    requires TokensFrom(s, start) == ts + TokensFrom(s, end + 1) && SourceOf(ts) == s[start..end + 1] && Simple(ts)
    ensures FoldsTo(s, sub, key, MarkText(s[..start], 0, sub) + SameAll(ts) + ns, b, rest)
  {
    hide MarkText, RefText, Tokens, TokensFrom, Fold, Simple, Before, Folding, SourceOf, Cut, SameAll;
    var ms := MarkText(s[..start], 0, sub) + SameAll(ts);
    var ref := RefText(key);
    HeadMarks(s, start, ts, end + 1, sub, key);
    FoldUnit(s, start, end, sub, ref);
    BeforeConcat(ms, ns, sub);
    FoldingConcat(ms, ns, key);
    SimpleConcat(Before(ms, sub), Before(ns, sub));
    Joined(SourceOf(Folding(ms, key)), SourceOf(Folding(ns, key)), b, Fold(rest, sub, ref));
    assert Before(ms, sub) + (Before(ns, sub) + Tokens(b + rest)) == Before(ms, sub) + Before(ns, sub) + Tokens(b + rest);
  }

  lemma NameStarts(t: string, n: string, e: nat)
    requires 2 + |n| <= |t| && OpenerAt(t, 0) && t[2..2 + |n|] == n && 2 <= e <= |n| + 1
    ensures t[..e + 1] == "${" + n[..e - 1]
  {
    assert t[..2] == "${";
    assert t[..e + 1] == t[..2] + t[2..2 + |n|][..e - 1];
  }

  lemma CutText(t: string, e: nat)
    requires e < |t| && t[e] == '}' && (forall m | 0 <= m < e :: t[m] != '}') && After(t, 0) > e + 1
    ensures Cut(t[..e + 1], t[e + 1..])
  {
    hide TokenAt, After, UpToBrace;
    TokenReach(t, 0, e);
    NameAt(t, 0);
    var n := TokenAt(t, 0).name;
    NameStarts(t, n, e);
    FirstIs(n, e - 2);
    assert t[..e + 1] + t[e + 1..] == t;
    assert UpToBrace(n) == "${" + n[..e - 1] by { Unfolded(n, e - 2); }
  }

  lemma Unfolded(n: string, k: nat)
    requires k < |n| && IndexFrom(n, 0, '}') == k
    ensures UpToBrace(n) == "${" + n[..k + 1]
  {
  }

  lemma SliceOfSlice(s: string, k: nat, e: nat)
    requires k + e < |s|
    ensures s[k..][..e + 1] == s[k..k + e + 1] && s[k..][e + 1..] == s[k + e + 1..]
    ensures s[k..k + e + 1] + s[k + e + 1..] == s[k..]
    ensures forall m | 0 <= m <= e :: s[k..][m] == s[k + m]
  {
  }

  lemma CutHere(s: string, k: nat, end: nat)
    requires k <= end < |s| && s[end] == '}' && (forall m | k <= m < end :: s[m] != '}') && After(s, k) > end + 1
    ensures s[k..end + 1] + s[end + 1..] == s[k..] && Cut(s[k..end + 1], s[end + 1..])
  {
    hide *;
    SliceOfSlice(s, k, end - k);
    TokenShift(s, k, s[k..], 0);
    CutText(s[k..], end - k);
  }

  lemma SplitAt(r: string, s: string, i: nat, k: nat, j: nat)
    requires i <= k <= j <= |s|
    ensures r + s[i..j] == r + s[i..k] + s[k..j]
  {
  }

  lemma CutTurn(s: string, start: nat, end: nat, ts: seq<Token>, k: nat, sub: string, key: string)
    requires Turn(s, start, end) && start < end && start <= k <= end && After(s, k) > end + 1
    requires TokensFrom(s, start) == ts + TokensFrom(s, k) && SourceOf(ts) == s[start..k] && Simple(ts)
    ensures FoldsTo(s, sub, key, MarkText(s[..start], 0, sub) + SameAll(ts), s[k..end + 1], s[end + 1..])
  {
    hide MarkText, RefText, Tokens, TokensFrom, Fold, Simple, Before, Folding, SourceOf, SameAll, TokenAt, After, Cut,
         ReplaceAllFrom, Prepend, OpenerAt, HasOpener;
    var ref := RefText(key);
    HeadMarks(s, start, ts, k, sub, key);
    FoldUnit(s, start, end, sub, ref);
    CutHere(s, k, end);
    SplitAt(ReplaceAllFrom(s[..start], 0, sub, ref), s, start, k, end + 1);
  }

  // ----- one replacement -----

  lemma RestOf(b: string, rest: string, n: string, k: nat, tail: string)
    requires k < |n| && b == "${" + n[..k + 1] && b + rest == "${" + n + "}" + tail
    ensures rest == n[k + 1..] + "}" + tail
  {
    var t := b + rest;
    assert rest == t[|b|..];
    assert n == n[..k + 1] + n[k + 1..];
    assert t == b + (n[k + 1..] + "}" + tail);
  }

  lemma RestIs(b: string, rest: string)
    requires Cut(b, rest)
    ensures var ts := Tokens(b + rest);
            ts != [] && ts[0].Ref? && rest == BehindBrace(ts[0].name) + "}" + SourceOf(ts[1..])
  {
    hide TokenAt, After, TokensFrom;
    var t := b + rest;
    var n, ts := TokenAt(t, 0).name, Tokens(t);
    TokensStep(t, 0);
    TokensSpell(t);
    SourceFirst(ts[0], ts[1..], []);
    assert ts == [ts[0]] + ts[1..];
    RestOf(b, rest, n, IndexFrom(n, 0, '}'), SourceOf(ts[1..]));
  }

  /** The reference that is cut is nested exactly when an opener is left behind the cut. */
  lemma CutRest(b: string, rest: string)
    requires Cut(b, rest)
    ensures Tokens(b + rest) != [] && (NestedAt(Tokens(b + rest), 0) <==> HasOpener(rest))
  {
    hide HasOpener, TokensFrom;
    RestIs(b, rest);
    TokensStep(b + rest, 0);
  }

  lemma RestStops(s: string, sub: string, key: string, ms: seq<Mark>, b: string, rest: string)
    requires FoldsTo(s, sub, key, ms, b, rest) && Unnested(Tokens(s))
    ensures Fold(rest, sub, RefText(key)) == Text(rest)
  {
    hide Fold, Tokens, Cut, HasOpener, NestedAt, RefText;
    UnnestedConcat(Before(ms, sub), Tokens(b + rest));
    if Cut(b, rest) {
      CutRest(b, rest);
      assert !NestedAt(Tokens(b + rest), 0);
    }
    FoldEnds(rest, sub, RefText(key));
  }

  lemma FoldingSimple(ms: seq<Mark>, sub: string, key: string)
    requires Simple(Before(ms, sub)) && '}' !in RefName(key)
    ensures Simple(Folding(ms, key))
  {
    hide Before, RefName;
    forall i | 0 <= i < |ms| && ms[i].Same? && ms[i].t.Ref?
      ensures '}' !in ms[i].t.name
    {
      var k := BeforeHas(ms, sub, i);
    }
  }

  lemma FoldingProper(ms: seq<Mark>, sub: string, key: string)
    requires AllProper(Before(ms, sub)) && FlatName(RefName(key))
    ensures AllProper(Folding(ms, key))
  {
    hide Before, Proper, RefName;
    assert Proper(Ref(RefName(key))) by { NameProper(key); }
    forall i | 0 <= i < |ms| && ms[i].Same?
      ensures Proper(ms[i].t)
    {
      var k := BeforeHas(ms, sub, i);
    }
  }

  lemma NameProper(key: string)
    requires FlatName(RefName(key))
    ensures Proper(Ref(RefName(key)))
  {
  }

  /** Two marks that stay stood in the same order before. */
  lemma BeforeTwo(ms: seq<Mark>, sub: string, i: nat, j: nat) returns (k: nat, l: nat)
    requires i < j < |ms| && ms[i].Same? && ms[j].Same?
    ensures k < l < |Before(ms, sub)| && Before(ms, sub)[k] == ms[i].t && Before(ms, sub)[l] == ms[j].t
  {
    var a, b := ms[..j], ms[j..];
    assert ms == a + b;
    BeforeConcat(a, b, sub);
    assert Before(b, sub)[0] == ms[j].t;
    hide Before;
    k := BeforeHas(a, sub, i);
    l := |Before(a, sub)|;
  }

  lemma FoldingKeptQuiet(ms: seq<Mark>, sub: string, key: string)
    requires KeptQuiet(Before(ms, sub))
    ensures KeptQuiet(Folding(ms, key))
  {
    hide Before, RefName;
    var ts := Folding(ms, key);
    forall i, j | 0 <= i < j < |ts| && ts[i] == Kept ensures ts[j] != Char('}') {
      if ms[i].Same? && ms[j].Same? {
        var k, l := BeforeTwo(ms, sub, i, j);
      }
    }
  }

  /** What one replacement does to all the tokens of a value that has no stray and no nested brace. */
  lemma FoldMarks(value: string, sub: string, key: string) returns (ms: seq<Mark>)
    requires !HasStray(value) && Unnested(Tokens(value)) && '}' !in RefName(key)
    ensures Before(ms, sub) == Tokens(value) && Unnested(Folding(ms, key))
    ensures Fold(value, sub, RefText(key)) == Text(SourceOf(Folding(ms, key)))
  {
    hide HasStray, Tokens, Unnested, Simple, Before, Folding, SourceOf, Fold, RefText, RefName, SameAll, Cut;
    var ns, b, rest := FoldHead(value, sub, key);
    RestStops(value, sub, key, ns, b, rest);
    var t := Tokens(b + rest);
    ms := ns + SameAll(t);
    BeforeConcat(ns, SameAll(t), sub);
    BeforeSame(t, sub);
    FoldingConcat(ns, SameAll(t), key);
    FoldingSame(t, key);
    TokensSpell(b + rest);
    assert SourceOf(Folding(ns, key)) + b + rest == SourceOf(Folding(ns, key)) + (b + rest);
    FoldingSimple(ns, sub, key);
    UnnestedConcat(Before(ns, sub), t);
    UnnestedConcat(Folding(ns, key), t);
  }

  lemma TokensSpell(s: string)
    ensures SourceOf(Tokens(s)) == s
  {
    UniqueSplit(s, Tokens(s));
  }

  lemma {:induction false} CharsUnnested(s: string)
    ensures Unnested(CharsOf(s)) && KeptQuiet(CharsOf(s)) && Simple(CharsOf(s))
  {
  }

  lemma FoldOneMarks(value: string, sub: string, key: string) returns (ms: seq<Mark>)
    requires HasOpener(value) ==> !HasStray(value) && Unnested(Tokens(value))
    requires '}' !in RefName(key)
    ensures Before(ms, sub) == Tokens(value) && Unnested(Folding(ms, key))
    ensures FoldOne(value, sub, key) == Text(SourceOf(Folding(ms, key)))
  {
    hide HasStray, Before, Unnested, RefName, RefText, SourceOf, Folding, MarkText;
    if HasOpener(value) {
      ms := FoldMarks(value, sub, key);
    } else {
      ms := MarkText(value, 0, sub);
      assert value[0..] == value;
      MarkTextMeaning(value, 0, sub, key);
      PlainTokens(value, 0);
      CharsUnnested(value);
      FoldingSimple(ms, sub, key);
      assert Unnested(Folding(ms, key)) by { SimpleUnnested(Folding(ms, key)); }
    }
  }

  lemma SimpleUnnested(ts: seq<Token>)
    requires Simple(ts)
    ensures Unnested(ts)
  {
  }

  /** One replacement keeps the meaning of every value without openers and of every foldable one, which stays
      foldable. */
  lemma FoldOneKeeps(value: string, sub: string, key: string, mapping: string -> string)
    requires HasOpener(value) ==> Foldable(value)
    requires FlatName(RefName(key))
    ensures var o := FoldOne(value, sub, key);
            && o.Text?
            && (mapping(RefName(key)) == sub ==> Expand(o.s, mapping) == Expand(value, mapping))
            && (HasOpener(value) ==> HasOpener(o.s) && Foldable(o.s))
            && (Foldable(o.s) <==> !HasStray(o.s))
  {
    hide HasOpener, HasStray, Before, Unnested, RefText, SourceOf, Folding, TokensFrom, Seamless, AllProper, FoldOne;
    var ms := FoldOneMarks(value, sub, key);
    var ts := Folding(ms, key);
    TokensSeamless(value, 0);
    FoldingSeamless(ms, sub, key);
    TokensProper(value, 0);
    FoldingProper(ms, sub, key);
    if !HasOpener(value) {
      PlainTokens(value, 0);
      assert value[0..] == value;
      CharsUnnested(value);
    }
    FoldingKeptQuiet(ms, sub, key);
    SeamlessGrammatical(ts);
    UniqueSplit(SourceOf(ts), ts);
    if mapping(RefName(key)) == sub {
      FoldingRender(ms, sub, key, mapping);
    }
    if HasOpener(value) {
      OneClean(value, sub, key);
    }
  }

  lemma OneClean(value: string, sub: string, key: string)
    requires HasOpener(value) && '}' !in RefName(key) && FoldOne(value, sub, key).Text?
    ensures var r := FoldOne(value, sub, key).s; HasOpener(r) && !HasStray(r)
  {
    FoldClean(value, sub, key);
  }

  lemma RegroupThree(a: string, b: string, c: string)
    ensures a + (b + c) == a + b + c
  {
  }

  lemma FoldedFirst(ms: seq<Mark>, key: string, mapping: string -> string)
    ensures Render(Folding([Folded] + ms, key), mapping) == mapping(RefName(key)) + Render(Folding(ms, key), mapping)
  {
    assert Folding([Folded] + ms, key)[1..] == Folding(ms, key);
  }

  lemma SameFirst(t: Token, ms: seq<Mark>, key: string, mapping: string -> string)
    ensures Render(Folding([Same(t)] + ms, key), mapping) == Image(t, mapping) + Render(Folding(ms, key), mapping)
  {
    assert Folding([Same(t)] + ms, key)[1..] == Folding(ms, key);
  }

  lemma RuneFirst(a: string, ns: seq<Mark>, key: string, mapping: string -> string)
    ensures Render(Folding([Folded] + SameAll(CharsOf(a)) + ns, key), mapping)
            == mapping(RefName(key)) + a + Render(Folding(ns, key), mapping)
  {
    hide Folding, Render, RefName, SameAll, CharsOf;
    var ms := SameAll(CharsOf(a));
    FoldedFirst(ms + ns, key, mapping);
    FoldingConcat(ms, ns, key);
    FoldingSame(CharsOf(a), key);
    RenderConcat(CharsOf(a), Folding(ns, key), mapping);
    RenderChars(a, mapping);
    FoldedThree(ms, ns);
    RegroupThree(mapping(RefName(key)), a, Render(Folding(ns, key), mapping));
  }

  lemma FoldedThree(ms: seq<Mark>, ns: seq<Mark>)
    ensures [Folded] + ms + ns == [Folded] + (ms + ns)
  {
  }

  lemma {:induction false} MarkTextRender(t: string, i: nat, sub: string, key: string, mapping: string -> string)
    requires i <= |t|
    ensures Render(Folding(MarkText(t, i, sub), key), mapping) == ReplaceAllFrom(t, i, sub, mapping(RefName(key)))
    decreases |t| - i
  {
    hide Folding, RefName, RuneEnd, SameAll, CharsOf, Render;
    if |sub| == 0 && i < |t| {
      var k := RuneEnd(t, i);
      MarkTextRender(t, k, sub, key, mapping);
      RuneFirst(t[i..k], MarkText(t, k, sub), key, mapping);
    } else if |sub| == 0 {
      LastFold(key, mapping);
    } else if i + |sub| <= |t| && t[i..i + |sub|] == sub {
      MarkTextRender(t, i + |sub|, sub, key, mapping);
      FoldedFirst(MarkText(t, i + |sub|, sub), key, mapping);
    } else if i < |t| {
      MarkTextRender(t, i + 1, sub, key, mapping);
      SameFirst(Char(t[i]), MarkText(t, i + 1, sub), key, mapping);
    } else {
      NothingToRender(key, mapping);
    }
  }

  lemma LastFold(key: string, mapping: string -> string)
    ensures Render(Folding([Folded], key), mapping) == mapping(RefName(key))
  {
    FoldedFirst([], key, mapping);
    assert [Folded] + [] == [Folded];
    NothingToRender(key, mapping);
  }

  lemma NothingToRender(key: string, mapping: string -> string)
    ensures Render(Folding([], key), mapping) == ""
  {
  }

  /** A plain value follows the key it was folded with: whatever the key is bound to when the
      result is expanded takes the place of the text that was folded. */
  lemma FoldOneFollows(value: string, sub: string, key: string, mapping: string -> string)
    requires !HasOpener(value) && FlatName(RefName(key))
    ensures Expand(FoldOne(value, sub, key).s, mapping) == ReplaceAllFrom(value, 0, sub, mapping(RefName(key)))
  {
    hide Before, Folding, SourceOf, TokensFrom, FlatName, MarkText, ReplaceAllFrom, HasOpener;
    var ms := MarkText(value, 0, sub);
    var ts := Folding(ms, key);
    assert value[0..] == value;
    MarkTextMeaning(value, 0, sub, key);
    PlainTokens(value, 0);
    TokensSeamless(value, 0);
    FoldingSeamless(ms, sub, key);
    TokensProper(value, 0);
    FoldingProper(ms, sub, key);
    CharsUnnested(value);
    FoldingKeptQuiet(ms, sub, key);
    SeamlessGrammatical(ts);
    UniqueSplit(SourceOf(ts), ts);
    MarkTextRender(value, 0, sub, key, mapping);
  }

  // ----- lists of replacements -----

  /** The keys make good references and are bound to what is replaced. */
  ghost predicate Bound(keys: seq<string>, subs: string -> string, mapping: string -> string) {
    forall key | key in keys :: FlatName(RefName(key)) && mapping(RefName(key)) == subs(key)
  }

  /** A value that keeps its meaning under a list of replacements. */
  predicate Lasts(value: string, keys: seq<string>, subs: string -> string) {
    if HasOpener(value) then Foldable(value) else !PlainFails(value, keys, subs)
  }

  /** Any list of replacements, one after the other, keeps the meaning of every foldable value, and of a plain
      value unless it fails there. */
  lemma {:induction false} FoldKeysKeep(value: string, keys: seq<string>, subs: string -> string, mapping: string -> string)
    requires Lasts(value, keys, subs)
    requires Bound(keys, subs, mapping)
    ensures var o := FoldKeys(value, keys, subs);
            o.Text? && Expand(o.s, mapping) == Expand(value, mapping)
    decreases |keys|
  {
    hide Foldable, FoldOne, Expand, FlatName, RefName, HasOpener, MarkText, LeavesStray, HasStray;
    if |keys| > 0 {
      var key, sub := keys[0], subs(keys[0]);
      var v := FoldOne(value, sub, key);
      assert key in keys && forall k | k in keys[1..] :: k in keys;
      NameIsFlat(key);
      FoldOneKeeps(value, sub, key, mapping);
      if !HasOpener(value) && |keys| > 1 {
        if Folded in MarkText(value, 0, sub) {
          MatchOpens(value, sub, key);
          NextFailsIff(value, sub, key, "", "");
          FoldOneFailsIff(v.s, "", "");
        } else {
          NoMatch(value, sub, key);
        }
      }
      if |keys| > 1 {
        FoldKeysKeep(v.s, keys[1..], subs, mapping);
      } else {
        assert FoldKeys(v.s, keys[1..], subs) == v;
      }
    }
  }

  lemma NameIsFlat(key: string)
    ensures FlatName(RefName(key)) ==> '}' !in RefName(key)
  {
  }

  // ----- and exactly then -----

  /** Two texts that begin with `p`: a scan that does not end in it goes on in both alike. */
  lemma {:induction false} PastPrefix(p: string, u: string, v: string, i: nat, st: Scan) returns (st': Scan)
    requires i <= |p| && Closing(p + u, i, st) >= |p|
    ensures Closing(p + v, i, st) == Closing(p + v, |p|, st')
    decreases |p| - i
  {
    if i == |p| {
      st' := st;
    } else {
      assert (p + u)[i] == p[i] == (p + v)[i];
      st' := PastPrefix(p, u, v, i + 1, Next(st, p[i]));
    }
  }

  /** A long reference put behind the cut: the opener is kept, or begins a longer name. */
  lemma CutChanges(b: string, rest: string, key: string, more: string)
    requires Cut(b, rest) && FlatName(RefName(key))
    ensures var t := TokenAt(b + (RefText(key) + more), 0);
            t == Kept || (t.Ref? && |t.name| > |RefText(key)|)
  {
    hide Balanced, Closing;
    var ref := RefText(key);
    var z, y := b + rest, b + (ref + more);
    var n := TokenAt(z, 0).name;
    NameAt(z, 0);
    var k := IndexFrom(n, 0, '}');
    assert Closing(z, 2, START) == 2 + |n| >= |b|;
    var st := PastPrefix(b, rest, ref + more, 2, START);
    var j, e := |b|, |b| + |ref| - 1;
    assert OpenerAt(y, j) && y[e] == '}' && y[j + 2..e] == RefName(key);
    SkipRef(y, j, e, st);
    assert y[0] == '$' && y[1] == '{';
  }

  lemma {:induction false} SourceHas(ts: seq<Token>, i: nat)
    requires i < |ts| && ts[i].Ref?
    ensures '}' in SourceOf(ts) && HasOpener(SourceOf(ts))
  {
    var s, rest := SourceOf(ts), SourceOf(ts[1..]);
    if i == 0 {
      var u := Source(ts[0]);
      assert s[|u| - 1] == '}' && OpenerAt(s, 0);
    } else {
      SourceHas(ts[1..], i - 1);
      var m :| 0 <= m < |rest| && OpenerAt(rest, m);
      assert OpenerAt(s, |Source(ts[0])| + m);
    }
  }

  lemma OpenerLater(a: string, c: string)
    requires HasOpener(c)
    ensures HasOpener(a + c)
  {
    var m :| 0 <= m < |c| && OpenerAt(c, m);
    assert OpenerAt(a + c, |a| + m);
  }

  /** A nested brace makes the fold stop inside a name with openers left. */
  lemma NestedCuts(s: string, sub: string, key: string, ms: seq<Mark>, b: string, rest: string)
    requires FoldsTo(s, sub, key, ms, b, rest) && !Unnested(Tokens(s))
    ensures Cut(b, rest) && HasOpener(rest) && '}' in rest
  {
    hide Fold, Cut, HasOpener, RefText, Before, SourceOf, Tokens;
    var t := b + rest;
    var ts := Tokens(t);
    UnnestedConcat(Before(ms, sub), ts);
    var i :| 0 <= i < |ts| && NestedAt(ts, i);
    SourceHas(ts, i);
    TokensSpell(t);
    assert "" + rest == rest;
    CutRest(b, rest);
    RestIs(b, rest);
    var n, more := ts[0].name, SourceOf(ts[1..]);
    if i > 0 {
      assert ts[1..][i - 1] == ts[i];
      SourceHas(ts[1..], i - 1);
      OpenerLater(BehindBrace(n) + "}", more);
    }
  }

  lemma StartsWithRef(p: string, ref: string)
    ensures ref <= ReplaceAllFrom(p, 0, "", ref)
  {
  }

  /** Folding the empty text begins with the reference. */
  lemma FoldEmptyStarts(s: string, key: string) returns (more: string)
    requires HasOpener(s) && '}' in s && !HasStray(s)
    ensures Fold(s, "", RefText(key)) == SliceOutOfRange || Fold(s, "", RefText(key)) == Text(RefText(key) + more)
  {
    hide RefText, ReplaceAllFrom, Fold, HasStray, HasOpener;
    var ref := RefText(key);
    var start, end := FirstTurn(s);
    FoldUnit(s, start, end, "", ref);
    StartsWithRef(s[..start], ref);
    var r := Fold(s, "", ref);
    if r.Text? {
      assert ref <= r.s;
      more := r.s[|ref|..];
    } else {
      more := "";
    }
  }

  lemma {:induction false} ClosedByTokens(s: string, j: nat)
    ensures AllClosedFrom(s, j) <==> Kept !in TokensFrom(s, j)
    decreases |s| - j
  {
    hide TokenAt, After;
    if j < |s| {
      ClosedByTokens(s, After(s, j));
    }
  }

  /** The part that is folded as a whole renders as before, whatever comes behind it. */
  lemma HeadKeeps(head: seq<Token>, ts: seq<Token>, ms: seq<Mark>, sub: string, key: string, y: string, mapping: string -> string)
    requires head == Before(ms, sub) && Seamless(head + ts) && AllProper(head + ts) && Kept !in head + ts
    requires FlatName(RefName(key)) && mapping(RefName(key)) == sub && "$" <= y
    ensures Expand(SourceOf(Folding(ms, key)) + y, mapping) == Render(head, mapping) + Expand(y, mapping)
  {
    hide Before, Folding, FlatName, RefName, Proper;
    forall i | 0 <= i < |head| ensures head[i] == (head + ts)[i] {
    }
    var us := Folding(ms, key);
    var x := SourceOf(us);
    FoldingSeamless(ms, sub, key);
    FoldingProper(ms, sub, key);
    assert KeptQuiet(head);
    NoKeptFolding(ms, sub, key);
    SeamlessGrammatical(us);
    UniqueSplit(x, us);
    ClosedByTokens(x, 0);
    ExpandConcat(x, y, mapping);
    FoldingRender(ms, sub, key, mapping);
  }

  lemma NoKeptFolding(ms: seq<Mark>, sub: string, key: string)
    requires Kept !in Before(ms, sub)
    ensures Kept !in Folding(ms, key) && KeptQuiet(Folding(ms, key))
  {
    hide Before;
    forall i | 0 <= i < |ms| && ms[i].Same? ensures ms[i].t != Kept {
      var k := BeforeHas(ms, sub, i);
    }
  }

  lemma {:induction false} RenderShort(ts: seq<Token>, mapping: string -> string)
    requires forall i | 0 <= i < |ts| && ts[i].Ref? :: |mapping(ts[i].name)| <= 1
    ensures |Render(ts, mapping)| <= |SourceOf(ts)|
  {
    if |ts| > 0 {
      assert forall i | 0 <= i < |ts| - 1 :: ts[1..][i] == ts[i + 1];
      RenderShort(ts[1..], mapping);
    }
  }

  lemma {:induction false} NamesFit(ts: seq<Token>, i: nat)
    requires i < |ts| && ts[i].Ref?
    ensures |ts[i].name| < |SourceOf(ts)|
  {
    if i > 0 {
      NamesFit(ts[1..], i - 1);
    }
  }

  /** Short names are bound to an x, long ones to a text longer than `n`, and the key to nothing. */
  function Telling(n: nat, key: string): string -> string {
    (name: string) => if name == RefName(key) then "" else if |name| > n then seq(n + 1, _ => 'x') else "x"
  }

  lemma TailDiffers(b: string, rest: string, key: string, more: string, n: nat)
    requires Cut(b, rest) && FlatName(RefName(key)) && |b + rest| <= n <= |key|
    ensures Expand(b + (RefText(key) + more), Telling(n, key)) != Expand(b + rest, Telling(n, key))
  {
    hide TokenAt, After;
    var m := Telling(n, key);
    var z, y := b + rest, b + (RefText(key) + more);
    var ts, us := Tokens(z), Tokens(y);
    TokensStep(z, 0);
    TokensStep(y, 0);
    CutChanges(b, rest, key, more);
    TokensSpell(z);
    forall i | 0 <= i < |ts| && ts[i].Ref? ensures |m(ts[i].name)| <= 1 {
      NamesFit(ts, i);
    }
    RenderShort(ts, m);
    NamesFit(ts, 0);
    assert Expand(z, m) == m(ts[0].name) + Render(ts[1..], m);
    assert m(ts[0].name) == "x";
    assert Expand(y, m) == Image(us[0], m) + Render(us[1..], m);
    if us[0] == Kept {
      assert Expand(y, m)[0] == '$' && Expand(z, m)[0] == 'x';
    }
  }

  /** A nested brace: some replacement of the empty value changes what the value means. */
  lemma NestedChanges(value: string) returns (key: string, mapping: string -> string)
    requires AllClosed(value) && !HasStray(value) && !Unnested(Tokens(value))
    ensures FlatName(RefName(key)) && mapping(RefName(key)) == ""
    ensures var o := FoldOne(value, "", key); o.Text? && Expand(o.s, mapping) != Expand(value, mapping)
  {
    hide HasStray, Unnested, TokensFrom, Before, Folding, Fold, RefText, Cut, Seamless, AllProper, AllClosedFrom,
         FlatName, HasOpener, SourceOf, Render;
    var ts := Tokens(value);
    key := seq(|value|, _ => 'k');
    PlainKey(key);
    mapping := Telling(|value|, key);
    var ms, b, rest := FoldHead(value, "", key);
    NestedCuts(value, "", key, ms, b, rest);
    assert HasOpener(value) by { OpenersThere(value, ts); }
    FoldFailsIff(value, "", RefText(key));
    FoldFailsIff(rest, "", RefText(key));
    var more := FoldEmptyStarts(rest, key);
    var x, y := SourceOf(Folding(ms, key)), b + (RefText(key) + more);
    assert FoldOne(value, "", key) == Text(x + y) by {
      assert x + b + (RefText(key) + more) == x + y;
    }
    var head, tail := Before(ms, ""), Tokens(b + rest);
    TokensSeamless(value, 0);
    TokensProper(value, 0);
    ClosedByTokens(value, 0);
    assert "$" <= y by { CutOpens(b, rest); }
    HeadKeeps(head, tail, ms, "", key, y, mapping);
    RenderConcat(head, tail, mapping);
    TokensSpell(value);
    TokensSpell(b + rest);
    SourceConcat(head, tail);
    TailDiffers(b, rest, key, more, |value|);
    Cancel(Render(head, mapping), Expand(y, mapping), Expand(b + rest, mapping));
  }

  lemma Cancel(a: string, u: string, v: string)
    requires u != v
    ensures a + u != a + v
  {
    assert (a + u)[|a|..] == u && (a + v)[|a|..] == v;
  }

  lemma CutOpens(b: string, rest: string)
    requires Cut(b, rest)
    ensures "$" <= b
  {
  }

  lemma OpenersThere(value: string, ts: seq<Token>)
    requires ts == Tokens(value) && !Unnested(ts)
    ensures HasOpener(value)
  {
    var i :| 0 <= i < |ts| && NestedAt(ts, i);
    SourceHas(ts, i);
    TokensSpell(value);
  }

  /** One replacement keeps the meaning: where the key is bound to what is replaced, the rewritten value expands
      to what the value expands to. */
  ghost predicate KeptBy(value: string, sub: string, key: string, mapping: string -> string) {
    FlatName(RefName(key)) && mapping(RefName(key)) == sub ==>
      var o := FoldOne(value, sub, key); o.Text? && Expand(o.s, mapping) == Expand(value, mapping)
  }

  /** A value all of whose openers close keeps its meaning under every replacement exactly when it has no opener,
      or no stray brace and no opener behind a brace inside a name. */
  lemma KeepsOneIff(value: string)
    requires AllClosed(value)
    ensures (forall sub, key, mapping :: KeptBy(value, sub, key, mapping)) <==>
              !HasOpener(value) || (!HasStray(value) && Unnested(Tokens(value)))
  {
    hide HasOpener, HasStray, Unnested, FoldOne, Expand, FlatName, AllClosedFrom;
    ClosedFoldable(value);
    if !HasOpener(value) || Foldable(value) {
      forall sub: string, key: string, mapping: string -> string ensures KeptBy(value, sub, key, mapping) {
        if FlatName(RefName(key)) {
          FoldOneKeeps(value, sub, key, mapping);
        }
      }
    } else if HasStray(value) {
      PlainKey("");
      FoldOneFailsIff(value, "", "");
      assert !KeptBy(value, "", "", (name: string) => "");
    } else {
      var key, mapping := NestedChanges(value);
      assert !KeptBy(value, "", key, mapping);
    }
  }

  lemma ClosedFoldable(value: string)
    requires AllClosed(value)
    ensures Foldable(value) <==> !HasStray(value) && Unnested(Tokens(value))
  {
    hide HasStray, Unnested, TokensFrom, AllClosedFrom;
    ClosedByTokens(value, 0);
    assert KeptQuiet(Tokens(value)) by {
      forall i | 0 <= i < |Tokens(value)| ensures Tokens(value)[i] != Kept {
        assert Tokens(value)[i] in Tokens(value);
      }
    }
  }

  ghost predicate KeptByAll(value: string, keys: seq<string>, subs: string -> string, mapping: string -> string) {
    Bound(keys, subs, mapping) ==>
      var o := FoldKeys(value, keys, subs); o.Text? && Expand(o.s, mapping) == Expand(value, mapping)
  }

  /** The same condition for lists of replacements, in a value with openers. */
  lemma KeepsListsIff(value: string)
    requires AllClosed(value) && HasOpener(value)
    ensures (forall keys, subs, mapping :: KeptByAll(value, keys, subs, mapping)) <==>
              !HasStray(value) && Unnested(Tokens(value))
  {
    hide HasOpener, HasStray, Unnested, FoldOne, Expand, FlatName, AllClosedFrom, Fold;
    ClosedFoldable(value);
    if Foldable(value) {
      forall keys: seq<string>, subs: string -> string, mapping: string -> string
        ensures KeptByAll(value, keys, subs, mapping)
      {
        if Bound(keys, subs, mapping) {
          FoldKeysKeep(value, keys, subs, mapping);
        }
      }
    } else {
      KeepsOneIff(value);
      var sub, key, mapping :| !KeptBy(value, sub, key, mapping);
      var subs := (k: string) => sub;
      OneKey(value, key, subs);
      assert !KeptByAll(value, [key], subs, mapping);
    }
  }

  lemma OneKey(value: string, key: string, subs: string -> string)
    ensures FoldKeys(value, [key], subs) == FoldOne(value, subs(key), key)
  {
    assert [key][1..] == [];
  }

  /** In a plain value a list of replacements keeps the meaning exactly when it does not fail. */
  lemma PlainKeepsIff(value: string, keys: seq<string>, subs: string -> string, mapping: string -> string)
    requires !HasOpener(value) && Bound(keys, subs, mapping)
    ensures (var o := FoldKeys(value, keys, subs); o.Text? && Expand(o.s, mapping) == Expand(value, mapping))
            <==> !PlainFails(value, keys, subs)
  {
    hide HasOpener, Expand, FoldKeys, PlainFails;
    PlainKeysFailIff(value, keys, subs);
    if !PlainFails(value, keys, subs) {
      FoldKeysKeep(value, keys, subs, mapping);
    }
  }
}
