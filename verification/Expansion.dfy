/** The `${...}` expansion engine of pkg/config/internal.go.

    `ExpandLoop` and `GetContents` are the index-juggling loops of the source. They are proved
    against a token grammar that says nothing about indices: a text is a list of tokens, each
    token has a source text and an image. */
module Expansion {

  /** The pieces of an expandable text: a plain character, a reference `${name}`, an opener `${`
      that nothing closes (kept as it is), and the empty reference `${}` (eaten). */
  datatype Token = Char(c: char) | Ref(name: string) | Kept | Eaten

  function Source(t: Token): string {
    match t
    case Char(c) => [c]
    case Ref(name) => "${" + name + "}"
    case Kept => "${"
    case Eaten => "${}"
  }

  function Image(t: Token, mapping: string -> string): string {
    match t
    case Char(c) => [c]
    case Ref(name) => mapping(name)
    case Kept => "${"
    case Eaten => ""
  }

  function SourceOf(ts: seq<Token>): string {
    if |ts| == 0 then "" else Source(ts[0]) + SourceOf(ts[1..])
  }

  function Render(ts: seq<Token>, mapping: string -> string): string {
    if |ts| == 0 then "" else Image(ts[0], mapping) + Render(ts[1..], mapping)
  }

  /** The state of a scan for a closing brace: how many further braces are open, and whether the
      last character was a backslash that hides the next one. */
  datatype Scan = Scan(depth: nat, hidden: bool)

  const START := Scan(0, false)

  predicate Closes(st: Scan, c: char) {
    c == '}' && !st.hidden && st.depth == 0
  }

  function Next(st: Scan, c: char): Scan
    requires !Closes(st, c)
  {
    if st.hidden then Scan(st.depth, false)
    else if c == '\\' then Scan(st.depth, true)
    else if c == '{' then Scan(st.depth + 1, false)
    else if c == '}' then Scan(st.depth - 1, false)
    else st
  }

  /** Scanning `n` from `st` closes every open brace and nothing more. */
  predicate Closed(n: string, st: Scan) {
    if |n| == 0 then st == START
    else !Closes(st, n[0]) && Closed(n[1..], Next(st, n[0]))
  }

  /** The legal contents of `${...}`. */
  predicate Balanced(n: string) {
    Closed(n, START)
  }

  /** Nothing in `rest` closes an opener standing immediately before it. */
  ghost predicate NeverCloses(rest: string) {
    forall n: string :: Balanced(n) ==> !(n + "}" <= rest)
  }

  /** `t` may stand immediately before the text `rest`. */
  ghost predicate Fits(t: Token, rest: string) {
    match t
    case Char(c) => !(c == '$' && "{" <= rest)
    case Ref(name) => name != "" && Balanced(name)
    case Kept => NeverCloses(rest)
    case Eaten => true
  }

  ghost predicate Grammatical(ts: seq<Token>) {
    |ts| == 0 || (Fits(ts[0], SourceOf(ts[1..])) && Grammatical(ts[1..]))
  }

  // ----- nested braces -----

  function Deeper(st: Scan): Scan {
    Scan(st.depth + 1, st.hidden)
  }

  /** Text that closes a brace more than `st` has open closes `st`, then that brace, then nothing more. */
  lemma {:induction false} OuterBrace(m: string, st: Scan) returns (k: nat)
    requires Closed(m, Deeper(st))
    ensures k < |m| && m[k] == '}' && Closed(m[..k], st) && Closed(m[k + 1..], START)
  {
    if Closes(st, m[0]) {
      k := 0;
    } else {
      k := OuterBrace(m[1..], Next(st, m[0]));
      assert m[1..][..k] == m[..k + 1][1..] && m[1..][k + 1..] == m[k + 2..];
      k := k + 1;
    }
  }

  lemma {:induction false} InnerClosed(m: string, k: nat, st: Scan)
    requires k < |m| && m[k] == '}' && Closed(m[..k], st) && Closed(m[k + 1..], START)
    ensures Closed(m, Deeper(st))
  {
    if k > 0 {
      assert m[1..][..k - 1] == m[..k][1..] && m[1..][k..] == m[k + 1..];
      InnerClosed(m[1..], k - 1, Next(st, m[0]));
    }
  }

  /** A balanced text in front of a text does not change whether that is closed. */
  lemma {:induction false} ClosedAppend(a: string, st: Scan, b: string)
    requires Closed(a, st)
    ensures Closed(a + b, st) <==> Closed(b, START)
  {
    if |a| == 0 {
      assert a + b == b;
    } else {
      assert (a + b)[1..] == a[1..] + b;
      ClosedAppend(a[1..], Next(st, a[0]), b);
    }
  }

  predicate PlainChar(c: char) {
    c !in "{}\\"
  }

  lemma {:induction false} PlainBalanced(s: string)
    requires forall i | 0 <= i < |s| :: PlainChar(s[i])
    ensures Balanced(s)
  {
    if |s| > 0 {
      assert forall i | 0 <= i < |s[1..]| :: s[1..][i] == s[i + 1];
      PlainBalanced(s[1..]);
    }
  }

  ghost predicate InBraces(n: string, k: nat) {
    0 < k < |n| && n[0] == '{' && n[k] == '}' && Balanced(n[1..k]) && Balanced(n[k + 1..])
  }

  lemma EscapedNext(n: string)
    requires n != "" && n[0] == '\\'
    ensures Balanced(n) <==> |n| >= 2 && Balanced(n[2..])
  {
    assert Balanced(n) <==> Closed(n[1..], Scan(0, true));
    if |n| >= 2 {
      assert Closed(n[1..], Scan(0, true)) <==> Closed(n[1..][1..], START);
      assert n[1..][1..] == n[2..];
    } else {
      assert n[1..] == "";
    }
  }

  lemma BracedNext(n: string)
    requires n != "" && n[0] == '{'
    ensures Balanced(n) <==> exists k: nat :: InBraces(n, k)
  {
    if Balanced(n) {
      var k := OuterBrace(n[1..], START);
      assert n[1..][..k] == n[1..k + 1] && n[1..][k + 1..] == n[k + 2..];
      assert InBraces(n, k + 1);
    }
    if k: nat :| InBraces(n, k) {
      assert n[1..][..k - 1] == n[1..k] && n[1..][k..] == n[k + 1..];
      InnerClosed(n[1..], k - 1, START);
    }
  }

  lemma OtherNext(n: string)
    requires n != "" && n[0] != '{' && n[0] != '\\'
    ensures Balanced(n) <==> n[0] != '}' && Balanced(n[1..])
  {
  }

  /** The grammar of balanced texts: nothing; or a byte other than a brace or a backslash, or a backslash and any byte,
      or a balanced text in braces, and then a balanced text. */
  lemma BalancedIff(n: string)
    ensures Balanced(n) <==>
              || n == ""
              || (n[0] != '{' && n[0] != '}' && n[0] != '\\' && Balanced(n[1..]))
              || (|n| >= 2 && n[0] == '\\' && Balanced(n[2..]))
              || exists k: nat :: InBraces(n, k)
  {
    if n != "" {
      hide Closed, Balanced;
      if n[0] == '{' {
        BracedNext(n);
      } else if n[0] == '\\' {
        EscapedNext(n);
      } else {
        OtherNext(n);
      }
    }
  }

  // ----- the scan for a closing brace -----

  /** Where the brace is, at `i` or later, that closes one brace more than `st` has open, or -1. */
  function Closing(s: string, i: nat, st: Scan): (k: int)
    ensures k == -1 || i <= k < |s|
    decreases |s| - i
  {
    if i >= |s| then -1
    else if Closes(st, s[i]) then i
    else Closing(s, i + 1, Next(st, s[i]))
  }

  lemma {:induction false} ClosingSound(s: string, i: nat, st: Scan)
    ensures var k := Closing(s, i, st); k >= 0 ==> s[k] == '}' && Closed(s[i..k], st)
    decreases |s| - i
  {
    if i < |s| && !Closes(st, s[i]) {
      ClosingSound(s, i + 1, Next(st, s[i]));
      var k := Closing(s, i, st);
      assert k >= 0 ==> s[i..k][1..] == s[i + 1..k];
    }
  }

  /** A closed stretch that is followed by a brace is the one the scan finds: closings are unique. */
  lemma {:induction false} ClosingComplete(s: string, i: nat, k: nat, st: Scan)
    requires i <= k < |s| && s[k] == '}' && Closed(s[i..k], st)
    ensures Closing(s, i, st) == k
    decreases k - i
  {
    if i < k {
      assert s[i..k][1..] == s[i + 1..k];
      ClosingComplete(s, i + 1, k, Next(st, s[i]));
    }
  }

  lemma PrefixAt(s: string, i: nat, n: string)
    requires i <= |s|
    ensures n + "}" <= s[i..] <==> i + |n| < |s| && s[i..i + |n|] == n && s[i + |n|] == '}'
  {
    var m := n + "}";
    if m <= s[i..] {
      assert s[i..][..|m|] == m;
      assert s[i..i + |n|] == m[..|n|];
      assert m[|n|] == s[i..][|n|];
    }
  }

  lemma NeverClosesIff(s: string, i: nat)
    requires i <= |s|
    ensures NeverCloses(s[i..]) <==> Closing(s, i, START) == -1
  {
    hide Closed, Closing;
    var k := Closing(s, i, START);
    if k >= 0 {
      ClosingSound(s, i, START);
      PrefixAt(s, i, s[i..k]);
      assert Balanced(s[i..k]);
    } else {
      forall n: string | Balanced(n)
        ensures !(n + "}" <= s[i..])
      {
        PrefixAt(s, i, n);
        if n + "}" <= s[i..] {
          ClosingComplete(s, i, i + |n|, START);
        }
      }
    }
  }

  /** What `getContents` returns: the text between the braces and the number of bytes consumed
      after the dollar sign. */
  function Contents(s: string): (r: (string, nat))
    requires |s| > 0
  {
    if s[0] != '{' then ("", 0)
    else
      var k := Closing(s, 1, START);
      if k == -1 then ("", 1) else if k == 1 then ("", 2) else (s[1..k], k + 1)
  }

  /** The result of `getContents` in terms of the grammar alone. */
  lemma ContentsByGrammar(s: string)
    requires |s| > 0
    ensures var (name, w) := Contents(s);
            && w <= |s|
            && (w == 0 <==> s[0] != '{')
            && (w == 1 <==> s[0] == '{' && NeverCloses(s[1..]))
            && (w == 2 <==> "{}" <= s)
            && (w > 2 ==> name != "" && Balanced(name) && "{" + name + "}" == s[..w])
            && (w <= 2 ==> name == "")
  {
    if s[0] == '{' {
      NeverClosesIff(s, 1);
      ClosingSound(s, 1, START);
    }
  }

  method GetContents(s: string) returns (name: string, w: nat)
    requires |s| > 0
    ensures (name, w) == Contents(s)
  {
    if s[0] != '{' {
      return "", 0;
    }
    var depth: nat := 0;
    var i := 1;
    while i < |s|
      invariant 1 <= i
      invariant Closing(s, 1, START) == Closing(s, i, Scan(depth, false))
    {
      if s[i] == '\\' {
        i := i + 1;
      } else if s[i] == '{' {
        depth := depth + 1;
      } else if s[i] == '}' {
        if depth > 0 {
          depth := depth - 1;
          i := i + 1;
          continue;
        }
        if i == 1 {
          return "", 2;
        }
        return s[1..i], i + 1;
      }
      i := i + 1;
    }
    return "", 1;
  }

  // ----- the tokens of a text -----

  function TokenAt(s: string, j: nat): Token
    requires j < |s|
  {
    if s[j] == '$' && j + 1 < |s| && s[j + 1] == '{' then
      var k := Closing(s, j + 2, START);
      if k == -1 then Kept else if k == j + 2 then Eaten else Ref(s[j + 2..k])
    else Char(s[j])
  }

  /** The index behind the token at `j`. */
  function After(s: string, j: nat): (k: nat)
    requires j < |s|
    ensures j < k <= |s|
    ensures k == j + |Source(TokenAt(s, j))|
  {
    if s[j] == '$' && j + 1 < |s| && s[j + 1] == '{' then
      var k := Closing(s, j + 2, START);
      if k == -1 then j + 2 else k + 1
    else j + 1
  }

  function TokensFrom(s: string, j: nat): seq<Token>
    decreases |s| - j
  {
    if j >= |s| then [] else [TokenAt(s, j)] + TokensFrom(s, After(s, j))
  }

  function Tokens(s: string): seq<Token> {
    TokensFrom(s, 0)
  }

  /** What expanding `s` means. */
  function Expand(s: string, mapping: string -> string): string {
    Render(Tokens(s), mapping)
  }

  lemma TokenIsThere(s: string, j: nat)
    requires j < |s|
    ensures Source(TokenAt(s, j)) == s[j..After(s, j)]
  {
    if s[j] == '$' && j + 1 < |s| && s[j + 1] == '{' {
      assert "${" == s[j..j + 2];
      var k := Closing(s, j + 2, START);
      if k >= 0 {
        ClosingSound(s, j + 2, START);
        Bracketed(s, j, k);
      }
    }
  }

  lemma Bracketed(s: string, j: nat, k: nat)
    requires j + 2 <= k < |s| && s[j] == '$' && s[j + 1] == '{' && s[k] == '}'
    ensures "${" + s[j + 2..k] + "}" == s[j..k + 1]
    ensures k == j + 2 ==> "${}" == s[j..k + 1]
  {
  }

  lemma TokenFits(s: string, j: nat)
    requires j < |s|
    ensures Fits(TokenAt(s, j), s[After(s, j)..])
  {
    if s[j] == '$' && j + 1 < |s| && s[j + 1] == '{' {
      ClosingSound(s, j + 2, START);
      NeverClosesIff(s, j + 2);
    } else if "{" <= s[j + 1..] {
      assert s[j + 1] == "{"[0];
    }
  }

  lemma {:induction false} TokensAreASplit(s: string, j: nat)
    requires j <= |s|
    ensures SourceOf(TokensFrom(s, j)) == s[j..] && Grammatical(TokensFrom(s, j))
    decreases |s| - j
  {
    hide TokenAt, After, Fits, Source;
    if j < |s| {
      TokenIsThere(s, j);
      TokenFits(s, j);
      TokensAreASplit(s, After(s, j));
      assert TokensFrom(s, j)[1..] == TokensFrom(s, After(s, j));
      assert s[j..After(s, j)] + s[After(s, j)..] == s[j..];
    }
  }

  lemma SliceAt(s: string, j: nat, u: string)
    requires j + |u| <= |s| && u == s[j..j + |u|]
    ensures forall m | 0 <= m < |u| :: s[j + m] == u[m]
  {
    forall m | 0 <= m < |u|
      ensures s[j + m] == u[m]
    {
      assert s[j..j + |u|][m] == s[j + m];
    }
  }

  lemma OnlyRefAt(s: string, j: nat, name: string)
    requires name != "" && Balanced(name) && j + |name| + 3 <= |s| && s[j..j + |name| + 3] == "${" + name + "}"
    ensures TokenAt(s, j) == Ref(name)
  {
    hide Closed;
    var u, k := "${" + name + "}", j + |name| + 2;
    SliceAt(s, j, u);
    assert s[j + 0] == u[0] && s[j + 1] == u[1] && s[j + (|name| + 2)] == u[|name| + 2];
    assert s[j + 2..k] == u[2..|name| + 2] == name;
    ClosingComplete(s, j + 2, k, START);
  }

  lemma OnlyTokenAt(s: string, j: nat, t: Token)
    requires j + |Source(t)| <= |s| && Source(t) == s[j..j + |Source(t)|]
    requires Fits(t, s[j + |Source(t)|..])
    ensures j < |s| && TokenAt(s, j) == t
  {
    var u := Source(t);
    var k := j + |u|;
    SliceAt(s, j, u);
    assert s[j + 0] == u[0];
    match t
    case Char(c) =>
      assert k < |s| ==> (s[k] == '{' <==> "{" <= s[k..]);
    case Ref(name) =>
      OnlyRefAt(s, j, name);
    case Kept =>
      assert s[j + 1] == u[1];
      NeverClosesIff(s, j + 2);
    case Eaten =>
      assert s[j + 1] == u[1] && s[j + 2] == u[2];
  }

  lemma {:induction false} SplitIsTokens(s: string, j: nat, ts: seq<Token>)
    requires j <= |s| && SourceOf(ts) == s[j..] && Grammatical(ts)
    ensures TokensFrom(s, j) == ts
    decreases |ts|
  {
    hide TokenAt, After, Fits, Source;
    if |ts| > 0 {
      var t, rest := ts[0], SourceOf(ts[1..]);
      var k := j + |Source(t)|;
      assert s[j..] == Source(t) + rest;
      assert s[j..k] == (Source(t) + rest)[..|Source(t)|] == Source(t);
      assert s[k..] == (Source(t) + rest)[|Source(t)|..] == rest;
      OnlyTokenAt(s, j, t);
      SplitIsTokens(s, k, ts[1..]);
      assert [t] + ts[1..] == ts;
    }
  }

  /** Every text splits into tokens in exactly one way. */
  lemma UniqueSplit(s: string, ts: seq<Token>)
    ensures (SourceOf(ts) == s && Grammatical(ts)) <==> ts == Tokens(s)
  {
    assert s[0..] == s;
    TokensAreASplit(s, 0);
    if SourceOf(ts) == s && Grammatical(ts) {
      SplitIsTokens(s, 0, ts);
    }
  }

  // ----- the expansion loop -----

  /** `Render(TokensFrom(s, j))` with one step of the recursion made visible. */
  function ExpandFrom(s: string, j: nat, mapping: string -> string): string
    decreases |s| - j
  {
    if j >= |s| then "" else Image(TokenAt(s, j), mapping) + ExpandFrom(s, After(s, j), mapping)
  }

  lemma {:induction false} ExpandFromIsRender(s: string, j: nat, mapping: string -> string)
    ensures ExpandFrom(s, j, mapping) == Render(TokensFrom(s, j), mapping)
    decreases |s| - j
  {
    if j < |s| {
      ExpandFromIsRender(s, After(s, j), mapping);
      assert TokensFrom(s, j)[1..] == TokensFrom(s, After(s, j));
    }
  }

  lemma {:induction false} ClosingShift(s: string, i: nat, u: string, d: nat, st: Scan)
    requires d <= |s| && u == s[d..]
    ensures Closing(s, i + d, st) == var k := Closing(u, i, st); if k == -1 then -1 else k + d
    decreases |u| - i
  {
    if i < |u| && !Closes(st, u[i]) {
      ClosingShift(s, i + 1, u, d, Next(st, u[i]));
    }
  }

  /** The token at a dollar sign, as `getContents` reports it. */
  lemma TokenByContents(s: string, j: nat)
    requires j + 1 < |s| && s[j] == '$'
    ensures var (name, w) := Contents(s[j + 1..]);
            && After(s, j) == j + w + 1
            && TokenAt(s, j) == (if w == 0 then Char('$') else if w == 1 then Kept
                                 else if w == 2 then Eaten else Ref(name))
            && (w > 2 <==> name != "")
            && (w == 1 ==> s[j..j + 2] == "${")
  {
    var u := s[j + 1..];
    assert s[j..j + 2] == [s[j], s[j + 1]];
    if u[0] == '{' {
      ClosingShift(s, 1, u, j + 1, START);
      var k := Closing(u, 1, START);
      assert k > 1 ==> u[1..k] == s[j + 2..k + j + 1];
    }
  }

  /** What the loop appends at a dollar sign for the contents found there. */
  function Piece(s: string, j: nat, name: string, w: nat, mapping: string -> string): string
    requires j + 1 < |s|
  {
    if name != "" then mapping(name)
    else if w == 1 then s[j..j + 2]
    else if w > 0 then ""
    else [s[j]]
  }

  lemma ExpandAtDollar(s: string, j: nat, name: string, w: nat, mapping: string -> string)
    requires j + 1 < |s| && s[j] == '$' && (name, w) == Contents(s[j + 1..])
    ensures j + w + 1 <= |s|
    ensures ExpandFrom(s, j, mapping) == Piece(s, j, name, w, mapping) + ExpandFrom(s, j + w + 1, mapping)
  {
    hide Contents, TokenAt, After;
    TokenByContents(s, j);
  }

  lemma ExpandAtPlain(s: string, j: nat, mapping: string -> string)
    requires j < |s| && !(s[j] == '$' && j + 1 < |s|)
    ensures ExpandFrom(s, j, mapping) == [s[j]] + ExpandFrom(s, j + 1, mapping)
  {
  }

  /** The loop from the state `(buf, i, j)` on: `buf` lags behind `j`, the text `s[i..j]` is still
      to be copied. */
  function LoopFrom(s: string, buf: string, i: nat, j: nat, mapping: string -> string): string
    requires i <= j
    decreases |s| - j
  {
    if j >= |s| then if i <= |s| then buf + s[i..] else buf
    else if s[j] == '$' && j + 1 < |s| then
      var (name, w) := Contents(s[j + 1..]);
      LoopFrom(s, buf + s[i..j] + Piece(s, j, name, w, mapping), j + w + 1, j + w + 1, mapping)
    else LoopFrom(s, buf, i, j + 1, mapping)
  }

  lemma Regroup(done: string, pending: string, piece: string, rest: string)
    ensures done + pending + (piece + rest) == done + (pending + piece) + rest
    ensures done + pending + (piece + rest) == done + pending + piece + "" + rest
  {
  }

  lemma DollarCase(buf: string, pending: string, piece: string, rest: string, all: string, loop: string)
    requires all == piece + rest && loop == buf + pending + piece + "" + rest
    ensures loop == buf + pending + all
  {
    Regroup(buf, pending, piece, rest);
  }

  lemma PlainCase(buf: string, s: string, i: nat, j: nat, rest: string, all: string, loop: string)
    requires i <= j < |s|
    requires all == [s[j]] + rest && loop == buf + s[i..j + 1] + rest
    ensures loop == buf + s[i..j] + all
  {
    Regroup(buf, s[i..j], [s[j]], rest);
    assert s[i..j] + [s[j]] == s[i..j + 1];
  }

  lemma LoopDollar(s: string, buf: string, i: nat, j: nat, name: string, w: nat, mapping: string -> string)
    requires i <= j && j + 1 < |s| && s[j] == '$' && (name, w) == Contents(s[j + 1..])
    ensures j + w + 1 <= |s|
    ensures var k := j + w + 1;
            LoopFrom(s, buf, i, j, mapping)
            == LoopFrom(s, buf + s[i..j] + Piece(s, j, name, w, mapping), k, k, mapping)
  {
    hide TokenAt, After, Piece;
    ContentsByGrammar(s[j + 1..]);
  }

  lemma LoopPlain(s: string, buf: string, i: nat, j: nat, mapping: string -> string)
    requires i <= j < |s| && !(s[j] == '$' && j + 1 < |s|)
    ensures LoopFrom(s, buf, i, j, mapping) == LoopFrom(s, buf, i, j + 1, mapping)
  {
  }

  lemma LoopEnd(s: string, buf: string, i: nat, mapping: string -> string)
    requires i <= |s|
    ensures LoopFrom(s, buf, i, |s|, mapping) == buf + s[i..]
    ensures buf + s[i..] == buf + s[i..|s|] + ExpandFrom(s, |s|, mapping)
  {
    assert s[i..] == s[i..|s|];
  }

  lemma {:induction false} LoopFromIsExpand(s: string, buf: string, i: nat, j: nat, mapping: string -> string)
    requires i <= j <= |s|
    ensures LoopFrom(s, buf, i, j, mapping) == buf + s[i..j] + ExpandFrom(s, j, mapping)
    decreases |s| - j
  {
    hide Contents, Piece, LoopFrom, ExpandFrom;
    if j == |s| {
      LoopEnd(s, buf, i, mapping);
    } else if s[j] == '$' && j + 1 < |s| {
      var (name, w) := Contents(s[j + 1..]);
      var k, piece := j + w + 1, Piece(s, j, name, w, mapping);
      ExpandAtDollar(s, j, name, w, mapping);
      LoopDollar(s, buf, i, j, name, w, mapping);
      LoopFromIsExpand(s, buf + s[i..j] + piece, k, k, mapping);
      assert s[k..k] == "";
      DollarCase(buf, s[i..j], piece, ExpandFrom(s, k, mapping), ExpandFrom(s, j, mapping),
                 LoopFrom(s, buf, i, j, mapping));
    } else {
      ExpandAtPlain(s, j, mapping);
      LoopPlain(s, buf, i, j, mapping);
      LoopFromIsExpand(s, buf, i, j + 1, mapping);
      PlainCase(buf, s, i, j, ExpandFrom(s, j + 1, mapping), ExpandFrom(s, j, mapping),
                LoopFrom(s, buf, i, j, mapping));
    }
  }

  lemma LoopIsExpand(s: string, mapping: string -> string)
    ensures LoopFrom(s, "", 0, 0, mapping) == Expand(s, mapping)
  {
    LoopFromIsExpand(s, "", 0, 0, mapping);
    ExpandFromIsRender(s, 0, mapping);
    assert "" + s[0..0] + ExpandFrom(s, 0, mapping) == ExpandFrom(s, 0, mapping);
  }

  method ExpandLoop(s: string, mapping: string -> string) returns (out: string)
    ensures out == Expand(s, mapping)
  {
    hide Expand, Contents, LoopFrom;
    LoopIsExpand(s, mapping);
    var buf: string := "";
    var started := false;
    var i, j := 0, 0;
    while j < |s|
      invariant 0 <= i <= j <= |s|
      invariant !started ==> i == 0 && buf == ""
      invariant LoopFrom(s, buf, i, j, mapping) == Expand(s, mapping)
    {
      if s[j] == '$' && j + 1 < |s| {
        ghost var done := buf;
        started := true;
        buf := buf + s[i..j];
        var name, w := GetContents(s[j + 1..]);
        LoopDollar(s, done, i, j, name, w, mapping);
        if name == "" {
          if w == 1 {
            buf := buf + s[j..j + 2];
          } else if w > 0 {
            assert buf == buf + "";
          } else {
            buf := buf + [s[j]];
          }
        } else {
          buf := buf + mapping(name);
        }
        j := j + w;
        i := j + 1;
      } else {
        LoopPlain(s, buf, i, j, mapping);
      }
      j := j + 1;
    }
    LoopEnd(s, buf, i, mapping);
    if !started {
      assert buf + s[i..] == s;
      return s;
    }
    return buf + s[i..];
  }

  // ----- laws of expansion -----

  /** Every opener at `j` or later is closed inside `s`. */
  predicate AllClosedFrom(s: string, j: nat)
    decreases |s| - j
  {
    j >= |s| || (TokenAt(s, j) != Kept && AllClosedFrom(s, After(s, j)))
  }

  predicate AllClosed(s: string) {
    AllClosedFrom(s, 0)
  }

  /** The end of `a` and the start of `b` do not form an opener. */
  predicate NoSeam(a: string, b: string) {
    !(|a| > 0 && |b| > 0 && a[|a| - 1] == '$' && b[0] == '{')
  }

  lemma {:induction false} ClosingExtends(a: string, i: nat, st: Scan, b: string)
    requires Closing(a, i, st) >= 0
    ensures Closing(a + b, i, st) == Closing(a, i, st)
    decreases |a| - i
  {
    if !Closes(st, a[i]) {
      ClosingExtends(a, i + 1, Next(st, a[i]), b);
    }
  }

  lemma TokenExtends(a: string, j: nat, b: string)
    requires j < |a| && TokenAt(a, j) != Kept && NoSeam(a, b)
    ensures TokenAt(a + b, j) == TokenAt(a, j) && After(a + b, j) == After(a, j)
  {
    if a[j] == '$' && j + 1 < |a| && a[j + 1] == '{' {
      ClosingExtends(a, j + 2, START, b);
    }
  }

  lemma {:induction false} TokensExtend(a: string, j: nat, b: string)
    requires j <= |a| && AllClosedFrom(a, j) && NoSeam(a, b)
    ensures TokensFrom(a + b, j) == TokensFrom(a, j) + TokensFrom(a + b, |a|)
    decreases |a| - j
  {
    hide TokenAt, After;
    if j < |a| {
      TokenExtends(a, j, b);
      TokensExtend(a, After(a, j), b);
    }
  }

  lemma TokenShift(s: string, d: nat, u: string, j: nat)
    requires d <= |s| && u == s[d..] && j < |u|
    ensures TokenAt(s, j + d) == TokenAt(u, j) && After(s, j + d) == After(u, j) + d
  {
    hide Closing;
    if j + 2 <= |u| {
      ClosingShift(s, j + 2, u, d, START);
    }
  }

  lemma {:induction false} TokensShift(s: string, d: nat, u: string, j: nat)
    requires d <= |s| && u == s[d..]
    ensures TokensFrom(s, j + d) == TokensFrom(u, j)
    decreases |u| - j
  {
    hide TokenAt, After;
    if j < |u| {
      TokenShift(s, d, u, j);
      TokensShift(s, d, u, After(u, j));
    }
  }

  lemma TokensConcat(a: string, b: string)
    requires AllClosed(a) && NoSeam(a, b)
    ensures Tokens(a + b) == Tokens(a) + Tokens(b)
  {
    hide TokensFrom, AllClosedFrom;
    TokensExtend(a, 0, b);
    assert (a + b)[|a|..] == b;
    TokensShift(a + b, |a|, b, 0);
  }

  lemma {:induction false} RenderConcat(ts: seq<Token>, us: seq<Token>, mapping: string -> string)
    ensures Render(ts + us, mapping) == Render(ts, mapping) + Render(us, mapping)
  {
    if |ts| == 0 {
      assert ts + us == us;
    } else {
      assert (ts + us)[1..] == ts[1..] + us;
      RenderConcat(ts[1..], us, mapping);
    }
  }

  /** Expansion distributes over concatenation when the cut does not fall inside an opener. */
  lemma ExpandConcat(a: string, b: string, mapping: string -> string)
    requires AllClosed(a) && NoSeam(a, b)
    ensures Expand(a + b, mapping) == Expand(a, mapping) + Expand(b, mapping)
  {
    TokensConcat(a, b);
    RenderConcat(Tokens(a), Tokens(b), mapping);
  }

  predicate OpenerAt(s: string, i: int) {
    0 <= i < |s| - 1 && s[i] == '$' && s[i + 1] == '{'
  }

  predicate HasOpener(s: string) {
    exists i | 0 <= i < |s| :: OpenerAt(s, i)
  }

  lemma OpenerIs(s: string, i: nat)
    requires i <= |s|
    ensures OpenerAt(s, i) <==> "${" <= s[i..]
  {
    assert "${"[0] == '$' && "${"[1] == '{';
    if |s| >= i + 2 {
      assert s[i..][0] == s[i] && s[i..][1] == s[i + 1];
    }
  }

  lemma PlainToken(s: string, j: nat)
    requires j < |s| && !OpenerAt(s, j)
    ensures TokenAt(s, j) == Char(s[j]) && After(s, j) == j + 1
  {
  }

  lemma {:induction false} PlainFrom(s: string, j: nat, mapping: string -> string)
    requires !HasOpener(s) && j <= |s|
    ensures Render(TokensFrom(s, j), mapping) == s[j..] && AllClosedFrom(s, j)
    decreases |s| - j
  {
    hide TokenAt, After;
    if j < |s| {
      assert !OpenerAt(s, j);
      PlainToken(s, j);
      PlainFrom(s, j + 1, mapping);
      var ts := TokensFrom(s, j);
      assert ts[1..] == TokensFrom(s, j + 1);
    }
  }

  /** A text without `${` expands to itself. */
  lemma ExpandPlain(s: string, mapping: string -> string)
    requires !HasOpener(s)
    ensures Expand(s, mapping) == s && AllClosed(s)
  {
    PlainFrom(s, 0, mapping);
  }

  lemma NextToken(s: string, t: Token, rest: string, mapping: string -> string)
    requires s == Source(t) + rest && Fits(t, rest)
    ensures Expand(s, mapping) == Image(t, mapping) + Expand(rest, mapping)
  {
    hide Source, Fits, Tokens, Image;
    var ts := [t] + Tokens(rest);
    UniqueSplit(rest, Tokens(rest));
    assert ts[1..] == Tokens(rest);
    UniqueSplit(s, ts);
  }

  /** What stands at the start of a text decides: any byte that does not begin an opener stays, an opener that nothing
      closes stays, `${}` vanishes, and a reference gives way to what its name is mapped to. The rest is expanded as it
      would be alone, and with `GetContents` this tells the expansion of every text. */
  lemma ExpandSteps(c: char, name: string, rest: string, mapping: string -> string)
    ensures Expand("", mapping) == ""
    ensures !(c == '$' && "{" <= rest) ==> Expand([c] + rest, mapping) == [c] + Expand(rest, mapping)
    ensures NeverCloses(rest) ==> Expand("${" + rest, mapping) == "${" + Expand(rest, mapping)
    ensures Expand("${}" + rest, mapping) == Expand(rest, mapping)
    ensures name != "" && Balanced(name) ==>
              Expand("${" + name + "}" + rest, mapping) == mapping(name) + Expand(rest, mapping)
  {
    hide Expand, Balanced, NeverCloses;
    ExpandPlain("", mapping);
    if !(c == '$' && "{" <= rest) {
      NextToken([c] + rest, Char(c), rest, mapping);
    }
    if NeverCloses(rest) {
      NextToken("${" + rest, Kept, rest, mapping);
    }
    NextToken("${}" + rest, Eaten, rest, mapping);
    assert "" + Expand(rest, mapping) == Expand(rest, mapping);
    if name != "" && Balanced(name) {
      NextToken("${" + name + "}" + rest, Ref(name), rest, mapping);
    }
  }

  lemma OneReference(n: string, mapping: string -> string)
    requires n != "" && Balanced(n)
    ensures Expand("${" + n + "}", mapping) == mapping(n)
  {
    hide Expand, Balanced;
    ExpandSteps('$', n, "", mapping);
    assert "${" + n + "}" + "" == "${" + n + "}" && mapping(n) + "" == mapping(n);
  }
}
