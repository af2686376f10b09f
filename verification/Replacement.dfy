/** Folding values back into references: `replaceStringParam` of pkg/config/internal.go.

    The rewrite works on raw text with `strings.Index` and `strings.ReplaceAll`. It is shown to
    be a rewrite of the token list: some runs of plain characters that spell the value of a key
    become a reference to that key, everything else stays. */
module Replacement {
  import opened Expansion
  import opened GoText

  datatype Outcome = Text(s: string) | SliceOutOfRange

  function RefName(key: string): string {
    "config:" + key
  }

  function RefText(key: string): string {
    "${" + RefName(key) + "}"
  }

  /** `strings.ReplaceAll` from byte `i` on. An empty `sub` matches before every rune and at the end. */
  function ReplaceAllFrom(t: string, i: nat, sub: string, ref: string): string
    decreases |t| - i
  {
    if |sub| == 0 then
      if i >= |t| then ref else ref + t[i..RuneEnd(t, i)] + ReplaceAllFrom(t, RuneEnd(t, i), sub, ref)
    else if i + |sub| <= |t| && t[i..i + |sub|] == sub then ref + ReplaceAllFrom(t, i + |sub|, sub, ref)
    else if i >= |t| then ""
    else [t[i]] + ReplaceAllFrom(t, i + 1, sub, ref)
  }

  /** The first `${` at `i` or later, or -1. */
  function IndexOpener(s: string, i: nat): (k: int)
    ensures k == -1 || (i <= k < |s| && OpenerAt(s, k))
    ensures forall m :: i <= m < (if k == -1 then |s| else k) ==> !OpenerAt(s, m)
    decreases |s| - i
  {
    if i >= |s| then -1 else if OpenerAt(s, i) then i else IndexOpener(s, i + 1)
  }

  /** The loop of `replaceStringParam` over what remains of a value. The slice from `start` to
      `end + 1` does not exist when the brace lies before the opener by more than one byte. */
  function Fold(remaining: string, sub: string, ref: string): Outcome
    decreases |remaining|
  {
    var start, end := IndexOpener(remaining, 0), IndexFrom(remaining, 0, '}');
    if start == -1 || end == -1 then Text(remaining)
    else if end + 1 < start then SliceOutOfRange
    else
      match Fold(remaining[end + 1..], sub, ref)
      case SliceOutOfRange => SliceOutOfRange
      case Text(rest) =>
        Text(ReplaceAllFrom(remaining[..start], 0, sub, ref) + remaining[start..end + 1] + rest)
  }

  function FoldOne(value: string, sub: string, key: string): Outcome {
    if !HasOpener(value) then Text(ReplaceAllFrom(value, 0, sub, RefText(key)))
    else Fold(value, sub, RefText(key))
  }

  /** All replacements in turn; `subs(key)` is the value of the key when the rewrite happens. */
  function FoldKeys(value: string, keys: seq<string>, subs: string -> string): Outcome
    decreases |keys|
  {
    if |keys| == 0 then Text(value)
    else
      match FoldOne(value, subs(keys[0]), keys[0])
      case SliceOutOfRange => SliceOutOfRange
      case Text(v) => FoldKeys(v, keys[1..], subs)
  }

  function Prepend(done: string, o: Outcome): Outcome {
    match o
    case Text(s) => Text(done + s)
    case SliceOutOfRange => o
  }

  method ReplaceStringParam(value: string, keys: seq<string>, subs: string -> string) returns (r: Outcome)
    ensures r == FoldKeys(value, keys, subs)
  {
    var v := value;
    for n := 0 to |keys|
      invariant FoldKeys(v, keys[n..], subs) == FoldKeys(value, keys, subs)
    {
      var sub, ref := subs(keys[n]), RefText(keys[n]);
      assert keys[n..][1..] == keys[n + 1..];
      if !HasOpener(v) {
        v := ReplaceAllFrom(v, 0, sub, ref);
        continue;
      }
      var o := ReplaceOne(v, sub, ref);
      if o == SliceOutOfRange {
        return SliceOutOfRange;
      }
      v := o.s;
    }
    return Text(v);
  }

  /** The inner loop: `newValue` grows while `remaining` shrinks. */
  method ReplaceOne(value: string, sub: string, ref: string) returns (r: Outcome)
    ensures r == Fold(value, sub, ref)
  {
    var newValue, remaining := "", value;
    assert Prepend("", Fold(value, sub, ref)) == Fold(value, sub, ref);
    while true
      invariant Prepend(newValue, Fold(remaining, sub, ref)) == Fold(value, sub, ref)
      decreases |remaining|
    {
      var start, end := IndexOpener(remaining, 0), IndexFrom(remaining, 0, '}');
      if start == -1 || end == -1 {
        return Text(newValue + remaining);
      }
      if end + 1 < start {
        return SliceOutOfRange;
      }
      PrependStep(newValue, ReplaceAllFrom(remaining[..start], 0, sub, ref), remaining[start..end + 1],
                  Fold(remaining[end + 1..], sub, ref));
      newValue := newValue + ReplaceAllFrom(remaining[..start], 0, sub, ref);
      newValue := newValue + remaining[start..end + 1];
      remaining := remaining[end + 1..];
    }
  }

  lemma PrependStep(done: string, a: string, b: string, o: Outcome)
    ensures Prepend(done, Prepend(a + b, o)) == Prepend(done + a + b, o)
  {
    if o.Text? {
      assert done + (a + b + o.s) == done + a + b + o.s;
    }
  }

  // ----- the rewrite as a rewrite of token lists -----

  /** A token that stays, or a run of characters folded into a reference. */
  datatype Mark = Same(t: Token) | Folded

  function CharsOf(s: string): (ts: seq<Token>)
    ensures |ts| == |s| && forall i | 0 <= i < |s| :: ts[i] == Char(s[i])
  {
    seq(|s|, i requires 0 <= i < |s| => Char(s[i]))
  }

  function Before(ms: seq<Mark>, sub: string): seq<Token> {
    if |ms| == 0 then []
    else (match ms[0] case Same(t) => [t] case Folded => CharsOf(sub)) + Before(ms[1..], sub)
  }

  function Folding(ms: seq<Mark>, key: string): (ts: seq<Token>)
    ensures |ts| == |ms|
    ensures forall i | 0 <= i < |ms| :: ts[i] == match ms[i] case Same(t) => t case Folded => Ref(RefName(key))
  {
    seq(|ms|, i requires 0 <= i < |ms| => match ms[i] case Same(t) => t case Folded => Ref(RefName(key)))
  }

  function SameAll(ts: seq<Token>): (ms: seq<Mark>)
    ensures |ms| == |ts| && forall i | 0 <= i < |ts| :: ms[i] == Same(ts[i])
  {
    seq(|ts|, i requires 0 <= i < |ts| => Same(ts[i]))
  }

  /** Where `ReplaceAllFrom` folds. */
  function MarkText(t: string, i: nat, sub: string): seq<Mark>
    requires i <= |t|
    decreases |t| - i
  {
    if |sub| == 0 then
      if i == |t| then [Folded] else [Folded] + SameAll(CharsOf(t[i..RuneEnd(t, i)])) + MarkText(t, RuneEnd(t, i), sub)
    else if i + |sub| <= |t| && t[i..i + |sub|] == sub then [Folded] + MarkText(t, i + |sub|, sub)
    else if i == |t| then []
    else [Same(Char(t[i]))] + MarkText(t, i + 1, sub)
  }

  lemma {:induction false} BeforeConcat(ms: seq<Mark>, ns: seq<Mark>, sub: string)
    ensures Before(ms + ns, sub) == Before(ms, sub) + Before(ns, sub)
  {
    if |ms| == 0 {
      assert ms + ns == ns;
    } else {
      assert (ms + ns)[1..] == ms[1..] + ns;
      BeforeConcat(ms[1..], ns, sub);
    }
  }

  lemma {:induction false} BeforeSame(ts: seq<Token>, sub: string)
    ensures Before(SameAll(ts), sub) == ts
  {
    if |ts| > 0 {
      assert SameAll(ts)[1..] == SameAll(ts[1..]);
      BeforeSame(ts[1..], sub);
      assert ts == [ts[0]] + ts[1..];
    }
  }

  lemma {:induction false} SourceConcat(ts: seq<Token>, us: seq<Token>)
    ensures SourceOf(ts + us) == SourceOf(ts) + SourceOf(us)
  {
    if |ts| == 0 {
      assert ts + us == us;
    } else {
      assert (ts + us)[1..] == ts[1..] + us;
      SourceConcat(ts[1..], us);
    }
  }

  lemma {:induction false} SourceOfChars(s: string)
    ensures SourceOf(CharsOf(s)) == s
  {
    if |s| > 0 {
      assert CharsOf(s)[1..] == CharsOf(s[1..]);
      SourceOfChars(s[1..]);
      assert s == [s[0]] + s[1..];
    }
  }

  lemma FoldingConcat(ms: seq<Mark>, ns: seq<Mark>, key: string)
    ensures Folding(ms + ns, key) == Folding(ms, key) + Folding(ns, key)
    ensures SourceOf(Folding(ms + ns, key)) == SourceOf(Folding(ms, key)) + SourceOf(Folding(ns, key))
  {
    hide SourceOf, Folding;
    var ts, us := Folding(ms, key), Folding(ns, key);
    assert Folding(ms + ns, key) == ts + us;
    SourceConcat(ts, us);
  }

  lemma FoldingSame(ts: seq<Token>, key: string)
    ensures Folding(SameAll(ts), key) == ts
  {
  }

  lemma FoldingFolded(key: string)
    ensures SourceOf(Folding([Folded], key)) == RefText(key)
  {
    var ts := Folding([Folded], key);
    assert ts == [Ref(RefName(key))];
    assert SourceOf(ts[1..]) == "";
  }

  /** `ms` spells `a` before the rewrite and `x` after it. */
  ghost predicate Spells(ms: seq<Mark>, sub: string, key: string, a: string, x: string) {
    Before(ms, sub) == CharsOf(a) && SourceOf(Folding(ms, key)) == x
  }

  lemma MarkStep(ms: seq<Mark>, ns: seq<Mark>, sub: string, key: string, a: string, b: string, x: string, y: string)
    requires Spells(ms, sub, key, a, x) && Spells(ns, sub, key, b, y)
    ensures Spells(ms + ns, sub, key, a + b, x + y)
  {
    hide Before, Folding, SourceOf;
    BeforeConcat(ms, ns, sub);
    FoldingConcat(ms, ns, key);
    assert CharsOf(a) + CharsOf(b) == CharsOf(a + b);
  }

  lemma MarkFolded(sub: string, key: string)
    ensures Spells([Folded], sub, key, sub, RefText(key))
  {
    assert Before([Folded][1..], sub) == [];
    FoldingFolded(key);
  }

  lemma MarkSame(a: string, sub: string, key: string)
    ensures Spells(SameAll(CharsOf(a)), sub, key, a, a)
  {
    BeforeSame(CharsOf(a), sub);
    FoldingSame(CharsOf(a), key);
    SourceOfChars(a);
  }

  lemma {:induction false} MarkEmptyMeaning(t: string, i: nat, key: string)
    requires i <= |t|
    ensures Spells(MarkText(t, i, ""), "", key, t[i..], ReplaceAllFrom(t, i, "", RefText(key)))
    decreases |t| - i
  {
    hide Spells, RefText, RuneEnd, SameAll, CharsOf;
    var ref := RefText(key);
    MarkFolded("", key);
    if i == |t| {
      assert t[i..] == "";
    } else {
      var k := RuneEnd(t, i);
      var ms := SameAll(CharsOf(t[i..k]));
      MarkEmptyMeaning(t, k, key);
      MarkSame(t[i..k], "", key);
      MarkStep([Folded], ms, "", key, "", t[i..k], ref, t[i..k]);
      MarkStep([Folded] + ms, MarkText(t, k, ""), "", key, "" + t[i..k], t[k..], ref + t[i..k],
               ReplaceAllFrom(t, k, "", ref));
      assert "" + t[i..k] + t[k..] == t[i..];
    }
  }

  lemma NoMarks(sub: string, key: string)
    ensures Spells([], sub, key, "", "")
  {
  }

  lemma OneMark(c: char, sub: string, key: string)
    ensures Spells([Same(Char(c))], sub, key, [c], [c])
  {
    MarkSame([c], sub, key);
    assert SameAll(CharsOf([c])) == [Same(Char(c))];
  }

  lemma MarkOneChar(t: string, i: nat, sub: string, key: string, ns: seq<Mark>, y: string)
    requires i < |t| && Spells(ns, sub, key, t[i + 1..], y)
    ensures Spells([Same(Char(t[i]))] + ns, sub, key, t[i..], [t[i]] + y)
  {
    OneMark(t[i], sub, key);
    MarkStep([Same(Char(t[i]))], ns, sub, key, [t[i]], t[i + 1..], [t[i]], y);
    assert [t[i]] + t[i + 1..] == t[i..];
  }

  lemma MarkOneFold(t: string, i: nat, sub: string, key: string, ns: seq<Mark>, y: string)
    requires i + |sub| <= |t| && t[i..i + |sub|] == sub && Spells(ns, sub, key, t[i + |sub|..], y)
    ensures Spells([Folded] + ns, sub, key, t[i..], RefText(key) + y)
  {
    hide RefText;
    MarkFolded(sub, key);
    MarkStep([Folded], ns, sub, key, sub, t[i + |sub|..], RefText(key), y);
    assert sub + t[i + |sub|..] == t[i..];
  }

  lemma {:induction false} MarkTextMeaning(t: string, i: nat, sub: string, key: string)
    requires i <= |t|
    ensures Spells(MarkText(t, i, sub), sub, key, t[i..], ReplaceAllFrom(t, i, sub, RefText(key)))
    decreases |t| - i
  {
    hide Spells, RefText;
    if |sub| == 0 {
      assert sub == "";
      MarkEmptyMeaning(t, i, key);
    } else if i + |sub| <= |t| && t[i..i + |sub|] == sub {
      var k := i + |sub|;
      MarkTextMeaning(t, k, sub, key);
      MarkOneFold(t, i, sub, key, MarkText(t, k, sub), ReplaceAllFrom(t, k, sub, RefText(key)));
    } else if i == |t| {
      NoMarks(sub, key);
      assert t[i..] == "";
    } else {
      MarkTextMeaning(t, i + 1, sub, key);
      MarkOneChar(t, i, sub, key, MarkText(t, i + 1, sub), ReplaceAllFrom(t, i + 1, sub, RefText(key)));
    }
  }

  // ----- what a rewrite keeps of its neighbours -----

  predicate Seamless(ts: seq<Token>) {
    forall i | 0 <= i < |ts| - 1 :: !(ts[i] == Char('$') && ts[i + 1] == Char('{'))
  }

  lemma {:induction false} TokensSeamless(s: string, j: nat)
    ensures Seamless(TokensFrom(s, j))
    decreases |s| - j
  {
    if j < |s| {
      TokensSeamless(s, After(s, j));
    }
  }

  /** Where the token of a mark stands before the rewrite; two kept neighbours were neighbours. */
  lemma {:induction false} BeforeHas(ms: seq<Mark>, sub: string, i: nat) returns (k: nat)
    requires i < |ms| && ms[i].Same?
    ensures k < |Before(ms, sub)| && Before(ms, sub)[k] == ms[i].t
    ensures i + 1 < |ms| && ms[i + 1].Same? ==>
              k + 1 < |Before(ms, sub)| && Before(ms, sub)[k + 1] == ms[i + 1].t
  {
    if i == 0 {
      k := 0;
      if |ms| > 1 && ms[1].Same? {
        assert ms[1..][0] == ms[1];
      }
    } else {
      var d := if ms[0].Same? then 1 else |sub|;
      k := BeforeHas(ms[1..], sub, i - 1);
      k := k + d;
    }
  }

  lemma FoldingSeamless(ms: seq<Mark>, sub: string, key: string)
    requires Seamless(Before(ms, sub))
    ensures Seamless(Folding(ms, key))
  {
    hide Before;
    forall i | 0 <= i < |ms| - 1
      ensures !(Folding(ms, key)[i] == Char('$') && Folding(ms, key)[i + 1] == Char('{'))
    {
      if ms[i].Same? {
        var k := BeforeHas(ms, sub, i);
      }
    }
  }

  lemma {:induction false} PlainTokens(a: string, j: nat)
    requires !HasOpener(a) && j <= |a|
    ensures TokensFrom(a, j) == CharsOf(a[j..]) && AllClosedFrom(a, j)
    decreases |a| - j
  {
    if j < |a| {
      assert !OpenerAt(a, j);
      PlainTokens(a, j + 1);
      assert CharsOf(a[j..]) == [Char(a[j])] + CharsOf(a[j + 1..]);
    }
  }

  // ----- keys -----

  /** Names a reference may have without confusing the search for the first closing brace. */
  predicate FlatName(n: string) {
    n != "" && Balanced(n) && '}' !in n
  }

  /** Keys without braces and backslashes make good references. */
  lemma {:induction false} PlainKey(key: string)
    requires '{' !in key && '}' !in key && '\\' !in key
    ensures FlatName(RefName(key))
  {
    ClosedPlain(RefName(key), 0);
  }

  lemma {:induction false} ClosedPlain(n: string, i: nat)
    requires i <= |n| && '{' !in n && '}' !in n && '\\' !in n
    ensures Closed(n[i..], START)
    decreases |n| - i
  {
    if i < |n| {
      assert n[i] in n;
      assert n[i..][1..] == n[i + 1..];
      ClosedPlain(n, i + 1);
    }
  }

  // ----- one turn of the loop -----

  /** One turn of the loop, given where the first opener and the first brace are. */
  lemma FoldUnit(s: string, start: nat, end: nat, sub: string, ref: string)
    requires start < |s| && OpenerAt(s, start) && forall m | 0 <= m < start :: !OpenerAt(s, m)
    requires end < |s| && s[end] == '}' && forall m | 0 <= m < end :: s[m] != '}'
    requires start <= end + 1
    ensures Fold(s, sub, ref)
            == Prepend(ReplaceAllFrom(s[..start], 0, sub, ref) + s[start..end + 1], Fold(s[end + 1..], sub, ref))
  {
    hide ReplaceAllFrom, IndexOpener, IndexFrom;
    var k, e := IndexOpener(s, 0), IndexFrom(s, 0, '}');
    assert k == start && e == end;
  }

  // ----- what is replaced -----

  /** `sub` lies in `t` at `i`. */
  predicate Occurs(t: string, i: nat, sub: string) {
    i + |sub| <= |t| && t[i..i + |sub|] == sub
  }

  lemma RuneShift(p: string, u: string, i: nat)
    requires i < |u|
    ensures var t, j := p + u, |p| + i;
            RuneEnd(t, j) == |p| + RuneEnd(u, i) && t[j..RuneEnd(t, j)] == u[i..RuneEnd(u, i)]
  {
  }

  lemma ReplaceAtEnd(t: string, sub: string, ref: string)
    requires sub != ""
    ensures ReplaceAllFrom(t, |t|, sub, ref) == ""
  {
  }

  lemma ReplaceHere(t: string, i: nat, sub: string, ref: string)
    requires sub != "" && Occurs(t, i, sub)
    ensures ReplaceAllFrom(t, i, sub, ref) == ref + ReplaceAllFrom(t, i + |sub|, sub, ref)
  {
  }

  lemma ReplaceNotHere(t: string, i: nat, sub: string, ref: string)
    requires sub != "" && i < |t| && !Occurs(t, i, sub)
    ensures ReplaceAllFrom(t, i, sub, ref) == [t[i]] + ReplaceAllFrom(t, i + 1, sub, ref)
  {
  }

  lemma OccursShift(p: string, u: string, i: nat, sub: string)
    ensures Occurs(p + u, |p| + i, sub) <==> Occurs(u, i, sub)
  {
    if i + |sub| <= |u| {
      assert (p + u)[|p| + i..|p| + i + |sub|] == u[i..i + |sub|];
    }
  }

  lemma {:induction false} ReplaceShift(p: string, u: string, i: nat, sub: string, ref: string)
    requires sub != "" && i <= |u|
    ensures ReplaceAllFrom(p + u, |p| + i, sub, ref) == ReplaceAllFrom(u, i, sub, ref)
    decreases |u| - i
  {
    hide ReplaceAllFrom, Occurs;
    var t := p + u;
    OccursShift(p, u, i, sub);
    if Occurs(u, i, sub) {
      OccursFits(u, i, sub);
      ReplaceHere(u, i, sub, ref);
      ReplaceHere(t, |p| + i, sub, ref);
      ReplaceShift(p, u, i + |sub|, sub, ref);
    } else if i < |u| {
      ReplaceNotHere(u, i, sub, ref);
      ReplaceNotHere(t, |p| + i, sub, ref);
      ReplaceShift(p, u, i + 1, sub, ref);
    } else {
      ReplaceAtEnd(u, sub, ref);
      ReplaceAtEnd(t, sub, ref);
    }
  }

  lemma OccursFits(t: string, i: nat, sub: string)
    requires Occurs(t, i, sub)
    ensures i + |sub| <= |t|
  {
  }

  lemma EmptyHere(t: string, i: nat, ref: string)
    requires i < |t|
    ensures ReplaceAllFrom(t, i, "", ref) == ref + t[i..RuneEnd(t, i)] + ReplaceAllFrom(t, RuneEnd(t, i), "", ref)
  {
  }

  lemma EmptyAtEnd(t: string, ref: string)
    ensures ReplaceAllFrom(t, |t|, "", ref) == ref
  {
  }

  lemma {:induction false} ReplaceEmptyShift(p: string, u: string, i: nat, ref: string)
    requires i <= |u|
    ensures ReplaceAllFrom(p + u, |p| + i, "", ref) == ReplaceAllFrom(u, i, "", ref)
    decreases |u| - i
  {
    hide RuneEnd, ReplaceAllFrom;
    var t := p + u;
    if i < |u| {
      var k := RuneEnd(u, i);
      EmptyHere(u, i, ref);
      EmptyHere(t, |p| + i, ref);
      RuneShift(p, u, i);
      ReplaceEmptyShift(p, u, k, ref);
    } else {
      EmptyAtEnd(u, ref);
      EmptyAtEnd(t, ref);
    }
  }

  /** Up to the next occurrence everything stays. */
  lemma {:induction false} ReplaceUpTo(t: string, i: nat, k: nat, sub: string, ref: string)
    requires sub != "" && i <= k <= |t| && forall m: nat | i <= m < k :: !Occurs(t, m, sub)
    ensures ReplaceAllFrom(t, i, sub, ref) == t[i..k] + ReplaceAllFrom(t, k, sub, ref)
    decreases k - i
  {
    hide ReplaceAllFrom, Occurs;
    if i < k {
      ReplaceNotHere(t, i, sub, ref);
      ReplaceUpTo(t, i + 1, k, sub, ref);
      assert t[i..k] == [t[i]] + t[i + 1..k];
    }
  }

  /** A text without `sub` stays as it is; the first occurrence gives way to `ref`, and behind it the search begins
      anew. */
  lemma ReplaceSteps(a: string, sub: string, b: string, ref: string)
    requires sub != ""
    ensures (forall i: nat :: !Occurs(a, i, sub)) ==> ReplaceAllFrom(a, 0, sub, ref) == a
    ensures (forall i: nat | i < |a| :: !Occurs(a + sub + b, i, sub)) ==>
              ReplaceAllFrom(a + sub + b, 0, sub, ref) == a + ref + ReplaceAllFrom(b, 0, sub, ref)
  {
    hide ReplaceAllFrom, Occurs;
    if forall i: nat :: !Occurs(a, i, sub) {
      ReplaceUpTo(a, 0, |a|, sub, ref);
      ReplaceAtEnd(a, sub, ref);
      assert a[0..|a|] + "" == a;
    }
    var t := a + sub + b;
    if forall i: nat | i < |a| :: !Occurs(t, i, sub) {
      ReplaceUpTo(t, 0, |a|, sub, ref);
      assert t[0..|a|] == a;
      assert Occurs(t, |a|, sub) by { OccursHere(a, sub, b); }
      ReplaceHere(t, |a|, sub, ref);
      assert t == (a + sub) + b;
      ReplaceShift(a + sub, b, 0, sub, ref);
      assert a + (ref + ReplaceAllFrom(b, 0, sub, ref)) == a + ref + ReplaceAllFrom(b, 0, sub, ref);
    }
  }

  lemma OccursHere(a: string, sub: string, b: string)
    ensures Occurs(a + sub + b, |a|, sub)
  {
  }

  /** An empty `sub` is found before every rune and at the end. */
  lemma ReplaceEmpty(t: string, ref: string)
    ensures ReplaceAllFrom("", 0, "", ref) == ref
    ensures t != "" ==> var k := RuneEnd(t, 0);
                        ReplaceAllFrom(t, 0, "", ref) == ref + t[..k] + ReplaceAllFrom(t[k..], 0, "", ref)
  {
    if t != "" {
      var k := RuneEnd(t, 0);
      assert t == t[..k] + t[k..];
      ReplaceEmptyShift(t[..k], t[k..], 0, ref);
    }
  }

  /** In a text with references, what stands before each of them is replaced, they themselves stay, and what stands
      behind the last of them stays too. */
  lemma FoldSteps(a: string, n: string, b: string, sub: string, key: string)
    requires !HasOpener(a) && '}' !in a && '}' !in n
    ensures FoldOne(a, sub, key) == Text(ReplaceAllFrom(a, 0, sub, RefText(key)))
    ensures FoldOne(a + ("${" + n + "}") + b, sub, key)
            == Prepend(ReplaceAllFrom(a, 0, sub, RefText(key)) + ("${" + n + "}"), Fold(b, sub, RefText(key)))
    ensures !HasOpener(b) || '}' !in b ==> Fold(b, sub, RefText(key)) == Text(b)
  {
    hide ReplaceAllFrom, RefText, Fold;
    var u := "${" + n + "}";
    var s := a + u + b;
    if !HasOpener(b) || '}' !in b {
      FoldNothing(b, sub, RefText(key));
    }
    FirstOpener(a, n, b);
    var end := |a| + |u| - 1;
    forall m | 0 <= m < end ensures s[m] != '}' {
      assert s[m] == if m < |a| then a[m] else u[m - |a|];
    }
    FoldUnit(s, |a|, end, sub, RefText(key));
    assert s[..|a|] == a && s[|a|..end + 1] == u && s[end + 1..] == b;
  }

  lemma FirstOpener(a: string, n: string, b: string)
    requires !HasOpener(a)
    ensures var s := a + ("${" + n + "}") + b; OpenerAt(s, |a|) && HasOpener(s) && forall m | 0 <= m < |a| :: !OpenerAt(s, m)
  {
    var s := a + ("${" + n + "}") + b;
    assert s[|a|] == '$' && s[|a| + 1] == '{';
    assert OpenerAt(s, |a|);
    forall m | 0 <= m < |a| ensures !OpenerAt(s, m) {
      assert !OpenerAt(a, m);
    }
  }

  lemma FoldNothing(b: string, sub: string, ref: string)
    requires !HasOpener(b) || '}' !in b
    ensures Fold(b, sub, ref) == Text(b)
  {
  }

  /** Replacements are applied one after the other. */
  lemma {:induction false} FoldKeysConcat(value: string, ks: seq<string>, ls: seq<string>, subs: string -> string)
    ensures FoldKeys(value, ks + ls, subs) ==
              match FoldKeys(value, ks, subs)
              case Text(v) => FoldKeys(v, ls, subs)
              case SliceOutOfRange => SliceOutOfRange
    decreases |ks|
  {
    if ks == [] {
      assert ks + ls == ls;
    } else {
      assert (ks + ls)[1..] == ks[1..] + ls;
      var o := FoldOne(value, subs(ks[0]), ks[0]);
      if o.Text? {
        FoldKeysConcat(o.s, ks[1..], ls, subs);
      }
    }
  }
}
