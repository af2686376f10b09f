/** The operations of Go's `strings` and `unicode/utf8` packages that the modelled code calls.
    A text is a sequence of bytes; a `char` stands for one byte. */
module GoText {

  function Byte(c: char): nat {
    c as int
  }

  predicate Continuation(s: string, i: nat) {
    i < |s| && 0x80 <= Byte(s[i]) <= 0xBF
  }

  /** The length of the well-formed UTF-8 sequence at `i`, or 0 if there is none
      (Unicode Standard, table 3-7). */
  function RuneLen(s: string, i: nat): (n: nat)
    requires i < |s|
    ensures i + n <= |s|
  {
    var b := Byte(s[i]);
    if b < 0x80 then 1
    else if !Continuation(s, i + 1) then 0
    else
      var c := Byte(s[i + 1]);
      if 0xC2 <= b <= 0xDF then 2
      else if !Continuation(s, i + 2) then 0
      else if (b == 0xE0 && c >= 0xA0) || (b == 0xED && c <= 0x9F) || (0xE1 <= b <= 0xEF && b != 0xED) then 3
      else if !Continuation(s, i + 3) then 0
      else if (b == 0xF0 && c >= 0x90) || (b == 0xF4 && c <= 0x8F) || 0xF1 <= b <= 0xF3 then 4
      else 0
  }

  /** `utf8.Valid` from byte `i` on. */
  predicate ValidFrom(s: string, i: nat)
    decreases |s| - i
  {
    i >= |s| || (RuneLen(s, i) > 0 && ValidFrom(s, i + RuneLen(s, i)))
  }

  /** How far one rune reaches; an ill-formed byte counts as one rune. */
  function RuneEnd(s: string, i: nat): (k: nat)
    requires i < |s|
    ensures i < k <= |s|
  {
    if RuneLen(s, i) == 0 then i + 1 else i + RuneLen(s, i)
  }

  /** The first `c` at `i` or later, or -1 (`strings.Index` for one byte). */
  function IndexFrom(s: string, i: nat, c: char): (k: int)
    ensures k == -1 || (i <= k < |s| && s[k] == c)
    ensures forall m :: i <= m < (if k == -1 then |s| else k) ==> s[m] != c
    decreases |s| - i
  {
    if i >= |s| then -1 else if s[i] == c then i else IndexFrom(s, i + 1, c)
  }

  /** The last `c` before `i`, or -1 (`strings.LastIndex`). */
  function LastIndexBefore(s: string, i: nat, c: char): (k: int)
    requires i <= |s|
    ensures k == -1 || (0 <= k < i && s[k] == c)
    ensures forall m :: (if k == -1 then 0 else k + 1) <= m < i ==> s[m] != c
  {
    if i == 0 then -1 else if s[i - 1] == c then i - 1 else LastIndexBefore(s, i - 1, c)
  }

  predicate IsSpace(c: char) {
    c == ' ' || 9 <= Byte(c) <= 13
  }

  function TrimLeft(s: string): string {
    if |s| > 0 && IsSpace(s[0]) then TrimLeft(s[1..]) else s
  }

  function TrimRight(s: string): string {
    if |s| > 0 && IsSpace(s[|s| - 1]) then TrimRight(s[..|s| - 1]) else s
  }

  /** `strings.TrimSpace`, for ASCII white space. */
  function TrimSpace(s: string): string {
    TrimRight(TrimLeft(s))
  }

  predicate White(s: string) {
    forall i | 0 <= i < |s| :: s[i] == ' ' || '\t' <= s[i] <= '\r'
  }

  predicate Bare(s: string) {
    s == "" || !(White(s[..1]) || White(s[|s| - 1..]))
  }

  lemma {:induction false} TrimLeftIs(a: string, u: string)
    requires White(a) && (u == "" || !IsSpace(u[0]))
    ensures TrimLeft(a + u) == u
  {
    if a == "" {
      assert a + u == u;
    } else {
      assert (a + u)[1..] == a[1..] + u;
      TrimLeftIs(a[1..], u);
    }
  }

  lemma {:induction false} TrimRightIs(u: string, b: string)
    requires White(b) && (u == "" || !IsSpace(u[|u| - 1]))
    ensures TrimRight(u + b) == u
  {
    if b == "" {
      assert u + b == u;
    } else {
      assert (u + b)[..|u + b| - 1] == u + b[..|b| - 1];
      TrimRightIs(u, b[..|b| - 1]);
    }
  }

  lemma {:induction false} LeftSplits(s: string) returns (a: string)
    ensures White(a) && s == a + TrimLeft(s) && (TrimLeft(s) == "" || !IsSpace(TrimLeft(s)[0]))
  {
    if |s| > 0 && IsSpace(s[0]) {
      var rest := LeftSplits(s[1..]);
      a := [s[0]] + rest;
      assert s == [s[0]] + s[1..];
    } else {
      a := "";
    }
  }

  lemma {:induction false} RightSplits(s: string) returns (b: string)
    ensures White(b) && s == TrimRight(s) + b && (TrimRight(s) == "" || !IsSpace(TrimRight(s)[|TrimRight(s)| - 1]))
  {
    if |s| > 0 && IsSpace(s[|s| - 1]) {
      var rest := RightSplits(s[..|s| - 1]);
      b := rest + [s[|s| - 1]];
      assert s == s[..|s| - 1] + [s[|s| - 1]];
    } else {
      b := "";
    }
  }

  lemma BareEnds(t: string)
    ensures Bare(t) <==> t == "" || !(IsSpace(t[0]) || IsSpace(t[|t| - 1]))
  {
    if t != "" {
      assert t[..1] == [t[0]] && t[|t| - 1..] == [t[|t| - 1]];
    }
  }

  ghost predicate Between(s: string, t: string) {
    exists a: string, b: string :: White(a) && White(b) && s == a + (t + b)
  }

  /** Trimming leaves the text between the white space at both ends. */
  lemma TrimIff(s: string, t: string)
    ensures TrimSpace(s) == t <==> Bare(t) && Between(s, t)
  {
    hide TrimLeft, TrimRight, Bare;
    BareEnds(t);
    if TrimSpace(s) == t {
      var a := LeftSplits(s);
      var b := RightSplits(TrimLeft(s));
      assert t != "" ==> t[0] == TrimLeft(s)[0];
      assert s == a + (t + b);
    }
    if a: string, b: string :| Bare(t) && White(a) && White(b) && s == a + (t + b) {
      if t == "" {
        assert s == (a + b) + "" && White(a + b);
        TrimLeftIs(a + b, "");
        TrimRightIs("", "");
        assert "" + "" == "";
      } else {
        TrimLeftIs(a, t + b);
        TrimRightIs(t, b);
      }
    }
  }
}
