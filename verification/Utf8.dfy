/** What `utf8.Valid` of GoText.dfy accepts: the encodings of Unicode scalar values (sections 3 and 4 of RFC 3629). */
module Utf8 {
  import opened GoText

  predicate Scalar(n: nat) {
    n < 0xD800 || 0xE000 <= n < 0x11_0000
  }

  /** The six lowest bits of a number, in a continuation byte. */
  function Tail(n: nat): char {
    (0x80 + n % 64) as char
  }

  function Rune(n: nat): (r: string)
    requires Scalar(n)
    ensures 1 <= |r| <= 4
  {
    if n < 0x80 then [n as char]
    else if n < 0x800 then [(0xC0 + n / 64) as char, Tail(n)]
    else if n < 0x1_0000 then [(0xE0 + n / 64 / 64) as char, Tail(n / 64), Tail(n)]
    else [(0xF0 + n / 64 / 64 / 64) as char, Tail(n / 64 / 64), Tail(n / 64), Tail(n)]
  }

  /** The encoding of `n` lies at `i`, `k` bytes long. */
  predicate RuneAt(s: string, i: nat, k: nat, n: nat) {
    Scalar(n) && i + k <= |s| && s[i..i + k] == Rune(n)
  }

  /** What a continuation byte adds to the bits before it. */
  function More(q: nat, c: char): nat
    requires 0x80 <= Byte(c)
  {
    q * 64 + (Byte(c) - 0x80)
  }

  lemma MoreIs(q: nat, c: char)
    requires 0x80 <= Byte(c) <= 0xBF
    ensures More(q, c) / 64 == q && Tail(More(q, c)) == c
  {
  }

  /** A well-formed sequence encodes a scalar value. */
  lemma RuneFound(s: string, i: nat) returns (n: nat)
    requires i < |s| && RuneLen(s, i) > 0
    ensures RuneAt(s, i, RuneLen(s, i), n)
  {
    hide More, Tail;
    var k := RuneLen(s, i);
    if k == 1 {
      n := Byte(s[i]);
    } else if k == 2 {
      n := TwoBytes(s, i);
    } else if k == 3 {
      n := ThreeBytes(s, i);
    } else {
      n := FourBytes(s, i);
    }
  }

  lemma TwoBytes(s: string, i: nat) returns (n: nat)
    requires i < |s| && RuneLen(s, i) == 2
    ensures RuneAt(s, i, 2, n)
  {
    var q: nat := Byte(s[i]) - 0xC0;
    n := More(q, s[i + 1]);
    MoreIs(q, s[i + 1]);
  }

  lemma ThreeBytes(s: string, i: nat) returns (n: nat)
    requires i < |s| && RuneLen(s, i) == 3
    ensures RuneAt(s, i, 3, n)
  {
    var q: nat := Byte(s[i]) - 0xE0;
    n := More(More(q, s[i + 1]), s[i + 2]);
    MoreIs(q, s[i + 1]);
    MoreIs(More(q, s[i + 1]), s[i + 2]);
  }

  lemma FourBytes(s: string, i: nat) returns (n: nat)
    requires i < |s| && RuneLen(s, i) == 4
    ensures RuneAt(s, i, 4, n)
  {
    var q: nat := Byte(s[i]) - 0xF0;
    var p := More(More(q, s[i + 1]), s[i + 2]);
    n := More(p, s[i + 3]);
    MoreIs(q, s[i + 1]);
    MoreIs(More(q, s[i + 1]), s[i + 2]);
    MoreIs(p, s[i + 3]);
  }

  /** The encoding of a scalar value is well formed. */
  lemma RuneIs(s: string, i: nat, k: nat, n: nat)
    requires RuneAt(s, i, k, n)
    ensures k > 0 && RuneLen(s, i) == k
  {
    var r := s[i..i + k];
    assert s[i] == r[0];
    if n >= 0x80 {
      assert s[i + 1] == r[1];
    }
    if n >= 0x800 {
      assert s[i + 2] == r[2];
    }
    if n >= 0x1_0000 {
      assert s[i + 3] == r[3];
    }
  }

  /** The length of the rune at `i` is that of the encoding of a scalar value that lies there, 0 when there is none. */
  lemma RuneLenIff(s: string, i: nat, k: nat)
    requires i < |s|
    ensures k > 0 ==> (RuneLen(s, i) == k <==> exists n :: RuneAt(s, i, k, n))
    ensures RuneLen(s, i) == 0 <==> !exists n, m :: RuneAt(s, i, m, n)
  {
    hide RuneLen, RuneAt;
    if RuneLen(s, i) > 0 {
      var n := RuneFound(s, i);
    }
    forall n, m | RuneAt(s, i, m, n) ensures RuneLen(s, i) == m > 0 {
      RuneIs(s, i, m, n);
    }
  }

  function Runes(ns: seq<nat>): string
    requires forall n | n in ns :: Scalar(n)
  {
    if ns == [] then "" else Rune(ns[0]) + Runes(ns[1..])
  }

  lemma {:induction false} RunesFrom(s: string, i: nat) returns (ns: seq<nat>)
    requires i <= |s| && ValidFrom(s, i)
    ensures (forall n | n in ns :: Scalar(n)) && Runes(ns) == s[i..]
    decreases |s| - i
  {
    hide RuneLen, Rune;
    if i == |s| {
      ns := [];
    } else {
      var k := i + RuneLen(s, i);
      var n := RuneFound(s, i);
      var rest := RunesFrom(s, k);
      ns := [n] + rest;
      assert s[i..] == s[i..k] + s[k..];
    }
  }

  lemma {:induction false} RunesValid(s: string, i: nat, ns: seq<nat>)
    requires i <= |s| && (forall n | n in ns :: Scalar(n)) && Runes(ns) == s[i..]
    ensures ValidFrom(s, i)
    decreases |ns|
  {
    hide RuneLen, Rune;
    if ns != [] {
      var r := Rune(ns[0]);
      var k := i + |r|;
      assert s[i..][..|r|] == r && s[i..][|r|..] == Runes(ns[1..]);
      assert s[i..k] == r && s[k..] == Runes(ns[1..]);
      RuneIs(s, i, |r|, ns[0]);
      RunesValid(s, k, ns[1..]);
    }
  }

  /** A text is valid exactly when it is the encodings of some scalar values, one after the other. */
  lemma ValidIff(s: string)
    ensures ValidFrom(s, 0) <==> exists ns: seq<nat> :: (forall n | n in ns :: Scalar(n)) && Runes(ns) == s
  {
    hide Runes, ValidFrom;
    assert s[0..] == s;
    if ValidFrom(s, 0) {
      var ns := RunesFrom(s, 0);
    }
    if ns: seq<nat> :| (forall n | n in ns :: Scalar(n)) && Runes(ns) == s {
      RunesValid(s, 0, ns);
    }
  }

  /** A rune that is encoded at `i` reaches to the end of the encoding; where none is, one byte counts as a rune. */
  lemma RuneEndIs(s: string, i: nat, k: nat, n: nat)
    requires i < |s|
    ensures RuneAt(s, i, k, n) ==> RuneEnd(s, i) == i + k
    ensures (forall n, m :: !RuneAt(s, i, m, n)) ==> RuneEnd(s, i) == i + 1
  {
    hide RuneLen, RuneAt;
    RuneLenIff(s, i, k);
    if RuneAt(s, i, k, n) {
      RuneIs(s, i, k, n);
    }
  }
}
