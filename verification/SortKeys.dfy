/** Byte order on strings, and the sort key of a row: its ordering columns, each ended by a NUL
    (`UpdateTable` of pkg/reporter/forrmatted.go). */
module SortKeys {

  // ----- byte order -----

  predicate Le(a: string, b: string) {
    || a == ""
    || (b != "" && (a[0] < b[0] || (a[0] == b[0] && Le(a[1..], b[1..]))))
  }

  lemma {:induction false} Total(a: string, b: string)
    ensures Le(a, b) || Le(b, a)
  {
    if a != "" && b != "" {
      Total(a[1..], b[1..]);
    }
  }

  lemma {:induction false} Transitive(a: string, b: string, c: string)
    requires Le(a, b) && Le(b, c)
    ensures Le(a, c)
  {
    if a != "" && a[0] == b[0] == c[0] {
      Transitive(a[1..], b[1..], c[1..]);
    }
  }

  lemma {:induction false} Antisymmetric(a: string, b: string)
    requires Le(a, b) && Le(b, a)
    ensures a == b
  {
    if a != "" {
      Antisymmetric(a[1..], b[1..]);
      assert a == [a[0]] + a[1..] && b == [b[0]] + b[1..];
    }
  }

  lemma {:induction false} Reflexive(a: string)
    ensures Le(a, a)
  {
    if a != "" {
      Reflexive(a[1..]);
    }
  }

  /** The texts agree before byte `k`, where `a` has the lesser one. */
  predicate LessAt(a: string, b: string, k: nat) {
    k < |a| && k < |b| && a[..k] == b[..k] && a[k] < b[k]
  }

  lemma LessDeeper(a: string, b: string, k: nat)
    requires a != "" && b != "" && a[0] == b[0]
    ensures LessAt(a, b, k + 1) <==> LessAt(a[1..], b[1..], k)
  {
    if k < |a| - 1 && k < |b| - 1 {
      assert a[..k + 1] == [a[0]] + a[1..][..k] && b[..k + 1] == [b[0]] + b[1..][..k];
      assert a[..k + 1][1..] == a[1..][..k] && b[..k + 1][1..] == b[1..][..k];
    }
  }

  /** Byte order: the first difference decides, and a text comes before those that it begins. */
  lemma {:induction false} LeIff(a: string, b: string)
    ensures Le(a, b) <==> a <= b || exists k: nat :: LessAt(a, b, k)
  {
    if a != "" && b != "" {
      if a[0] == b[0] {
        hide LessAt;
        LeIff(a[1..], b[1..]);
        assert a <= b <==> a[1..] <= b[1..] by { PrefixDeeper(a, b); }
        forall k: nat ensures LessAt(a, b, k + 1) <==> LessAt(a[1..], b[1..], k) {
          LessDeeper(a, b, k);
        }
        if k: nat :| LessAt(a, b, k) {
          assert k != 0 by { NotAtOnce(a, b); }
          assert LessAt(a[1..], b[1..], k - 1) by { LessDeeper(a, b, k - 1); }
        }
        if k: nat :| LessAt(a[1..], b[1..], k) {
          assert LessAt(a, b, k + 1);
        }
      } else if a[0] < b[0] {
        assert LessAt(a, b, 0);
      } else {
        forall k: nat ensures !LessAt(a, b, k) {
          assert 0 < k <= |a| && k <= |b| ==> a[..k][0] == a[0] && b[..k][0] == b[0];
        }
      }
    }
  }

  lemma NotAtOnce(a: string, b: string)
    requires a != "" && b != "" && a[0] == b[0]
    ensures !LessAt(a, b, 0)
  {
  }

  lemma PrefixDeeper(a: string, b: string)
    requires a != "" && b != "" && a[0] == b[0]
    ensures a <= b <==> a[1..] <= b[1..]
  {
    assert a == [a[0]] + a[1..] && b == [b[0]] + b[1..];
    if a[1..] <= b[1..] {
      assert b[1..] == a[1..] + b[1..][|a| - 1..];
      assert b == a + b[1..][|a| - 1..];
    }
    if a <= b {
      assert forall i | 0 <= i < |a| - 1 :: a[1..][i] == a[i + 1] && b[1..][i] == b[i + 1];
    }
  }

  // ----- keys -----

  const NUL: char := 0 as char

  /** What the code appends to the key, column after column. */
  function Encode(tuple: seq<string>): string {
    if tuple == [] then "" else tuple[0] + [NUL] + Encode(tuple[1..])
  }

  /** Lexicographic order on tuples of cells; a proper prefix comes first. */
  predicate TupleLe(s: seq<string>, t: seq<string>) {
    || s == []
    || (t != [] && if s[0] == t[0] then TupleLe(s[1..], t[1..]) else Le(s[0], t[0]))
  }

  predicate NulFree(tuple: seq<string>) {
    forall i | 0 <= i < |tuple| :: NUL !in tuple[i]
  }

  lemma LeCons(a: string, b: string)
    requires a != "" && b != ""
    ensures Le(a, b) <==> a[0] < b[0] || (a[0] == b[0] && Le(a[1..], b[1..]))
  {
  }

  /** The first cells decide unless they are equal. */
  lemma {:induction false} CellOrder(a: string, b: string, x: string, y: string)
    requires NUL !in a && NUL !in b
    ensures Le(a + [NUL] + x, b + [NUL] + y) <==> if a == b then Le(x, y) else Le(a, b)
  {
    var p, q := a + [NUL] + x, b + [NUL] + y;
    LeCons(p, q);
    if a == "" && b == "" {
      assert p[1..] == x && q[1..] == y;
    } else if a != "" && b != "" {
      assert p[1..] == a[1..] + [NUL] + x && q[1..] == b[1..] + [NUL] + y;
      CellOrder(a[1..], b[1..], x, y);
      LeCons(a, b);
      assert a == [a[0]] + a[1..] && b == [b[0]] + b[1..];
    }
  }

  /** Without NULs in the cells, byte order on the keys is lexicographic order on the tuples. */
  lemma {:induction false} EncodeOrder(s: seq<string>, t: seq<string>)
    requires NulFree(s) && NulFree(t)
    ensures Le(Encode(s), Encode(t)) <==> TupleLe(s, t)
  {
    if s != [] && t != [] {
      CellOrder(s[0], t[0], Encode(s[1..]), Encode(t[1..]));
      EncodeOrder(s[1..], t[1..]);
    }
  }

  lemma {:induction false} TupleAntisymmetric(s: seq<string>, t: seq<string>)
    requires TupleLe(s, t) && TupleLe(t, s)
    ensures s == t
  {
    if s != [] {
      if s[0] != t[0] {
        Antisymmetric(s[0], t[0]);
      }
      TupleAntisymmetric(s[1..], t[1..]);
      assert s == [s[0]] + s[1..] && t == [t[0]] + t[1..];
    }
  }

  /** Equal keys mean equal tuples. */
  lemma EncodeInjective(s: seq<string>, t: seq<string>)
    requires NulFree(s) && NulFree(t)
    ensures Encode(s) == Encode(t) <==> s == t
  {
    if Encode(s) == Encode(t) {
      Reflexive(Encode(s));
      EncodeOrder(s, t);
      EncodeOrder(t, s);
      TupleAntisymmetric(s, t);
    }
  }

  lemma {:induction false} EncodeConcat(s: seq<string>, t: seq<string>)
    ensures Encode(s + t) == Encode(s) + Encode(t)
  {
    if s == [] {
      assert s + t == t;
    } else {
      assert (s + t)[1..] == s[1..] + t;
      EncodeConcat(s[1..], t);
    }
  }

  function Count(s: string): nat {
    multiset(s)[NUL]
  }

  lemma CountConcat(a: string, b: string)
    ensures Count(a + b) == Count(a) + Count(b)
  {
  }

  /** A key has a NUL for each cell, and those of the cells. */
  lemma {:induction false} KeyNuls(s: seq<string>)
    ensures Count(Encode(s)) >= |s|
    ensures Count(Encode(s)) == |s| <==> NulFree(s)
  {
    hide Count;
    if s != [] {
      KeyNuls(s[1..]);
      CountConcat(s[0] + [NUL], Encode(s[1..]));
      CountConcat(s[0], [NUL]);
      CellNuls(s[0]);
      assert forall i | 0 <= i < |s| - 1 :: s[1..][i] == s[i + 1];
    } else {
      NoNuls();
    }
  }

  lemma NoNuls()
    ensures Count("") == 0
  {
  }

  lemma CellNuls(cell: string)
    ensures Count([NUL]) == 1 && (Count(cell) == 0 <==> NUL !in cell)
  {
    assert NUL in cell <==> NUL in multiset(cell);
  }

  /** Two neighbouring cells split anew at another NUL. */
  lemma Resplit(s: seq<string>, i: nat, a: string, b: string) returns (t: seq<string>)
    requires i + 1 < |s| && s[i] + [NUL] + s[i + 1] == a + [NUL] + b
    ensures |t| == |s| && t[i] == a && t[i + 1] == b && Encode(t) == Encode(s)
  {
    hide Encode;
    var x, y := s[..i], s[i + 2..];
    t := x + [a, b] + y;
    assert s == x + [s[i], s[i + 1]] + y;
    EncodeConcat(x + [a, b], y);
    EncodeConcat(x, [a, b]);
    EncodeConcat(x + [s[i], s[i + 1]], y);
    EncodeConcat(x, [s[i], s[i + 1]]);
    EncodeTwo(a, b);
    EncodeTwo(s[i], s[i + 1]);
  }

  lemma EncodeTwo(a: string, b: string)
    ensures Encode([a, b]) == a + [NUL] + b + [NUL]
  {
    assert [a, b][1..] == [b] && [b][1..] == [];
    assert Encode([b]) == b + [NUL] + "";
  }

  lemma NulCollides(s: seq<string>, i: nat) returns (t: seq<string>)
    requires |s| >= 2 && i < |s| && NUL in s[i]
    ensures |t| == |s| && t != s && Encode(t) == Encode(s)
  {
    var k :| 0 <= k < |s[i]| && s[i][k] == NUL;
    var a, b := s[i][..k], s[i][k + 1..];
    assert s[i] == a + [NUL] + b;
    if i + 1 < |s| {
      assert a + [NUL] + b + [NUL] + s[i + 1] == a + [NUL] + (b + [NUL] + s[i + 1]);
      t := Resplit(s, i, a, b + [NUL] + s[i + 1]);
    } else {
      assert s[i - 1] + [NUL] + (a + [NUL] + b) == (s[i - 1] + [NUL] + a) + [NUL] + b;
      t := Resplit(s, i - 1, s[i - 1] + [NUL] + a, b);
    }
  }

  /** Among tuples of its width, two or more, a tuple has its key to itself exactly when its cells are free of
      NULs. */
  lemma AloneIff(s: seq<string>)
    requires |s| >= 2
    ensures (forall t: seq<string> | |t| == |s| && Encode(t) == Encode(s) :: t == s) <==> NulFree(s)
  {
    if NulFree(s) {
      forall t: seq<string> | |t| == |s| && Encode(t) == Encode(s) ensures t == s {
        KeyNuls(s);
        KeyNuls(t);
        EncodeInjective(s, t);
      }
    } else {
      var i :| 0 <= i < |s| && NUL in s[i];
      var t := NulCollides(s, i);
    }
  }

  // ----- sorted keys -----

  predicate Least(k: string, keys: set<string>) {
    k in keys && forall other | other in keys :: Le(k, other)
  }

  lemma {:induction false} LeastExists(keys: set<string>) returns (k: string)
    requires keys != {}
    ensures Least(k, keys)
  {
    var x :| x in keys;
    Reflexive(x);
    if keys == {x} {
      k := x;
    } else {
      var m := LeastExists(keys - {x});
      Total(x, m);
      k := if Le(x, m) then x else m;
      forall other | other in keys ensures Le(k, other) {
        if k == x && other != x {
          Transitive(x, m, other);
        }
      }
    }
  }

  lemma LeastIsThere(keys: set<string>)
    requires keys != {}
    ensures exists k :: Least(k, keys)
  {
    var k := LeastExists(keys);
  }

  ghost function TheLeast(keys: set<string>): (k: string)
    requires keys != {}
    ensures Least(k, keys)
  {
    LeastIsThere(keys);
    var k :| Least(k, keys);
    k
  }

  /** The keys in byte order. */
  ghost function Sorted(keys: set<string>): seq<string> {
    if keys == {} then [] else [TheLeast(keys)] + Sorted(keys - {TheLeast(keys)})
  }

  lemma {:induction false} SortedOrder(keys: set<string>, i: nat, j: nat)
    requires i < j < |Sorted(keys)|
    ensures Le(Sorted(keys)[i], Sorted(keys)[j]) && Sorted(keys)[i] != Sorted(keys)[j]
  {
    hide Le;
    var rest := keys - {TheLeast(keys)};
    SortedKeys(rest, Sorted(keys)[j]);
    if i > 0 {
      SortedOrder(rest, i - 1, j - 1);
    }
  }

  lemma {:induction false} SortedKeys(keys: set<string>, k: string)
    ensures k in Sorted(keys) <==> k in keys
  {
    hide Le, Least;
    if keys != {} {
      assert TheLeast(keys) in keys by { LeastIn(keys); }
      SortedKeys(keys - {TheLeast(keys)}, k);
    }
  }

  lemma LeastIn(keys: set<string>)
    requires keys != {}
    ensures TheLeast(keys) in keys
  {
  }

  lemma LeastUnique(keys: set<string>, k: string)
    requires Least(k, keys)
    ensures k == TheLeast(keys)
  {
    Antisymmetric(k, TheLeast(keys));
  }

  method Sort(keys: set<string>) returns (s: seq<string>)
    ensures s == Sorted(keys)
  {
    hide Le, Least;
    s := [];
    var rest := keys;
    while rest != {}
      invariant s + Sorted(rest) == Sorted(keys)
      decreases rest
    {
      LeastIsThere(rest);
      var k :| Least(k, rest);
      assert k in rest by { IsIn(k, rest); }
      LeastUnique(rest, k);
      s := s + [k];
      rest := rest - {k};
    }
  }

  lemma IsIn(k: string, keys: set<string>)
    requires Least(k, keys)
    ensures k in keys
  {
  }
}
