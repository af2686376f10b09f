/** Preparing incident fields for an incident system: `Transform` of pkg/ims/transform.go.

    Go iterates over a map in an order of its own choosing. Each such loop is modelled with the order as
    a parameter; the results say when the order cannot be told from the outcome. */
module Transform {

  type Fields = map<string, string>

  /** The include and exclude lists of regular expressions are arbitrary predicates on field names;
      `expand` is the expansion of a default's value. */
  datatype Transformation = Transformation(
    defaults: map<string, string>, remove: seq<string>, rename: map<string, string>,
    exclude: seq<string -> bool>, include_: seq<string -> bool>, mustInclude: seq<string>)

  datatype Outcome = Sent(fields: Fields) | MissingField(name: string)

  /** `order` names every key once. */
  ghost predicate IsOrder(order: seq<string>, keys: set<string>) {
    && (forall k | k in keys :: k in order)
    && (forall i | 0 <= i < |order| :: order[i] in keys)
    && (forall i, j | 0 <= i < j < |order| :: order[i] != order[j])
  }

  lemma {:induction false} SomeOrder(keys: set<string>) returns (order: seq<string>)
    ensures IsOrder(order, keys)
  {
    if keys == {} {
      order := [];
    } else {
      var k :| k in keys;
      var rest := SomeOrder(keys - {k});
      order := rest + [k];
      assert order[|rest|] == k;
      forall x | x in keys ensures x in order {
        assert x != k ==> x in rest;
      }
    }
  }

  // ----- 1. defaults -----

  function DefaultOne(m: Fields, k: string, v: string): Fields {
    if k !in m || m[k] == "" then m[k := v] else m
  }

  function DefaultsIn(m: Fields, defaults: map<string, string>, expand: string -> string, order: seq<string>, n: nat): Fields
    requires n <= |order| && forall k | k in order :: k in defaults
  {
    if n == 0 then m
    else DefaultOne(DefaultsIn(m, defaults, expand, order, n - 1), order[n - 1], expand(defaults[order[n - 1]]))
  }

  function WithDefaults(m: Fields, defaults: map<string, string>, expand: string -> string): Fields {
    map k | k in m.Keys + defaults.Keys ::
      if k in defaults && (k !in m || m[k] == "") then expand(defaults[k]) else m[k]
  }

  lemma {:induction false} DefaultsAt(m: Fields, defaults: map<string, string>, expand: string -> string, order: seq<string>, n: nat, k: string)
    requires IsOrder(order, defaults.Keys) && n <= |order|
    ensures var r := DefaultsIn(m, defaults, expand, order, n);
            if k in order[..n] && (k !in m || m[k] == "") then k in r && r[k] == expand(defaults[k])
            else if k in m then k in r && r[k] == m[k]
            else k !in r
  {
    if n > 0 {
      DefaultsAt(m, defaults, expand, order, n - 1, k);
      assert order[..n] == order[..n - 1] + [order[n - 1]];
    }
  }

  lemma DefaultsSame(m: Fields, defaults: map<string, string>, expand: string -> string, order: seq<string>, k: string)
    requires IsOrder(order, defaults.Keys)
    ensures var r, w := DefaultsIn(m, defaults, expand, order, |order|), WithDefaults(m, defaults, expand);
            (k in r <==> k in w) && (k in r ==> r[k] == w[k])
  {
    hide DefaultsIn;
    assert order[..|order|] == order;
    DefaultsAt(m, defaults, expand, order, |order|, k);
  }

  lemma DefaultsDetermined(m: Fields, defaults: map<string, string>, expand: string -> string, order: seq<string>)
    requires IsOrder(order, defaults.Keys)
    ensures DefaultsIn(m, defaults, expand, order, |order|) == WithDefaults(m, defaults, expand)
  {
    hide DefaultsIn, WithDefaults;
    var r, w := DefaultsIn(m, defaults, expand, order, |order|), WithDefaults(m, defaults, expand);
    forall k ensures (k in r <==> k in w) && (k in r ==> r[k] == w[k]) {
      DefaultsSame(m, defaults, expand, order, k);
    }
    assert r == w;
  }

  // ----- 3a. stripping the prefix -----

  predicate HasPrefix(s: string, prefix: string) {
    |prefix| <= |s| && s[..|prefix|] == prefix
  }

  function StripOne(prefix: string, m: Fields, k: string): Fields {
    if k in m && HasPrefix(k, prefix) then m[k[|prefix|..] := m[k]] - {k} else m
  }

  function StripIn(prefix: string, m: Fields, visits: seq<string>, n: nat): Fields
    requires n <= |visits|
  {
    if n == 0 then m else StripOne(prefix, StripIn(prefix, m, visits, n - 1), visits[n - 1])
  }

  /** What the language allows: only entries that are there are visited; each entry that was there at the
      start is; entries inserted meanwhile may or may not be, so that a name comes up again only after
      its entry was stripped and a new one inserted. */
  ghost predicate Legal(prefix: string, m: Fields, visits: seq<string>) {
    && (forall i | 0 <= i < |visits| :: visits[i] in StripIn(prefix, m, visits, i))
    && (forall k | k in m :: k in visits)
    && (forall i, j | 0 <= i < j < |visits| && visits[i] == visits[j] :: HasPrefix(visits[i], prefix))
  }

  /** Every field with the prefix replaces the one without. */
  function Stripped(prefix: string, m: Fields): Fields {
    map k | k in m.Keys + (set p | p in m && HasPrefix(p, prefix) :: p[|prefix|..]) && !HasPrefix(k, prefix) ::
      if prefix + k in m then m[prefix + k] else if k in m then m[k] else ""
  }

  /** No stripped field still carries the prefix. */
  predicate OnceOnly(prefix: string, m: Fields) {
    forall k | k in m :: !HasPrefix(k, prefix + prefix)
  }

  lemma PrefixOf(prefix: string, k: string)
    ensures HasPrefix(prefix + k, prefix) && (prefix + k)[|prefix|..] == k
    ensures HasPrefix(k, prefix) ==> prefix + k[|prefix|..] == k
    ensures HasPrefix(k, prefix) <==> HasPrefix(prefix + k, prefix + prefix)
  {
    var p := prefix + k;
    assert p[..|prefix|] == prefix;
    if |prefix| <= |k| {
      assert p[..|prefix| + |prefix|] == prefix + k[..|prefix|];
    }
  }

  predicate Visited(visits: seq<string>, n: nat, k: string)
    requires n <= |visits|
  {
    exists i | 0 <= i < n :: visits[i] == k
  }

  lemma VisitedStep(visits: seq<string>, n: nat, k: string)
    requires 0 < n <= |visits|
    ensures Visited(visits, n, k) <==> Visited(visits, n - 1, k) || visits[n - 1] == k
  {
  }

  lemma NotTwice(prefix: string, m: Fields, v: string)
    requires OnceOnly(prefix, m) && v in m && HasPrefix(v, prefix)
    ensures !HasPrefix(v[|prefix|..], prefix) && prefix + v[|prefix|..] == v
  {
    PrefixOf(prefix, v);
    PrefixOf(prefix, v[|prefix|..]);
  }

  /** A name with the prefix stays until it is visited. */
  lemma {:induction false} PrefixedAt(prefix: string, m: Fields, visits: seq<string>, n: nat, k: string)
    requires OnceOnly(prefix, m) && n <= |visits| && HasPrefix(k, prefix)
    ensures var r := StripIn(prefix, m, visits, n);
            (k in r <==> k in m && !Visited(visits, n, k)) && (k in r ==> r[k] == m[k])
  {
    hide OnceOnly, HasPrefix, Visited;
    if n > 0 {
      var v := visits[n - 1];
      PrefixedAt(prefix, m, visits, n - 1, k);
      VisitedStep(visits, n, k);
      if v in StripIn(prefix, m, visits, n - 1) && HasPrefix(v, prefix) {
        PrefixedAt(prefix, m, visits, n - 1, v);
        NotTwice(prefix, m, v);
      }
    } else {
      assert !Visited(visits, 0, k) by { NotVisited(visits, k); }
    }
  }

  lemma NotVisited(visits: seq<string>, k: string)
    ensures !Visited(visits, 0, k)
  {
  }

  /** A name without it has the value of the name with it, once that is visited; else it is as before. */
  lemma {:induction false} PlainAt(prefix: string, m: Fields, visits: seq<string>, n: nat, k: string)
    requires OnceOnly(prefix, m) && n <= |visits| && !HasPrefix(k, prefix)
    ensures var r := StripIn(prefix, m, visits, n);
            if prefix + k in m && Visited(visits, n, prefix + k) then k in r && r[k] == m[prefix + k]
            else (k in r <==> k in m) && (k in r ==> r[k] == m[k])
  {
    hide OnceOnly, HasPrefix, Visited;
    if n > 0 {
      var v := visits[n - 1];
      PlainAt(prefix, m, visits, n - 1, k);
      VisitedStep(visits, n, prefix + k);
      PrefixOf(prefix, k);
      if HasPrefix(v, prefix) {
        PrefixedAt(prefix, m, visits, n - 1, v);
        PrefixOf(prefix, v);
      }
    } else {
      NotVisited(visits, prefix + k);
    }
  }

  lemma StripDetermined(prefix: string, m: Fields, visits: seq<string>)
    requires OnceOnly(prefix, m) && Legal(prefix, m, visits)
    ensures StripIn(prefix, m, visits, |visits|) == Stripped(prefix, m)
  {
    hide StripIn, HasPrefix, OnceOnly;
    var r, w := StripIn(prefix, m, visits, |visits|), Stripped(prefix, m);
    forall k ensures (k in r <==> k in w) && (k in r ==> r[k] == w[k]) {
      PrefixOf(prefix, k);
      if HasPrefix(k, prefix) {
        PrefixedAt(prefix, m, visits, |visits|, k);
      } else {
        PlainAt(prefix, m, visits, |visits|, k);
        InStripped(prefix, m, k);
      }
    }
  }

  lemma InStripped(prefix: string, m: Fields, k: string)
    requires !HasPrefix(k, prefix)
    ensures k in Stripped(prefix, m) <==> k in m || prefix + k in m
  {
    PrefixOf(prefix, k);
    if p :| p in m && HasPrefix(p, prefix) && p[|prefix|..] == k {
      PrefixOf(prefix, p);
    }
  }

  // ----- when the order of stripping cannot be told -----

  ghost predicate StripFree(prefix: string, m: Fields) {
    forall p, q | Legal(prefix, m, p) && Legal(prefix, m, q) ::
      StripIn(prefix, m, p, |p|) == StripIn(prefix, m, q, |q|)
  }

  /** A name stays until it is visited; nothing changes it unless its prefixed form is visited. */
  lemma {:induction false} StripKeeps(prefix: string, m: Fields, visits: seq<string>, n: nat, k: string)
    requires n <= |visits| && forall i | 0 <= i < n :: visits[i] != k
    ensures var r := StripIn(prefix, m, visits, n);
            && (k in m ==> k in r)
            && ((forall i | 0 <= i < n :: visits[i] != prefix + k) ==> (k in r <==> k in m) && (k in r ==> r[k] == m[k]))
  {
    hide HasPrefix;
    if n > 0 {
      StripKeeps(prefix, m, visits, n - 1, k);
      PrefixOf(prefix, visits[n - 1]);
    }
  }

  function NoShorter(m: Fields, n: nat): set<string> {
    set x | x in m && |x| >= n
  }

  /** A name that is prefixed twice, as far out as there is one. */
  lemma {:induction false} Outermost(prefix: string, m: Fields, k: string) returns (top: string)
    requires |prefix| > 0 && k in m && HasPrefix(k, prefix + prefix)
    ensures top in m && HasPrefix(top, prefix + prefix) && prefix + top !in m
    decreases NoShorter(m, |k|)
  {
    if prefix + k in m {
      assert k in NoShorter(m, |k|) && k !in NoShorter(m, |prefix + k|);
      assert NoShorter(m, |prefix + k|) < NoShorter(m, |k|);
      assert k[..|prefix|] == prefix by {
        assert k[..|prefix + prefix|][..|prefix|] == (prefix + prefix)[..|prefix|];
      }
      PrefixOf(prefix, k);
      top := Outermost(prefix, m, prefix + k);
    } else {
      top := k;
    }
  }

  predicate Distinct(visits: seq<string>) {
    forall i, j | 0 <= i < j < |visits| :: visits[i] != visits[j]
  }

  /** Visiting each name once is allowed when the names after the first n are there in their turn. */
  lemma LegalOrder(prefix: string, m: Fields, visits: seq<string>, n: nat)
    requires Distinct(visits) && n <= |visits| && forall k | k in m :: k in visits
    requires forall i | 0 <= i < n :: visits[i] in m
    requires forall i | n <= i < |visits| :: visits[i] in StripIn(prefix, m, visits, i)
    ensures Legal(prefix, m, visits)
  {
    hide StripIn;
    forall i | 0 <= i < n ensures visits[i] in StripIn(prefix, m, visits, i) {
      StripKeeps(prefix, m, visits, i, visits[i]);
    }
  }

  /** All names but p and pp in some order, then `last`. */
  lemma OrderEnding(m: Fields, last: seq<string>, p: string, pp: string) returns (visits: seq<string>, n: nat)
    requires Distinct(last) && forall i | 0 <= i < |last| :: last[i] == p || last[i] == pp
    requires (p in m ==> p in last) && pp in last
    ensures |visits| == n + |last| && forall i | 0 <= i < |last| :: visits[n + i] == last[i]
    ensures Distinct(visits) && forall k | k in m :: k in visits
    ensures forall i | 0 <= i < n :: visits[i] in m && visits[i] != p && visits[i] != pp
  {
    var others := SomeOrder(m.Keys - {p, pp});
    visits, n := others + last, |others|;
    forall k | k in m ensures k in visits {
      if k == p || k == pp {
        assert k in last;
      } else {
        assert k in others;
      }
    }
  }

  lemma OthersDone(prefix: string, m: Fields, visits: seq<string>, n: nat, k: string)
    requires n <= |visits| && prefix + (prefix + k) in m && prefix + (prefix + (prefix + k)) !in m
    requires forall i | 0 <= i < n :: visits[i] in m && visits[i] != prefix + k && visits[i] != prefix + (prefix + k)
    ensures var r, p, pp := StripIn(prefix, m, visits, n), prefix + k, prefix + (prefix + k);
            pp in r && (p in r <==> p in m)
  {
    StripKeeps(prefix, m, visits, n, prefix + k);
    StripKeeps(prefix, m, visits, n, prefix + (prefix + k));
  }

  lemma TwoSteps(prefix: string, m: Fields, visits: seq<string>, n: nat)
    requires n + 2 == |visits|
    ensures StripIn(prefix, m, visits, n + 1) == StripOne(prefix, StripIn(prefix, m, visits, n), visits[n])
    ensures StripIn(prefix, m, visits, n + 2) == StripOne(prefix, StripIn(prefix, m, visits, n + 1), visits[n + 1])
  {
  }

  /** An order in which the name prefixed once is there in the end. */
  lemma Stays(prefix: string, m: Fields, k: string) returns (visits: seq<string>)
    requires |prefix| > 0 && prefix + (prefix + k) in m && prefix + (prefix + (prefix + k)) !in m
    ensures Legal(prefix, m, visits) && prefix + k in StripIn(prefix, m, visits, |visits|)
  {
    hide *;
    if prefix + k in m {
      visits := StaysReplaced(prefix, m, k);
    } else {
      visits := StaysInserted(prefix, m, k);
    }
  }

  lemma StaysReplaced(prefix: string, m: Fields, k: string) returns (visits: seq<string>)
    requires |prefix| > 0 && prefix + (prefix + k) in m && prefix + (prefix + (prefix + k)) !in m && prefix + k in m
    ensures Legal(prefix, m, visits) && prefix + k in StripIn(prefix, m, visits, |visits|)
  {
    hide Legal, HasPrefix, Distinct;
    var p, pp := prefix + k, prefix + (prefix + k);
    PrefixOf(prefix, k);
    PrefixOf(prefix, p);
    Pair(p, pp);
    assert [p, pp][0] == p && [p, pp][1] == pp;
    var n;
    visits, n := OrderEnding(m, [p, pp], p, pp);
    assert visits[n + 0] == p && visits[n + 1] == pp;
    OthersDone(prefix, m, visits, n, k);
    TwoSteps(prefix, m, visits, n);
    LegalOrder(prefix, m, visits, n);
  }

  lemma StaysInserted(prefix: string, m: Fields, k: string) returns (visits: seq<string>)
    requires |prefix| > 0 && prefix + (prefix + k) in m && prefix + (prefix + (prefix + k)) !in m && prefix + k !in m
    ensures Legal(prefix, m, visits) && prefix + k in StripIn(prefix, m, visits, |visits|)
  {
    hide Legal, HasPrefix, Distinct;
    var p, pp := prefix + k, prefix + (prefix + k);
    PrefixOf(prefix, p);
    Pair(p, pp);
    assert [pp][0] == pp;
    var n;
    visits, n := OrderEnding(m, [pp], p, pp);
    assert visits[n + 0] == pp;
    OthersDone(prefix, m, visits, n, k);
    LegalOrder(prefix, m, visits, n);
  }

  lemma Pair(p: string, pp: string)
    requires p != pp
    ensures Distinct([pp]) && Distinct([p, pp]) && Distinct([pp, p])
  {
  }

  /** And one in which it is not. */
  lemma Goes(prefix: string, m: Fields, k: string) returns (visits: seq<string>)
    requires |prefix| > 0 && prefix + (prefix + k) in m && prefix + (prefix + (prefix + k)) !in m
    ensures Legal(prefix, m, visits) && prefix + k !in StripIn(prefix, m, visits, |visits|)
  {
    hide Legal, HasPrefix, Distinct;
    var p, pp := prefix + k, prefix + (prefix + k);
    PrefixOf(prefix, k);
    PrefixOf(prefix, p);
    Pair(p, pp);
    assert [pp, p][0] == pp && [pp, p][1] == p;
    var n;
    visits, n := OrderEnding(m, [pp, p], p, pp);
    assert visits[n + 0] == pp && visits[n + 1] == p;
    OthersDone(prefix, m, visits, n, k);
    TwoSteps(prefix, m, visits, n);
    LegalOrder(prefix, m, visits, n);
  }

  /** The order of stripping cannot be told from the outcome exactly when no stripped name still
      carries the prefix. */
  lemma StripFreeIff(prefix: string, m: Fields)
    requires |prefix| > 0
    ensures StripFree(prefix, m) <==> OnceOnly(prefix, m)
  {
    hide Legal, StripIn, Stripped;
    if OnceOnly(prefix, m) {
      forall p, q | Legal(prefix, m, p) && Legal(prefix, m, q)
        ensures StripIn(prefix, m, p, |p|) == StripIn(prefix, m, q, |q|)
      {
        StripDetermined(prefix, m, p);
        StripDetermined(prefix, m, q);
      }
    } else {
      var some :| some in m && HasPrefix(some, prefix + prefix);
      var top := Outermost(prefix, m, some);
      var k := top[|prefix + prefix|..];
      assert top == prefix + prefix + k == prefix + (prefix + k);
      var p := Stays(prefix, m, k);
      var q := Goes(prefix, m, k);
    }
  }

  // ----- 3b. renaming -----

  function RenameOne(m: Fields, from: string, to: string): Fields {
    if from in m then m[to := m[from]] - {from} else m
  }

  function RenameIn(m: Fields, rename: map<string, string>, order: seq<string>, n: nat): Fields
    requires n <= |order| && forall k | k in order :: k in rename
  {
    if n == 0 then m else RenameOne(RenameIn(m, rename, order, n - 1), order[n - 1], rename[order[n - 1]])
  }

  /** Two renames that do not commute: the first feeds the second, or both have one target. */
  predicate Clash(rename: map<string, string>, a: string, c: string) {
    a in rename && c in rename && a != c && (rename[a] == c || rename[a] == rename[c])
  }

  predicate Independent(rename: map<string, string>) {
    forall a, c | a in rename && c in rename :: !Clash(rename, a, c)
  }

  /** Every present source moves to its target; a field renamed to itself is deleted. */
  ghost function Renamed(m: Fields, rename: map<string, string>): Fields {
    map k | k in m.Keys + rename.Values && (Arrives(m, rename, k) || (k in m && k !in rename)) ::
      if Arrives(m, rename, k) then m[Source(m, rename, k)] else m[k]
  }

  predicate Arrives(m: Fields, rename: map<string, string>, k: string) {
    exists a | a in rename :: Moves(m, rename, a, k)
  }

  predicate Moves(m: Fields, rename: map<string, string>, a: string, k: string) {
    a in rename && a in m && rename[a] == k && a != k
  }

  ghost function Source(m: Fields, rename: map<string, string>, k: string): (a: string)
    requires Arrives(m, rename, k)
    ensures Moves(m, rename, a, k)
  {
    var a :| a in rename && Moves(m, rename, a, k);
    a
  }

  /** A source stays until its turn. */
  lemma {:induction false} SourceAt(m: Fields, rename: map<string, string>, order: seq<string>, n: nat, j: nat)
    requires IsOrder(order, rename.Keys) && Independent(rename) && n <= |order| && j < |order|
    ensures var r, k := RenameIn(m, rename, order, n), order[j];
            (k in r <==> k in m && n <= j) && (k in r ==> r[k] == m[k])
  {
    hide Clash;
    if n > 0 {
      SourceAt(m, rename, order, n - 1, j);
      if n - 1 != j {
        NoClash(rename, order[n - 1], order[j]);
      }
    }
  }

  lemma NoClash(rename: map<string, string>, a: string, c: string)
    requires Independent(rename) && a in rename && c in rename && a != c
    ensures rename[a] != c && rename[a] != rename[c]
  {
    assert !Clash(rename, a, c);
  }

  /** From its turn on the source's value is at the target. */
  lemma {:induction false} ArrivedAt(m: Fields, rename: map<string, string>, order: seq<string>, n: nat, j: nat)
    requires IsOrder(order, rename.Keys) && Independent(rename) && j < n <= |order|
    requires order[j] in m && rename[order[j]] != order[j]
    ensures var r, k := RenameIn(m, rename, order, n), rename[order[j]];
            k in r && r[k] == m[order[j]] && k !in rename
  {
    hide Clash, Independent;
    var a := order[n - 1];
    if rename[order[j]] in rename {
      NoClash(rename, order[j], rename[order[j]]);
    }
    if n - 1 == j {
      SourceAt(m, rename, order, n - 1, j);
    } else {
      ArrivedAt(m, rename, order, n - 1, j);
      NoClash(rename, a, order[j]);
    }
  }

  /** A name that is no source and that nothing moves to is as before. */
  lemma {:induction false} UntouchedAt(m: Fields, rename: map<string, string>, order: seq<string>, n: nat, k: string)
    requires IsOrder(order, rename.Keys) && Independent(rename) && n <= |order|
    requires k !in rename && !Arrives(m, rename, k)
    ensures var r := RenameIn(m, rename, order, n); (k in r <==> k in m) && (k in r ==> r[k] == m[k])
  {
    hide Clash, Independent;
    if n > 0 {
      UntouchedAt(m, rename, order, n - 1, k);
      SourceAt(m, rename, order, n - 1, n - 1);
      assert !Moves(m, rename, order[n - 1], k);
    }
  }

  lemma RenamedAt(m: Fields, rename: map<string, string>, order: seq<string>, k: string)
    requires IsOrder(order, rename.Keys) && Independent(rename)
    ensures var r, w := RenameIn(m, rename, order, |order|), Renamed(m, rename);
            (k in r <==> k in w) && (k in r ==> r[k] == w[k])
  {
    hide RenameIn, Clash, Independent;
    if Arrives(m, rename, k) {
      var a := Source(m, rename, k);
      var j :| 0 <= j < |order| && order[j] == a;
      ArrivedAt(m, rename, order, |order|, j);
      assert k in rename.Values;
    } else if k in rename {
      var j :| 0 <= j < |order| && order[j] == k;
      SourceAt(m, rename, order, |order|, j);
    } else {
      UntouchedAt(m, rename, order, |order|, k);
    }
  }

  lemma RenameDetermined(m: Fields, rename: map<string, string>, order: seq<string>)
    requires IsOrder(order, rename.Keys) && Independent(rename)
    ensures RenameIn(m, rename, order, |order|) == Renamed(m, rename)
  {
    hide RenameIn, Independent, Renamed;
    var r, w := RenameIn(m, rename, order, |order|), Renamed(m, rename);
    forall k ensures (k in r <==> k in w) && (k in r ==> r[k] == w[k]) {
      RenamedAt(m, rename, order, k);
    }
    assert r == w;
  }

  // ----- when the order of the renames cannot be told -----

  ghost predicate OrderFree(rename: map<string, string>) {
    forall m: Fields, p, q | IsOrder(p, rename.Keys) && IsOrder(q, rename.Keys) ::
      RenameIn(m, rename, p, |p|) == RenameIn(m, rename, q, |q|)
  }

  /** Renames none of whose sources is present do nothing. */
  lemma {:induction false} RenameNothing(m: Fields, rename: map<string, string>, order: seq<string>, n: nat)
    requires n <= |order| && (forall k | k in order :: k in rename) && forall i | 0 <= i < n :: order[i] !in m
    ensures RenameIn(m, rename, order, n) == m
  {
    if n > 0 {
      RenameNothing(m, rename, order, n - 1);
    }
  }

  lemma {:induction false} RenamePrefix(m: Fields, rename: map<string, string>, a: seq<string>, b: seq<string>, n: nat)
    requires n <= |a| && forall k | k in a + b :: k in rename
    ensures (forall k | k in a :: k in rename) && RenameIn(m, rename, a + b, n) == RenameIn(m, rename, a, n)
  {
    assert forall k | k in a :: k in a + b;
    if n > 0 {
      RenamePrefix(m, rename, a, b, n - 1);
    }
  }

  /** The other renames first, then two given ones: on fields only these two concern. */
  lemma RenameLast(m: Fields, rename: map<string, string>, others: seq<string>, a: string, c: string) returns (order: seq<string>)
    requires a in rename && c in rename && a != c && IsOrder(others, rename.Keys - {a, c})
    requires forall k | k in m :: k == a || k == c
    ensures IsOrder(order, rename.Keys)
    ensures RenameIn(m, rename, order, |order|) == RenameOne(RenameOne(m, a, rename[a]), c, rename[c])
  {
    var n := |others|;
    order := others + [a, c];
    assert order[n] == a && order[n + 1] == c;
    forall k | k in rename ensures k in order {
      assert k != a && k != c ==> k in others;
    }
    forall i | 0 <= i < n ensures others[i] !in m {
    }
    RenameNothing(m, rename, others, n);
    RenamePrefix(m, rename, others, [a, c], n);
    assert RenameIn(m, rename, order, n + 1) == RenameOne(m, a, rename[a]);
  }

  /** Fields on which two renames give different results in the two orders. */
  lemma TwoOrders(a: string, b: string, c: string, d: string) returns (m: Fields)
    requires a != c && (b == c || b == d)
    ensures forall k | k in m :: k == a || k == c
    ensures RenameOne(RenameOne(m, a, b), c, d) != RenameOne(RenameOne(m, c, d), a, b)
  {
    if b == c {
      m := map[a := "1"];
      assert c in RenameOne(RenameOne(m, c, d), a, b) && c !in RenameOne(RenameOne(m, a, b), c, d);
    } else if d == a {
      m := map[c := "1"];
      assert a in RenameOne(RenameOne(m, a, b), c, d) && a !in RenameOne(RenameOne(m, c, d), a, b);
    } else {
      m := map[a := "1", c := "2"];
      assert RenameOne(RenameOne(m, a, b), c, d)[b] == "2" && RenameOne(RenameOne(m, c, d), a, b)[b] == "1";
    }
  }

  lemma ClashShows(rename: map<string, string>, a: string, c: string)
    requires Clash(rename, a, c)
    ensures !OrderFree(rename)
  {
    hide RenameOne, RenameIn, IsOrder;
    var others := SomeOrder(rename.Keys - {a, c});
    assert rename.Keys - {c, a} == rename.Keys - {a, c};
    var m := TwoOrders(a, rename[a], c, rename[c]);
    var p := RenameLast(m, rename, others, a, c);
    var q := RenameLast(m, rename, others, c, a);
    DifferentOrders(rename, m, p, q);
  }

  lemma DifferentOrders(rename: map<string, string>, m: Fields, p: seq<string>, q: seq<string>)
    requires IsOrder(p, rename.Keys) && IsOrder(q, rename.Keys)
    requires RenameIn(m, rename, p, |p|) != RenameIn(m, rename, q, |q|)
    ensures !OrderFree(rename)
  {
  }

  /** The order of the renames can never be told from the outcome exactly when no rename's target is the
      source of another and no two have one target. */
  lemma OrderFreeIff(rename: map<string, string>)
    ensures OrderFree(rename) <==> Independent(rename)
  {
    hide Clash, RenameIn, Renamed;
    if Independent(rename) {
      forall m: Fields, p, q | IsOrder(p, rename.Keys) && IsOrder(q, rename.Keys)
        ensures RenameIn(m, rename, p, |p|) == RenameIn(m, rename, q, |q|)
      {
        RenameDetermined(m, rename, p);
        RenameDetermined(m, rename, q);
      }
    } else {
      var a, c :| a in rename && c in rename && Clash(rename, a, c);
      ClashShows(rename, a, c);
    }
  }

  // ----- 4. to 7. -----

  function Kept(m: Fields, keep: string -> bool): Fields {
    map k | k in m && keep(k) :: m[k]
  }

  predicate Any(patterns: seq<string -> bool>, k: string) {
    exists i | 0 <= i < |patterns| :: patterns[i](k)
  }

  /** A field survives both filters: the exclude list, unless empty, keeps what it matches, and the
      include list, unless empty, drops what it matches. */
  predicate Survives(t: Transformation, k: string) {
    && (|t.exclude| > 0 ==> Any(t.exclude, k))
    && (|t.include_| > 0 ==> !Any(t.include_, k))
  }

  predicate Internal(k: string) {
    HasPrefix(k, "__")
  }

  function Removed(m: Fields, names: seq<string>, n: nat): Fields
    requires n <= |names|
  {
    if n == 0 then m else Removed(m, names, n - 1) - {names[n - 1]}
  }

  function FirstMissing(m: Fields, names: seq<string>, i: nat): Outcome
    decreases |names| - i
  {
    if i >= |names| then Sent(m)
    else if names[i] !in m then MissingField(names[i])
    else FirstMissing(m, names, i + 1)
  }

  // ----- the whole -----

  /** The orders in which the maps are gone through, and the names met while stripping. */
  datatype Orders = Orders(defaults: seq<string>, visits: seq<string>, rename: seq<string>)

  function PrefixFor(idp: string): (p: string)
    ensures |p| > 0
  {
    "__" + idp + "_"
  }

  function BeforeStrip(t: Transformation, expand: string -> string, input: Fields): Fields {
    Removed(WithDefaults(input, t.defaults, expand), t.remove, |t.remove|)
  }

  /** The orders are ones the language allows for this input. */
  ghost predicate Possible(t: Transformation, expand: string -> string, idp: string, input: Fields, o: Orders) {
    && IsOrder(o.defaults, t.defaults.Keys) && IsOrder(o.rename, t.rename.Keys)
    && Legal(PrefixFor(idp), BeforeStrip(t, expand, input), o.visits)
  }

  /** What comes of fields that have been renamed. */
  function Finish(t: Transformation, m: Fields): Outcome {
    var kept := Kept(m, k => Survives(t, k));
    match FirstMissing(kept, t.mustInclude, 0)
    case MissingField(name) => MissingField(name)
    case Sent(_) => Sent(Kept(kept, k => !Internal(k)))
  }

  ghost function Transformed(t: Transformation, expand: string -> string, idp: string, input: Fields): Outcome {
    Finish(t, Renamed(Stripped(PrefixFor(idp), BeforeStrip(t, expand, input)), t.rename))
  }

  /** What comes of an input when the maps are gone through in given orders. */
  ghost function TransformedIn(t: Transformation, expand: string -> string, idp: string, input: Fields, o: Orders): Outcome
    requires Possible(t, expand, idp, input, o)
  {
    var stripped := StripIn(PrefixFor(idp), BeforeStrip(t, expand, input), o.visits, |o.visits|);
    Finish(t, RenameIn(stripped, t.rename, o.rename, |o.rename|))
  }

  /** Neither renaming stage depends on its order. */
  ghost predicate Settled(t: Transformation, expand: string -> string, idp: string, input: Fields) {
    OnceOnly(PrefixFor(idp), BeforeStrip(t, expand, input)) && Independent(t.rename)
  }

  /** Deleting from a map while going through it, in any order. */
  method DeleteUnless(m: Fields, keep: string -> bool) returns (r: Fields)
    ensures r == Kept(m, keep)
  {
    r := m;
    var todo := m.Keys;
    while todo != {}
      invariant todo <= m.Keys
      invariant r == map k | k in m && (k in todo || keep(k)) :: m[k]
      decreases todo
    {
      var key :| key in todo;
      todo := todo - {key};
      if !keep(key) {
        r := r - {key};
      }
    }
  }

  method SetDefaults(t: Transformation, expand: string -> string, input: Fields, order: seq<string>) returns (output: Fields)
    requires IsOrder(order, t.defaults.Keys)
    ensures output == WithDefaults(input, t.defaults, expand)
  {
    hide WithDefaults;
    output := input;
    for i := 0 to |order|
      invariant output == DefaultsIn(input, t.defaults, expand, order, i)
    {
      var k := order[i];
      if k !in output || output[k] == "" {
        output := output[k := expand(t.defaults[k])];
      }
    }
    DefaultsDetermined(input, t.defaults, expand, order);
  }

  method Remove(input: Fields, names: seq<string>) returns (output: Fields)
    ensures output == Removed(input, names, |names|)
  {
    output := input;
    for i := 0 to |names|
      invariant output == Removed(input, names, i)
    {
      output := output - {names[i]};
    }
  }

  lemma LegalAt(prefix: string, m: Fields, visits: seq<string>, i: nat)
    requires Legal(prefix, m, visits) && i < |visits|
    ensures var r := StripIn(prefix, m, visits, i);
            visits[i] in r && StripIn(prefix, m, visits, i + 1) == StripOne(prefix, r, visits[i])
  {
  }

  method Strip(prefix: string, input: Fields, visits: seq<string>) returns (output: Fields)
    requires |prefix| > 0 && Legal(prefix, input, visits)
    ensures output == StripIn(prefix, input, visits, |visits|)
    ensures OnceOnly(prefix, input) ==> output == Stripped(prefix, input)
  {
    assert StripIn(prefix, input, visits, 0) == input;
    hide OnceOnly, Stripped, Legal, HasPrefix, StripIn;
    output := input;
    for i := 0 to |visits|
      invariant output == StripIn(prefix, input, visits, i)
    {
      LegalAt(prefix, input, visits, i);
      var k := visits[i];
      if HasPrefix(k, prefix) {
        var v := output[k];
        output := output[k[|prefix|..] := v];
        output := output - {k};
      }
    }
    if OnceOnly(prefix, input) {
      StripDetermined(prefix, input, visits);
    }
  }

  method Rename(input: Fields, rename: map<string, string>, order: seq<string>) returns (output: Fields)
    requires IsOrder(order, rename.Keys)
    ensures output == RenameIn(input, rename, order, |order|)
    ensures Independent(rename) ==> output == Renamed(input, rename)
  {
    hide Independent, Renamed;
    output := input;
    for i := 0 to |order|
      invariant output == RenameIn(input, rename, order, i)
    {
      var from := order[i];
      if from in output {
        output := output[rename[from] := output[from]];
        output := output - {from};
      }
    }
    if Independent(rename) {
      RenameDetermined(input, rename, order);
    }
  }

  /** The last four stages. */
  method Filter(t: Transformation, input: Fields) returns (r: Outcome)
    ensures r == Finish(t, input)
  {
    var output := input;
    if |t.exclude| > 0 {
      output := DeleteUnless(output, k => Any(t.exclude, k));
    }
    if |t.include_| > 0 {
      output := DeleteUnless(output, k => !Any(t.include_, k));
    }
    assert output == Kept(input, k => Survives(t, k));
    for i := 0 to |t.mustInclude|
      invariant FirstMissing(output, t.mustInclude, i) == FirstMissing(output, t.mustInclude, 0)
    {
      if t.mustInclude[i] !in output {
        return MissingField(t.mustInclude[i]);
      }
    }
    output := DeleteUnless(output, k => !Internal(k));
    r := Sent(output);
  }

  /** The outcome is that of the orders in which the maps are gone through. Whatever they are, nothing internal is sent;
      when neither renaming stage depends on its order the outcome is one function of the input. */
  method Transform(t: Transformation, expand: string -> string, idp: string, input: Fields, orders: Orders) returns (r: Outcome)
    requires Possible(t, expand, idp, input, orders)
    ensures r == TransformedIn(t, expand, idp, input, orders)
    ensures r.Sent? ==> forall k | k in r.fields :: !Internal(k)
    ensures Settled(t, expand, idp, input) ==> r == Transformed(t, expand, idp, input)
  {
    hide Legal, IsOrder, Renamed, Stripped, OnceOnly, Independent, StripIn, RenameIn, WithDefaults, Removed;
    var output := SetDefaults(t, expand, input, orders.defaults);
    output := Remove(output, t.remove);
    output := Strip(PrefixFor(idp), output, orders.visits);
    output := Rename(output, t.rename, orders.rename);
    r := Filter(t, output);
  }
}
