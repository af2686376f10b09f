/** The CA bundle: `UpdateCACertsFiles` and `WriteCertificatesTo` of pkg/certs/write.go and
    `WriteTrustStore` of pkg/certs/keystore.go.

    A PEM file with root certificates and a truststore made from it, updated call after call while time
    passes and certificates expire. */
module CACerts {
  import opened Optional

  /** `root` stands for the checks of `IsValidRootCA` that do not depend on time. Certificates are equal
      when they are the same value. */
  datatype Cert = Cert(raw: seq<int>, name: string, root: bool, notBefore: int, notAfter: int)

  /** The PEM file, if there is one, and the entries of the truststore under their aliases. */
  datatype Files = Files(pem: Option<seq<Cert>>, trust: map<string, Cert>)

  predicate ValidRoot(c: Cert, now: int) {
    c.root && c.notBefore < now < c.notAfter
  }

  // ----- filters -----

  function Valid(certs: seq<Cert>, now: int, n: nat): seq<Cert>
    requires n <= |certs|
  {
    if n == 0 then [] else Valid(certs, now, n - 1) + if ValidRoot(certs[n - 1], now) then [certs[n - 1]] else []
  }

  function ValidGiven(roots: seq<Option<Cert>>, now: int, n: nat): seq<Cert>
    requires n <= |roots|
  {
    if n == 0 then []
    else ValidGiven(roots, now, n - 1)
         + if roots[n - 1].Some? && ValidRoot(roots[n - 1].value, now) then [roots[n - 1].value] else []
  }

  /** `WriteCertificatesTo` leaves out what has expired. */
  function Written(certs: seq<Cert>, now: int, n: nat): seq<Cert>
    requires n <= |certs|
  {
    if n == 0 then [] else Written(certs, now, n - 1) + if certs[n - 1].notAfter < now then [] else [certs[n - 1]]
  }

  lemma {:induction false} ValidIff(certs: seq<Cert>, now: int, n: nat, c: Cert)
    requires n <= |certs|
    ensures c in Valid(certs, now, n) <==> c in certs[..n] && ValidRoot(c, now)
  {
    if n > 0 {
      ValidIff(certs, now, n - 1, c);
      assert certs[..n] == certs[..n - 1] + [certs[n - 1]];
    }
  }

  lemma {:induction false} ValidGivenIff(roots: seq<Option<Cert>>, now: int, n: nat, c: Cert)
    requires n <= |roots|
    ensures c in ValidGiven(roots, now, n) <==> Some(c) in roots[..n] && ValidRoot(c, now)
  {
    if n > 0 {
      ValidGivenIff(roots, now, n - 1, c);
      assert roots[..n] == roots[..n - 1] + [roots[n - 1]];
    }
  }

  lemma {:induction false} WrittenAll(certs: seq<Cert>, now: int, n: nat)
    requires n <= |certs| && forall c | c in certs :: ValidRoot(c, now)
    ensures Written(certs, now, n) == certs[..n]
  {
    if n > 0 {
      WrittenAll(certs, now, n - 1);
      assert certs[n - 1] in certs && certs[..n] == certs[..n - 1] + [certs[n - 1]];
    }
  }

  // ----- the truststore -----

  /** One entry per alias: a certificate replaces one added before it under its alias. `alias` is how the
      store names an entry for a common name. */
  function TrustOf(alias: string -> string, certs: seq<Cert>, now: int, n: nat): map<string, Cert>
    requires n <= |certs|
  {
    if n == 0 then map[]
    else
      var m := TrustOf(alias, certs, now, n - 1);
      if ValidRoot(certs[n - 1], now) then m[alias(certs[n - 1].name) := certs[n - 1]] else m
  }

  function Trusted(alias: string -> string, certs: seq<Cert>, now: int): map<string, Cert> {
    TrustOf(alias, certs, now, |certs|)
  }

  predicate LastUnder(alias: string -> string, certs: seq<Cert>, now: int, n: nat, a: string, i: int) {
    && 0 <= i < n <= |certs| && ValidRoot(certs[i], now) && alias(certs[i].name) == a
    && forall j | i < j < n && ValidRoot(certs[j], now) :: alias(certs[j].name) != a
  }

  lemma LastUnderStep(alias: string -> string, certs: seq<Cert>, now: int, n: nat, a: string, i: int)
    requires 0 < n <= |certs| && !(ValidRoot(certs[n - 1], now) && alias(certs[n - 1].name) == a)
    ensures LastUnder(alias, certs, now, n, a, i) <==> LastUnder(alias, certs, now, n - 1, a, i)
  {
    if LastUnder(alias, certs, now, n - 1, a, i) {
      forall j | i < j < n && ValidRoot(certs[j], now) ensures alias(certs[j].name) != a {
      }
    }
  }

  /** An alias holds the last valid root certificate with that alias, if there is one. */
  lemma {:induction false} TrustOfLast(alias: string -> string, certs: seq<Cert>, now: int, n: nat, a: string)
    requires n <= |certs|
    ensures var m := TrustOf(alias, certs, now, n);
            && (a in m <==> exists i :: LastUnder(alias, certs, now, n, a, i))
            && (forall i | LastUnder(alias, certs, now, n, a, i) :: a in m && m[a] == certs[i])
  {
    if n > 0 {
      TrustOfLast(alias, certs, now, n - 1, a);
      if ValidRoot(certs[n - 1], now) && alias(certs[n - 1].name) == a {
        assert LastUnder(alias, certs, now, n, a, n - 1);
      } else {
        var m := n - 1;
        if i :| LastUnder(alias, certs, now, m, a, i) {
          LastUnderStep(alias, certs, now, n, a, i);
        }
        forall i | LastUnder(alias, certs, now, n, a, i) ensures LastUnder(alias, certs, now, m, a, i) {
          LastUnderStep(alias, certs, now, n, a, i);
        }
      }
    }
  }

  lemma {:induction false} TrustOfValid(alias: string -> string, certs: seq<Cert>, now: int, n: nat)
    requires n <= |certs|
    ensures Trusted(alias, Valid(certs, now, n), now) == TrustOf(alias, certs, now, n)
  {
    if n > 0 {
      TrustOfValid(alias, certs, now, n - 1);
      var v := Valid(certs, now, n - 1);
      if ValidRoot(certs[n - 1], now) {
        TrustOfAppend(alias, v, certs[n - 1], now, |v|);
      } else {
        assert v + [] == v;
      }
    }
  }

  lemma {:induction false} TrustOfAppend(alias: string -> string, certs: seq<Cert>, c: Cert, now: int, n: nat)
    requires n <= |certs|
    ensures TrustOf(alias, certs + [c], now, n) == TrustOf(alias, certs, now, n)
  {
    if n > 0 {
      TrustOfAppend(alias, certs, c, now, n - 1);
    }
  }

  // ----- one call -----

  /** The given roots that are not yet there, each once, after those that are. */
  function AddMissing(all: seq<Cert>, roots: seq<Cert>, n: nat): seq<Cert>
    requires n <= |roots|
  {
    if n == 0 then all
    else
      var before := AddMissing(all, roots, n - 1);
      if roots[n - 1] in before then before else before + [roots[n - 1]]
  }

  /** Which file operations succeed. */
  datatype Luck = Luck(read: bool, pem: bool, trust: bool)

  datatype Call = Call(now: int, roots: seq<Option<Cert>>, luck: Luck)

  datatype Result = Updated(bool) | Failed

  function Given(c: Call): seq<Cert> {
    ValidGiven(c.roots, c.now, |c.roots|)
  }

  /** What is in the file once the given roots are in it. */
  function Wanted(f: Files, c: Call): seq<Cert> {
    if NoCerts(f) then Given(c)
    else AddMissing(Valid(f.pem.value, c.now, |f.pem.value|), Given(c), |Given(c)|)
  }

  /** No file, or one without certificates. */
  predicate NoCerts(f: Files) {
    f.pem.None? || f.pem.value == []
  }

  predicate AddsSome(f: Files, c: Call) {
    NoCerts(f) || Wanted(f, c) != Valid(f.pem.value, c.now, |f.pem.value|)
  }

  function Update(alias: string -> string, f: Files, c: Call): (Files, Result) {
    var all := Wanted(f, c);
    var pem := Some(Written(all, c.now, |all|));
    var trust := Trusted(alias, all, c.now);
    if f.pem.Some? && !c.luck.read then (f, Failed)
    else if NoCerts(f) then
      if !c.luck.pem then (f, Failed)
      else if !c.luck.trust then (f.(pem := pem), Failed)
      else (Files(pem, trust), Updated(true))
    else if !c.luck.trust then (f, Failed)
    else if !AddsSome(f, c) then (f.(trust := trust), Updated(false))
    else if !c.luck.pem then (f.(trust := trust), Failed)
    else (Files(pem, trust), Updated(true))
  }

  lemma {:induction false} AddMissingIff(all: seq<Cert>, roots: seq<Cert>, n: nat, c: Cert)
    requires n <= |roots|
    ensures c in AddMissing(all, roots, n) <==> c in all || c in roots[..n]
    ensures all <= AddMissing(all, roots, n)
  {
    if n > 0 {
      AddMissingIff(all, roots, n - 1, c);
      AddMissingIff(all, roots, n - 1, roots[n - 1]);
      assert roots[..n] == roots[..n - 1] + [roots[n - 1]];
    }
  }

  /** The wanted certificates are the valid ones of the file and the valid ones given. */
  lemma WantedIff(f: Files, c: Call, x: Cert)
    ensures x in Wanted(f, c) <==>
              ValidRoot(x, c.now) && (Some(x) in c.roots || (f.pem.Some? && x in f.pem.value))
  {
    hide Valid, ValidGiven, AddMissing, ValidRoot;
    ValidGivenIff(c.roots, c.now, |c.roots|, x);
    assert c.roots[..|c.roots|] == c.roots;
    if !NoCerts(f) {
      var certs := f.pem.value;
      ValidIff(certs, c.now, |certs|, x);
      assert certs[..|certs|] == certs;
      AddMissingIff(Valid(certs, c.now, |certs|), Given(c), |Given(c)|, x);
      assert Given(c)[..|Given(c)|] == Given(c);
    }
  }

  /** Nothing else is ever wanted than roots within their time. */
  lemma WantedTimes(f: Files, c: Call, x: Cert)
    ensures x in Wanted(f, c) <==>
              && x.root && x.notBefore < c.now < x.notAfter
              && (Some(x) in c.roots || (f.pem.Some? && x in f.pem.value))
  {
    hide Wanted;
    WantedIff(f, c, x);
  }

  lemma WrittenWanted(f: Files, c: Call)
    ensures Written(Wanted(f, c), c.now, |Wanted(f, c)|) == Wanted(f, c)
  {
    hide Wanted, Written;
    var all := Wanted(f, c);
    forall x | x in all ensures ValidRoot(x, c.now) {
      WantedIff(f, c, x);
    }
    WrittenAll(all, c.now, |all|);
    assert all[..|all|] == all;
  }

  lemma {:induction false} NoneMissingIff(all: seq<Cert>, roots: seq<Cert>, n: nat)
    requires n <= |roots|
    ensures AddMissing(all, roots, n) == all <==> forall x | x in roots[..n] :: x in all
  {
    forall x ensures x in AddMissing(all, roots, n) <==> x in all || x in roots[..n] {
      AddMissingIff(all, roots, n, x);
    }
    if (forall x | x in roots[..n] :: x in all) && n > 0 {
      assert roots[..n] == roots[..n - 1] + [roots[n - 1]];
      NoneMissingIff(all, roots, n - 1);
    }
  }

  /** A successful call reports an update exactly when the file held no certificates or lacked a valid
      root that was given. */
  lemma UpdatedIff(alias: string -> string, f: Files, c: Call)
    requires Update(alias, f, c).1 != Failed
    ensures Update(alias, f, c).1 == Updated(true) <==>
              NoCerts(f) || exists x :: Some(x) in c.roots && ValidRoot(x, c.now) && x !in f.pem.value
    ensures Update(alias, f, c).1 == Updated(false) ==> Update(alias, f, c).0.pem == f.pem
  {
    hide Valid, ValidGiven, AddMissing, Written, TrustOf, ValidRoot;
    if !NoCerts(f) {
      var certs := f.pem.value;
      var all, given := Valid(certs, c.now, |certs|), Given(c);
      NoneMissingIff(all, given, |given|);
      assert given[..|given|] == given && certs[..|certs|] == certs && c.roots[..|c.roots|] == c.roots;
      forall x ensures (x in given <==> Some(x) in c.roots && ValidRoot(x, c.now))
        && (x in all <==> x in certs && ValidRoot(x, c.now))
      {
        ValidGivenIff(c.roots, c.now, |c.roots|, x);
        ValidIff(certs, c.now, |certs|, x);
      }
    }
  }

  /** After a successful call the truststore holds exactly the last valid root of the PEM file under
      every alias. */
  lemma Agreement(alias: string -> string, f: Files, c: Call)
    requires Update(alias, f, c).1 != Failed
    ensures var g := Update(alias, f, c).0; g.pem.Some? && g.trust == Trusted(alias, g.pem.value, c.now)
  {
    hide Valid, ValidGiven, AddMissing, Written, ValidRoot, TrustOf;
    WrittenWanted(f, c);
    if !NoCerts(f) && !AddsSome(f, c) {
      TrustOfValid(alias, f.pem.value, c.now, |f.pem.value|);
    }
  }

  predicate Rising(at: seq<nat>) {
    forall i, j | 0 <= i < j < |at| :: at[i] < at[j]
  }

  /** `out` are the certificates at the places `at`, in order, those before `n` that `pick` names. */
  predicate Picked(out: seq<Cert>, certs: seq<Cert>, n: nat, at: seq<nat>, pick: nat -> bool) {
    && n <= |certs| && Rising(at) && |at| == |out|
    && (forall i | 0 <= i < |at| :: at[i] < n && out[i] == certs[at[i]])
    && (forall p: nat | p < n :: p in at <==> pick(p))
  }

  lemma RisingMore(at: seq<nat>, n: nat)
    requires Rising(at) && forall i | 0 <= i < |at| :: at[i] < n
    ensures Rising(at + [n]) && n !in at && forall p: nat | p != n :: p in at + [n] <==> p in at
    ensures n in at + [n]
  {
    assert (at + [n])[|at|] == n;
  }

  /** One certificate more. */
  lemma PickNext(out: seq<Cert>, more: seq<Cert>, certs: seq<Cert>, n: nat, at: seq<nat>, pick: nat -> bool) returns (up: seq<nat>)
    requires n < |certs| && Picked(out, certs, n, at, pick) && more == if pick(n) then out + [certs[n]] else out
    ensures Picked(more, certs, n + 1, up, pick)
  {
    RisingMore(at, n);
    hide Rising;
    up := if pick(n) then at + [n] else at;
  }

  function ValidAt(certs: seq<Cert>, now: int): nat -> bool {
    (p: nat) => p < |certs| && ValidRoot(certs[p], now)
  }

  function NewAt(all: seq<Cert>, roots: seq<Cert>): nat -> bool {
    (p: nat) => p < |roots| && roots[p] !in all && roots[p] !in roots[..p]
  }

  function UnexpiredAt(certs: seq<Cert>, now: int): nat -> bool {
    (p: nat) => p < |certs| && now <= certs[p].notAfter
  }

  lemma NonePicked(certs: seq<Cert>, pick: nat -> bool)
    ensures Picked([], certs, 0, [], pick)
  {
  }

  lemma ValidStep(certs: seq<Cert>, now: int, n: nat)
    requires 0 < n <= |certs|
    ensures Valid(certs, now, n) ==
              if ValidAt(certs, now)(n - 1) then Valid(certs, now, n - 1) + [certs[n - 1]] else Valid(certs, now, n - 1)
  {
    hide ValidRoot;
  }

  /** The valid certificates stay in the order in which they stand in the file. */
  lemma {:induction false} ValidPlaces(certs: seq<Cert>, now: int, n: nat) returns (at: seq<nat>)
    requires n <= |certs|
    ensures Picked(Valid(certs, now, n), certs, n, at, ValidAt(certs, now))
  {
    if n == 0 {
      at := [];
      NonePicked(certs, ValidAt(certs, now));
    } else {
      ValidStep(certs, now, n);
      at := ValidPlaces(certs, now, n - 1);
      hide Picked, Valid, ValidAt;
      at := PickNext(Valid(certs, now, n - 1), Valid(certs, now, n), certs, n - 1, at, ValidAt(certs, now));
    }
  }

  lemma WrittenStep(certs: seq<Cert>, now: int, n: nat)
    requires 0 < n <= |certs|
    ensures Written(certs, now, n) ==
              if UnexpiredAt(certs, now)(n - 1) then Written(certs, now, n - 1) + [certs[n - 1]] else Written(certs, now, n - 1)
  {
  }

  /** What is written of a list are the certificates that have not expired, in their order. */
  lemma {:induction false} WrittenPlaces(certs: seq<Cert>, now: int, n: nat) returns (at: seq<nat>)
    requires n <= |certs|
    ensures Picked(Written(certs, now, n), certs, n, at, UnexpiredAt(certs, now))
  {
    if n == 0 {
      at := [];
      NonePicked(certs, UnexpiredAt(certs, now));
    } else {
      WrittenStep(certs, now, n);
      at := WrittenPlaces(certs, now, n - 1);
      hide Picked, Written, UnexpiredAt;
      at := PickNext(Written(certs, now, n - 1), Written(certs, now, n), certs, n - 1, at, UnexpiredAt(certs, now));
    }
  }

  lemma AddedStep(all: seq<Cert>, roots: seq<Cert>, n: nat)
    requires 0 < n <= |roots|
    ensures all <= AddMissing(all, roots, n - 1) && all <= AddMissing(all, roots, n)
    ensures var before := AddMissing(all, roots, n - 1)[|all|..];
            AddMissing(all, roots, n)[|all|..] == if NewAt(all, roots)(n - 1) then before + [roots[n - 1]] else before
  {
    AddMissingIff(all, roots, n - 1, roots[n - 1]);
    AddMissingIff(all, roots, n, roots[n - 1]);
  }

  /** The roots that are added come behind those that are there, in the order in which they were given, each once. */
  lemma {:induction false} AddedPlaces(all: seq<Cert>, roots: seq<Cert>, n: nat) returns (at: seq<nat>)
    requires n <= |roots|
    ensures all <= AddMissing(all, roots, n)
    ensures Picked(AddMissing(all, roots, n)[|all|..], roots, n, at, NewAt(all, roots))
  {
    if n == 0 {
      at := [];
      NonePicked(roots, NewAt(all, roots));
      assert all[|all|..] == [];
    } else {
      AddedStep(all, roots, n);
      at := AddedPlaces(all, roots, n - 1);
      hide Picked, AddMissing, NewAt;
      at := PickNext(AddMissing(all, roots, n - 1)[|all|..], AddMissing(all, roots, n)[|all|..], roots, n - 1, at, NewAt(all, roots));
    }
  }

  /** A call fails exactly when it cannot read the file that is there, cannot write the truststore, or has to write the
      PEM file and cannot. */
  lemma FailedIff(alias: string -> string, f: Files, c: Call)
    ensures Update(alias, f, c).1 == Failed <==>
              || (f.pem.Some? && !c.luck.read)
              || !c.luck.trust
              || (!c.luck.pem && (NoCerts(f) || exists x :: Some(x) in c.roots && ValidRoot(x, c.now) && x !in f.pem.value))
  {
    hide Wanted, Written, TrustOf, ValidRoot, AddsSome;
    var lucky := c.(luck := Luck(true, true, true));
    UpdatedIff(alias, f, lucky);
    SameWants(f, c, lucky);
  }

  lemma SameWants(f: Files, c: Call, d: Call)
    requires c.now == d.now && c.roots == d.roots
    ensures Wanted(f, c) == Wanted(f, d) && AddsSome(f, c) == AddsSome(f, d)
  {
  }

  /** A call that fails leaves each of the two files as it was or as a call that succeeds would. */
  lemma FailedLeaves(alias: string -> string, f: Files, c: Call)
    ensures var g, h := Update(alias, f, c).0, Update(alias, f, c.(luck := Luck(true, true, true))).0;
            (g.pem == f.pem || g.pem == h.pem) && (g.trust == f.trust || g.trust == h.trust)
  {
    hide Wanted, Written, TrustOf, AddsSome;
    SameWants(f, c, c.(luck := Luck(true, true, true)));
  }

  // ----- runs -----

  function Run(alias: string -> string, f: Files, cs: seq<Call>, n: nat): Files
    requires n <= |cs|
  {
    if n == 0 then f else Update(alias, Run(alias, f, cs, n - 1), cs[n - 1]).0
  }

  /** Time does not go back. */
  predicate Clock(cs: seq<Call>) {
    forall i, j | 0 <= i < j < |cs| :: cs[i].now <= cs[j].now
  }

  predicate Holds(f: Files, x: Cert) {
    f.pem.Some? && x in f.pem.value
  }

  /** Whatever fails, a valid root in the file is in it after the call. */
  lemma CallKeeps(alias: string -> string, f: Files, c: Call, x: Cert)
    requires ValidRoot(x, c.now)
    ensures Holds(f, x) ==> Holds(Update(alias, f, c).0, x)
    ensures Some(x) in c.roots && Update(alias, f, c).1 != Failed ==> Holds(Update(alias, f, c).0, x)
  {
    hide Valid, ValidGiven, AddMissing, Written, TrustOf, ValidRoot;
    WrittenWanted(f, c);
    WantedIff(f, c, x);
    if Update(alias, f, c).1 != Failed {
      UpdatedIff(alias, f, c);
    }
  }

  /** A root supplied to a successful call while valid is in the PEM file after every later call, failed
      ones included, as long as it is valid. */
  lemma {:induction false} RootsStay(alias: string -> string, f: Files, cs: seq<Call>, i: nat, n: nat, x: Cert)
    requires i < n <= |cs| && Clock(cs)
    requires Some(x) in cs[i].roots && ValidRoot(x, cs[i].now)
    requires Update(alias, Run(alias, f, cs, i), cs[i]).1 != Failed
    requires ValidRoot(x, cs[n - 1].now)
    ensures Holds(Run(alias, f, cs, n), x)
  {
    hide Update, Holds;
    CallKeeps(alias, Run(alias, f, cs, n - 1), cs[n - 1], x);
    if i + 1 < n {
      assert cs[i].now <= cs[n - 2].now <= cs[n - 1].now;
      RootsStay(alias, f, cs, i, n - 1, x);
    }
  }

  /** A second call with the same roots reports no update and leaves the PEM file as it is, if one of them
      was valid in the first and none has become valid since. */
  lemma RepeatIsQuiet(alias: string -> string, f: Files, c: Call, d: Call)
    requires Update(alias, f, c).1 != Failed && d.roots == c.roots && c.now <= d.now
    requires exists x :: Some(x) in c.roots && ValidRoot(x, c.now)
    requires forall x | Some(x) in c.roots && ValidRoot(x, d.now) :: ValidRoot(x, c.now)
    requires Update(alias, Update(alias, f, c).0, d).1 != Failed
    ensures var g := Update(alias, f, c).0;
            Update(alias, g, d).1 == Updated(false) && Update(alias, g, d).0.pem == g.pem
  {
    hide Update, ValidRoot;
    var g := Update(alias, f, c).0;
    UpdatedIff(alias, g, d);
    forall x | Some(x) in c.roots && ValidRoot(x, c.now) ensures Holds(g, x) {
      CallKeeps(alias, f, c, x);
    }
  }

  // ----- the code -----

  class Bundle {
    const alias: string -> string
    var pem: Option<seq<Cert>>
    var trust: map<string, Cert>

    constructor (alias: string -> string, pem: Option<seq<Cert>>, trust: map<string, Cert>)
      ensures this.alias == alias && Now() == Files(pem, trust)
    {
      this.alias, this.pem, this.trust := alias, pem, trust;
    }

    function Now(): Files
      reads this
    {
      Files(pem, trust)
    }

    method WriteTrustStore(certs: seq<Cert>, now: int, luck: bool) returns (ok: bool)
      modifies this`trust
      ensures ok == luck && trust == if ok then Trusted(alias, certs, now) else old(trust)
    {
      var k := map[];
      for i := 0 to |certs|
        invariant k == TrustOf(alias, certs, now, i) && trust == old(trust)
      {
        if ValidRoot(certs[i], now) {
          k := k[alias(certs[i].name) := certs[i]];
        }
      }
      if luck {
        trust := k;
      }
      ok := luck;
    }

    method WriteCertificates(certs: seq<Cert>, now: int, luck: bool) returns (ok: bool)
      modifies this`pem
      ensures ok == luck && pem == if ok then Some(Written(certs, now, |certs|)) else old(pem)
    {
      var b := [];
      for i := 0 to |certs|
        invariant b == Written(certs, now, i) && pem == old(pem)
      {
        if !(certs[i].notAfter < now) {
          b := b + [certs[i]];
        }
      }
      if luck {
        pem := Some(b);
      }
      ok := luck;
    }

    method UpdateCACertsFiles(c: Call) returns (r: Result)
      modifies this
      ensures (Now(), r) == Update(alias, old(Now()), c)
    {
      hide Written, TrustOf, ValidGiven, Valid, AddMissing;
      var roots := Given(c);
      if pem.Some? && !c.luck.read {
        return Failed;
      }
      if pem.None? || pem.value == [] {
        var ok := WriteCertificates(roots, c.now, c.luck.pem);
        if ok {
          ok := WriteTrustStore(roots, c.now, c.luck.trust);
        }
        return if ok then Updated(true) else Failed;
      }
      ghost var f := Now();
      var valid := Valid(pem.value, c.now, |pem.value|);
      var all, added := valid, false;
      AddedNone(valid, roots);
      for i := 0 to |roots|
        invariant Now() == f && all == AddMissing(valid, roots, i)
        invariant valid <= all && (added <==> all != valid)
      {
        AddedNext(valid, roots, i);
        if roots[i] in all {
          continue;
        }
        all := all + [roots[i]];
        added := true;
      }
      var ok := WriteTrustStore(all, c.now, c.luck.trust);
      if !ok {
        return Failed;
      }
      if !added {
        return Updated(false);
      }
      ok := WriteCertificates(all, c.now, c.luck.pem);
      r := if ok then Updated(true) else Failed;
    }
  }

  lemma AddedNone(all: seq<Cert>, roots: seq<Cert>)
    ensures AddMissing(all, roots, 0) == all
  {
  }

  lemma AddedNext(all: seq<Cert>, roots: seq<Cert>, i: nat)
    requires i < |roots|
    ensures var before := AddMissing(all, roots, i);
            AddMissing(all, roots, i + 1) == if roots[i] in before then before else before + [roots[i]]
  {
  }
}
