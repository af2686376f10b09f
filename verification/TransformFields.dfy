/** Which fields are sent and with which values: `Transform` of pkg/ims/transform.go told field by field. */
module TransformFields {
  import opened Optional
  import opened Transform

  /** A field as it is given: removed, or with its default when it is missing or empty, or as it came. */
  function Given(t: Transformation, expand: string -> string, input: Fields, k: string): Option<string> {
    if k in t.remove then None
    else if k in t.defaults && (k in input ==> input[k] == "") then Some(expand(t.defaults[k]))
    else if k in input then Some(input[k])
    else None
  }

  /** A field named for the incident system takes the place of the one without the prefix. */
  function Own(t: Transformation, expand: string -> string, idp: string, input: Fields, k: string): Option<string> {
    var prefix := "__" + idp + "_";
    if prefix <= k then None
    else if Given(t, expand, input, prefix + k).Some? then Given(t, expand, input, prefix + k)
    else Given(t, expand, input, k)
  }

  predicate RenamedTo(t: Transformation, a: string, k: string) {
    a in t.rename && t.rename[a] == k && a != k
  }

  /** The field is renamed to `k` with the value `v`, or it keeps the name `k` when nothing else gets that. */
  ghost predicate EndsUp(t: Transformation, expand: string -> string, idp: string, input: Fields, k: string, v: string) {
    || (exists a :: RenamedTo(t, a, k) && Own(t, expand, idp, input, a) == Some(v))
    || (k !in t.rename && Own(t, expand, idp, input, k) == Some(v)
        && forall a | RenamedTo(t, a, k) :: Own(t, expand, idp, input, a) == None)
  }

  /** Some exclude pattern matches, if there are any; no include pattern does. */
  predicate Passes(t: Transformation, k: string) {
    && (t.exclude == [] || exists i | 0 <= i < |t.exclude| :: t.exclude[i](k))
    && (forall i | 0 <= i < |t.include_| :: !t.include_[i](k))
  }

  ghost predicate There(t: Transformation, expand: string -> string, idp: string, input: Fields, k: string) {
    Passes(t, k) && exists v :: EndsUp(t, expand, idp, input, k, v)
  }

  function At(m: Fields, k: string): Option<string> {
    if k in m then Some(m[k]) else None
  }

  lemma {:induction false} RemovedAt(m: Fields, names: seq<string>, n: nat, k: string)
    requires n <= |names|
    ensures At(Removed(m, names, n), k) == if k in names[..n] then None else At(m, k)
  {
    if n > 0 {
      RemovedAt(m, names, n - 1, k);
      assert names[..n] == names[..n - 1] + [names[n - 1]];
    }
  }

  lemma GivenIs(t: Transformation, expand: string -> string, input: Fields, k: string)
    ensures At(BeforeStrip(t, expand, input), k) == Given(t, expand, input, k)
  {
    RemovedAt(WithDefaults(input, t.defaults, expand), t.remove, |t.remove|, k);
    assert t.remove[..|t.remove|] == t.remove;
  }

  lemma OwnIs(t: Transformation, expand: string -> string, idp: string, input: Fields, k: string)
    ensures At(Stripped(PrefixFor(idp), BeforeStrip(t, expand, input)), k) == Own(t, expand, idp, input, k)
  {
    hide BeforeStrip, Given;
    var prefix, m := PrefixFor(idp), BeforeStrip(t, expand, input);
    assert HasPrefix(k, prefix) <==> prefix <= k;
    GivenIs(t, expand, input, k);
    GivenIs(t, expand, input, prefix + k);
    if !HasPrefix(k, prefix) {
      InStripped(prefix, m, k);
    }
  }

  lemma EndsUpIs(t: Transformation, expand: string -> string, idp: string, input: Fields, k: string, v: string)
    requires Independent(t.rename)
    ensures var m := Renamed(Stripped(PrefixFor(idp), BeforeStrip(t, expand, input)), t.rename);
            At(m, k) == Some(v) <==> EndsUp(t, expand, idp, input, k, v)
  {
    hide Stripped, BeforeStrip, Own, Clash;
    var s := Stripped(PrefixFor(idp), BeforeStrip(t, expand, input));
    forall x ensures At(s, x) == Own(t, expand, idp, input, x) {
      OwnIs(t, expand, idp, input, x);
    }
    RenamedIs(s, t.rename, k);
    forall a | RenamedTo(t, a, k) ensures Moves(s, t.rename, a, k) <==> Own(t, expand, idp, input, a).Some? {
    }
    if Arrives(s, t.rename, k) {
      var b := Source(s, t.rename, k);
      forall a | RenamedTo(t, a, k) ensures a == b {
        OneSource(t.rename, a, b);
      }
      assert Own(t, expand, idp, input, b) == Some(s[b]);
    } else {
      forall a | RenamedTo(t, a, k) ensures Own(t, expand, idp, input, a) == None {
        assert !Moves(s, t.rename, a, k);
      }
    }
  }

  lemma RenamedIs(s: Fields, rename: map<string, string>, k: string)
    ensures At(Renamed(s, rename), k) ==
              if Arrives(s, rename, k) then At(s, Source(s, rename, k))
              else if k in rename then None
              else At(s, k)
  {
    if Arrives(s, rename, k) {
      assert rename[Source(s, rename, k)] in rename.Values;
    }
  }

  lemma OneSource(rename: map<string, string>, a: string, b: string)
    requires Independent(rename) && a in rename && b in rename && rename[a] == rename[b]
    ensures a == b
  {
    assert Clash(rename, a, b) <==> a != b;
  }

  lemma PassesIs(t: Transformation, k: string)
    ensures Survives(t, k) <==> Passes(t, k)
  {
  }

  /** The first name that is missing, if any is. */
  lemma {:induction false} FirstMissingIs(m: Fields, names: seq<string>, i: nat)
    requires i <= |names|
    ensures match FirstMissing(m, names, i)
            case Sent(fields) => fields == m && forall j | i <= j < |names| :: names[j] in m
            case MissingField(name) =>
              exists j | i <= j < |names| :: names[j] == name && name !in m && forall l | i <= l < j :: names[l] in m
    decreases |names| - i
  {
    if i < |names| && names[i] in m {
      FirstMissingIs(m, names, i + 1);
    }
  }

  /** The first required field that is not there. */
  ghost predicate FirstAbsent(t: Transformation, expand: string -> string, idp: string, input: Fields, j: nat) {
    && j < |t.mustInclude| && !There(t, expand, idp, input, t.mustInclude[j])
    && forall l | 0 <= l < j :: There(t, expand, idp, input, t.mustInclude[l])
  }

  lemma KeptIs(t: Transformation, expand: string -> string, idp: string, input: Fields, k: string, v: string)
    requires Settled(t, expand, idp, input)
    ensures var m := Renamed(Stripped(PrefixFor(idp), BeforeStrip(t, expand, input)), t.rename);
            var kept := Kept(m, x => Survives(t, x));
            && (k in kept <==> There(t, expand, idp, input, k))
            && (At(kept, k) == Some(v) <==> Passes(t, k) && EndsUp(t, expand, idp, input, k, v))
  {
    hide Renamed, Stripped, BeforeStrip, EndsUp, OnceOnly, Passes, Survives;
    PassesIs(t, k);
    var m := Renamed(Stripped(PrefixFor(idp), BeforeStrip(t, expand, input)), t.rename);
    forall u ensures At(m, k) == Some(u) <==> EndsUp(t, expand, idp, input, k, u) {
      EndsUpIs(t, expand, idp, input, k, u);
    }
    if k in m {
      assert EndsUp(t, expand, idp, input, k, m[k]);
    }
  }

  /** Whether the fields are sent, what is sent under each name, and else what is reported: the first required field
      that none of the fields ends up as, or that a filter drops. */
  lemma FieldByField(t: Transformation, expand: string -> string, idp: string, input: Fields, k: string, v: string)
    requires Settled(t, expand, idp, input)
    ensures var r := Transformed(t, expand, idp, input);
            && (r.Sent? <==> forall j | 0 <= j < |t.mustInclude| :: There(t, expand, idp, input, t.mustInclude[j]))
            && (r.Sent? ==> (k in r.fields && r.fields[k] == v <==>
                  EndsUp(t, expand, idp, input, k, v) && Passes(t, k) && !("__" <= k)))
            && (r.MissingField? ==> exists j: nat :: FirstAbsent(t, expand, idp, input, j) && r.name == t.mustInclude[j])
  {
    hide Renamed, Stripped, BeforeStrip, EndsUp, OnceOnly, Passes, Survives, Independent, There;
    var m := Renamed(Stripped(PrefixFor(idp), BeforeStrip(t, expand, input)), t.rename);
    var kept := Kept(m, x => Survives(t, x));
    FirstMissingIs(kept, t.mustInclude, 0);
    forall x ensures x in kept <==> There(t, expand, idp, input, x) {
      KeptIs(t, expand, idp, input, x, v);
    }
    KeptIs(t, expand, idp, input, k, v);
    if FirstMissing(kept, t.mustInclude, 0).MissingField? {
      var name := FirstMissing(kept, t.mustInclude, 0).name;
      var j: nat :| j < |t.mustInclude| && t.mustInclude[j] == name && name !in kept
        && forall l | 0 <= l < j :: t.mustInclude[l] in kept;
      assert FirstAbsent(t, expand, idp, input, j);
    }
  }

  /** A removed field is sent only when a rename or the prefix brings its name back. */
  lemma RemovedIsGone(t: Transformation, expand: string -> string, idp: string, input: Fields, k: string)
    requires Settled(t, expand, idp, input) && k in t.remove
    requires forall a | RenamedTo(t, a, k) :: Own(t, expand, idp, input, a) == None
    requires Given(t, expand, input, "__" + idp + "_" + k) == None
    ensures Transformed(t, expand, idp, input).Sent? ==> k !in Transformed(t, expand, idp, input).fields
  {
    hide Transformed, Settled;
    var r := Transformed(t, expand, idp, input);
    if r.Sent? && k in r.fields {
      FieldByField(t, expand, idp, input, k, r.fields[k]);
    }
  }

  lemma LongerPrefix(idp: string, k: string)
    ensures "__" + idp + "_" <= k ==> "__" <= k
  {
    var prefix := "__" + idp + "_";
    assert prefix[0] == '_' && prefix[1] == '_';
  }

  /** A field named for the incident system arrives without the prefix, whatever the plain field holds. */
  lemma PrefixArrives(t: Transformation, expand: string -> string, idp: string, input: Fields, k: string)
    requires Settled(t, expand, idp, input) && Transformed(t, expand, idp, input).Sent?
    requires var p := "__" + idp + "_" + k; p in input && input[p] != "" && p !in t.remove
    requires k !in t.rename && (forall a | RenamedTo(t, a, k) :: Own(t, expand, idp, input, a) == None)
    requires Passes(t, k) && !("__" <= k)
    ensures var r := Transformed(t, expand, idp, input);
            k in r.fields && r.fields[k] == input["__" + idp + "_" + k]
  {
    hide Transformed, Settled, Passes;
    var prefix := "__" + idp + "_";
    assert prefix <= k ==> "__" <= k by { LongerPrefix(idp, k); }
    FieldByField(t, expand, idp, input, k, input[prefix + k]);
  }
}
