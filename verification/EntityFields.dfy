/** What an unrolled entity holds, read off its path: `UnrollEntities` of pkg/geneos/utils.go told without its
    functions. */
module EntityFields {
  import opened Optional
  import opened Entities

  // ----- samplers -----

  predicate Enabled(types: Types, t: string, s: string) {
    t in types && Sampler(s, false) in types[t]
  }

  /** A group takes the sampler away by its type, disabled or not, or by name. */
  predicate TakesAway(types: Types, info: Info, t: string, s: string) {
    || (t in info.removeTypes && t in types && exists j | 0 <= j < |types[t]| :: types[t][j].name == s)
    || SamplerRef(t, s) in info.removeSamplers
  }

  predicate PlainTypes(info: Info) {
    && (forall i | 0 <= i < |info.addTypes| :: ':' !in info.addTypes[i])
    && (forall i | 0 <= i < |info.removeTypes| :: ':' !in info.removeTypes[i])
    && (forall i | 0 <= i < |info.removeSamplers| :: ':' !in info.removeSamplers[i].type_)
  }

  lemma LevelIff(types: Types, info: Info, t: string, s: string)
    requires ':' !in t && PlainTypes(info)
    ensures t + ":" + s in Adds(types, info) <==> t in info.addTypes && Enabled(types, t, s)
    ensures t + ":" + s in Removes(types, info) <==> TakesAway(types, info, t, s)
  {
    hide Adds, Removes;
    assert t + ":" + s == KeyOf(t, s);
    AddsIff(types, info, t, s);
    RemovesIff(types, info, t, s);
    var ss := SamplersOf(types, t);
    assert (exists j | 0 <= j < |ss| :: ss[j].name == s) <==> t in types && exists j | 0 <= j < |types[t]| :: types[t][j].name == s;
  }

  /** For type names without colons: an unrolled entity has the sampler `t:s` exactly when it holds it itself, for the
      empty type, or names a type that has it enabled, or some group around it names that type and no group from there
      down to its own takes the sampler away. */
  lemma SamplerIff(types: Types, leaf: Leaf, t: string, s: string)
    requires Unresolved(leaf) && ':' !in t
    requires PlainTypes(leaf.entity.info) && forall i | 0 <= i < |leaf.path| :: PlainTypes(leaf.path[i].info)
    ensures var r, e := Unrolled(types, leaf).info.resolved, leaf.entity;
            r.Some? && (t + ":" + s in r.value <==>
              || (t == "" && Sampler(s, false) in e.samplers)
              || (t in e.info.addTypes && Enabled(types, t, s))
              || exists i | 0 <= i < |leaf.path| ::
                   && t in leaf.path[i].info.addTypes && Enabled(types, t, s)
                   && forall j | i <= j < |leaf.path| :: !TakesAway(types, leaf.path[j].info, t, s))
  {
    hide Unrolled, EntityAdds, Adds, Removes, TakesAway, PlainTypes;
    var k, path := t + ":" + s, leaf.path;
    assert k == KeyOf(t, s);
    SamplerByPath(types, leaf, k);
    assert PlainTypes(leaf.entity.info);
    assert forall i | 0 <= i < |leaf.entity.info.addTypes| :: ':' !in leaf.entity.info.addTypes[i] by { Plain(leaf.entity.info); }
    EntityAddsIff(types, leaf.entity, t, s);
    forall i | 0 <= i < |path|
      ensures k in Adds(types, path[i].info) <==> t in path[i].info.addTypes && Enabled(types, t, s)
      ensures k in Removes(types, path[i].info) <==> TakesAway(types, path[i].info, t, s)
    {
      LevelIff(types, path[i].info, t, s);
    }
    forall i | 0 <= i < |path|
      ensures NotRemoved(types, path, i, |path|, k) <==> forall j | i <= j < |path| :: !TakesAway(types, path[j].info, t, s)
    {
    }
  }

  lemma Plain(info: Info)
    requires PlainTypes(info)
    ensures forall i | 0 <= i < |info.addTypes| :: ':' !in info.addTypes[i]
  {
  }

  /** The group that brought a map of resolved samplers along, none below it having one. */
  predicate LastPreset(path: seq<Group>, i: nat, n: nat) {
    i < n <= |path| && path[i].info.resolved.Some? && forall j | i < j < n :: path[j].info.resolved.None?
  }

  predicate NoneBelow(path: seq<Group>, i: nat, n: nat)
    requires n <= |path|
  {
    forall j | i < j < n :: path[j].info.resolved.None?
  }

  /** Group `i` adds the key, no group below it brought a map along, and none from it down takes the key away. */
  predicate AddedAt(types: Types, path: seq<Group>, i: nat, n: nat, k: string)
    requires i < n <= |path|
  {
    k in Adds(types, path[i].info) && NotRemoved(types, path, i, n, k) && NoneBelow(path, i, n)
  }

  /** The map that group `i` brought along holds the key, and none of the groups from the one around it down takes the
      key away. */
  predicate PresetAt(types: Types, path: seq<Group>, i: nat, n: nat, k: string)
    requires i < n <= |path|
  {
    && LastPreset(path, i, n) && k in path[i].info.resolved.value
    && NotRemoved(types, path, if i > 0 then i - 1 else i, n, k)
  }

  predicate Reaches(types: Types, path: seq<Group>, n: nat, k: string)
    requires n <= |path|
  {
    exists i | 0 <= i < n :: HandsDown(types, path, i, n, k)
  }

  predicate HandsDown(types: Types, path: seq<Group>, i: nat, n: nat, k: string)
    requires i < n <= |path|
  {
    AddedAt(types, path, i, n, k) || PresetAt(types, path, i, n, k)
  }

  lemma UpperStep(types: Types, path: seq<Group>, i: nat, n: nat, k: string)
    requires i + 1 < n <= |path|
    ensures var g := path[n - 1].info; var on := g.resolved.None? && k !in Removes(types, g);
            && (AddedAt(types, path, i, n, k) <==> on && AddedAt(types, path, i, n - 1, k))
            && (PresetAt(types, path, i, n, k) <==> on && PresetAt(types, path, i, n - 1, k))
            && (HandsDown(types, path, i, n, k) <==> on && HandsDown(types, path, i, n - 1, k))
  {
    hide Adds, Removes;
  }

  lemma LowestStep(types: Types, path: seq<Group>, n: nat, k: string)
    requires 0 < n <= |path|
    ensures var g := path[n - 1].info;
            && (AddedAt(types, path, n - 1, n, k) <==> k in Adds(types, g) && k !in Removes(types, g))
            && (PresetAt(types, path, n - 1, n, k) <==>
                  && g.resolved.Some? && k in g.resolved.value && k !in Removes(types, g)
                  && (n > 1 ==> k !in Removes(types, path[n - 2].info)))
  {
    hide Adds, Removes;
  }

  lemma ReachesStep(types: Types, path: seq<Group>, n: nat, k: string)
    requires 0 < n <= |path|
    ensures var g := path[n - 1].info;
            Reaches(types, path, n, k) <==>
              && k !in Removes(types, g)
              && (|| k in Adds(types, g)
                  || (if g.resolved.None? then Reaches(types, path, n - 1, k)
                      else k in g.resolved.value && (n > 1 ==> k !in Removes(types, path[n - 2].info))))
  {
    hide Adds, Removes, AddedAt, PresetAt;
    LowestStep(types, path, n, k);
    assert HandsDown(types, path, n - 1, n, k) <==> AddedAt(types, path, n - 1, n, k) || PresetAt(types, path, n - 1, n, k);
    hide HandsDown;
    forall i | 0 <= i < n - 1
      ensures var g := path[n - 1].info;
              HandsDown(types, path, i, n, k) <==> g.resolved.None? && k !in Removes(types, g) && HandsDown(types, path, i, n - 1, k)
    {
      UpperStep(types, path, i, n, k);
    }
    if Reaches(types, path, n - 1, k) {
      var i :| 0 <= i < n - 1 && HandsDown(types, path, i, n - 1, k);
      assert HandsDown(types, path, i, n, k) <==> path[n - 1].info.resolved.None? && k !in Removes(types, path[n - 1].info);
    }
  }

  lemma {:induction false} HandedDownReaches(types: Types, path: seq<Group>, n: nat, k: string)
    requires n <= |path|
    ensures k in HandedDown(types, path, n) <==> Reaches(types, path, n, k)
  {
    hide Adds, Removes, Reaches;
    if n > 0 {
      HandedDownReaches(types, path, n - 1, k);
      ReachesStep(types, path, n, k);
    } else {
      assert !Reaches(types, path, 0, k) by { NothingReaches(types, path, k); }
    }
  }

  lemma NothingReaches(types: Types, path: seq<Group>, k: string)
    ensures !Reaches(types, path, 0, k)
  {
  }

  /** The samplers of any unrolled entity, maps that came with the input included: one that the entity brought along is
      subject to its own group, and replaces what the groups hand down. */
  lemma AnySampler(types: Types, leaf: Leaf, k: string)
    ensures var r, e, n := Unrolled(types, leaf).info.resolved, leaf.entity, |leaf.path|;
            r.Some? && (k in r.value <==>
              || k in EntityAdds(types, e)
              || (e.info.resolved.Some? && k in e.info.resolved.value && (n > 0 ==> k !in Removes(types, leaf.path[n - 1].info)))
              || (e.info.resolved.None? && Reaches(types, leaf.path, n, k)))
  {
    hide EntityAdds, Adds, Removes, Reaches, Dedup, Up;
    HandedDownReaches(types, leaf.path, |leaf.path|, k);
    NothingReaches(types, leaf.path, k);
  }

  /** Nothing else about an entity changes. */
  lemma RestStays(types: Types, leaf: Leaf)
    ensures var u, e := Unrolled(types, leaf), leaf.entity;
            u.(info := u.info.(attributes := e.info.attributes, vars := e.info.vars, resolved := e.info.resolved)) == e
  {
    hide EntityAdds, Removes, HandedDown, Dedup, Up;
  }

  // ----- attributes and variables -----

  /** Item `j` is the first of this name. */
  predicate FirstAt(kvs: seq<Keyed>, j: nat, name: string) {
    j < |kvs| && kvs[j].name == name && forall i | 0 <= i < j :: kvs[i].name != name
  }

  /** The first item of this name has the value. */
  predicate Says(kvs: seq<Keyed>, name: string, value: string) {
    exists j: nat | j < |kvs| :: FirstAt(kvs, j, name) && kvs[j].value == value
  }

  predicate Silent(kvs: seq<Keyed>, name: string) {
    forall i | 0 <= i < |kvs| :: kvs[i].name != name
  }

  lemma FirstAtCons(kv: Keyed, rest: seq<Keyed>, j: nat, name: string)
    ensures FirstAt([kv] + rest, j + 1, name) <==> kv.name != name && FirstAt(rest, j, name)
    ensures FirstAt([kv] + rest, 0, name) <==> kv.name == name
  {
    var all := [kv] + rest;
    assert all[0] == kv && forall i | 0 <= i < |rest| :: all[i + 1] == rest[i];
    if FirstAt(all, j + 1, name) {
      forall i | 0 <= i < j ensures rest[i].name != name {
        assert all[i + 1].name != name;
      }
    }
  }

  lemma SaysCons(kv: Keyed, rest: seq<Keyed>, name: string, value: string)
    ensures Says([kv] + rest, name, value) <==> if kv.name == name then kv.value == value else Says(rest, name, value)
  {
    hide FirstAt;
    var all := [kv] + rest;
    FirstAtCons(kv, rest, 0, name);
    if j: nat :| j < |rest| && FirstAt(rest, j, name) && rest[j].value == value {
      FirstAtCons(kv, rest, j, name);
      assert all[j + 1] == rest[j];
    }
    if j: nat :| j < |all| && FirstAt(all, j, name) && all[j].value == value {
      if j > 0 {
        FirstAtCons(kv, rest, j - 1, name);
        assert all[j] == rest[j - 1];
      }
    }
  }

  lemma SilentCons(kv: Keyed, rest: seq<Keyed>, name: string)
    ensures Silent([kv] + rest, name) <==> kv.name != name && Silent(rest, name)
  {
    var all := [kv] + rest;
    assert all[0] == kv && forall i | 0 <= i < |rest| :: all[i + 1] == rest[i];
  }

  lemma {:induction false} FindIs(kvs: seq<Keyed>, name: string, value: string)
    ensures Find(kvs, name) == Some(value) <==> Says(kvs, name, value)
    ensures Find(kvs, name) == None <==> Silent(kvs, name)
  {
    if |kvs| > 0 {
      FindIs(kvs[1..], name, value);
      SaysCons(kvs[0], kvs[1..], name, value);
      SilentCons(kvs[0], kvs[1..], name);
      assert kvs == [kvs[0]] + kvs[1..];
      hide Says, Silent;
    }
  }

  /** The entity says so, or it is silent and so are the groups below one that says so. */
  predicate NearestSays(levels: seq<seq<Keyed>>, own: seq<Keyed>, name: string, value: string) {
    || Says(own, name, value)
    || (Silent(own, name) && exists i | 0 <= i < |levels| ::
          Says(levels[i], name, value) && forall j | i < j < |levels| :: Silent(levels[j], name))
  }

  lemma {:induction false} NearestIs(levels: seq<seq<Keyed>>, n: nat, name: string, value: string)
    requires n <= |levels|
    ensures Nearest(levels, n, name) == Some(value) <==>
              exists i | 0 <= i < n :: Says(levels[i], name, value) && forall j | i < j < n :: Silent(levels[j], name)
  {
    hide Says, Silent, Find;
    if n > 0 {
      NearestIs(levels, n - 1, name, value);
      FindIs(levels[n - 1], name, value);
      if Find(levels[n - 1], name).Some? {
        FindIs(levels[n - 1], name, Find(levels[n - 1], name).value);
      }
    }
  }

  lemma UniqueSays(kvs: seq<Keyed>, name: string, value: string)
    requires Unique(kvs)
    ensures Keyed(name, value) in kvs <==> Says(kvs, name, value)
  {
  }

  lemma OneList(levels: seq<seq<Keyed>>, own: seq<Keyed>, d: seq<Keyed>, name: string, value: string)
    requires Unique(d) && Find(d, name) == Nearest(levels + [own], |levels| + 1, name)
    ensures Keyed(name, value) in d <==> NearestSays(levels, own, name, value)
  {
    hide Says, Silent, Find;
    UniqueSays(d, name, value);
    FindIs(d, name, value);
    FindIs(own, name, value);
    if Find(own, name).Some? {
      FindIs(own, name, Find(own, name).value);
    }
    NearestPrefix(levels, own, |levels|, name);
    NearestIs(levels, |levels|, name, value);
  }

  /** Inside a group: an entity has one attribute of each name that it or a group around it has, with the value that the
      nearest of them gives it first; variables likewise. Outside all groups both stay as they are. */
  lemma AttributeIff(types: Types, leaf: Leaf, name: string, value: string)
    ensures var u, e := Unrolled(types, leaf).info, leaf.entity.info;
            if leaf.path == [] then u.attributes == e.attributes && u.vars == e.vars
            else
              && Unique(u.attributes) && Unique(u.vars)
              && (Keyed(name, value) in u.attributes <==>
                    NearestSays(AttributeLevels(leaf.path), e.attributes, name, value))
              && (Keyed(name, value) in u.vars <==> NearestSays(VarLevels(leaf.path), e.vars, name, value))
  {
    hide Dedup, EntityAdds, Removes, HandedDown, Up, NearestSays, Nearest, Unique, Find;
    if leaf.path != [] {
      NearestWins(types, leaf, name);
      OneList(AttributeLevels(leaf.path), leaf.entity.info.attributes, Unrolled(types, leaf).info.attributes, name, value);
      OneList(VarLevels(leaf.path), leaf.entity.info.vars, Unrolled(types, leaf).info.vars, name, value);
    }
  }

  // ----- the order of what is left -----

  /** The items left stand at these places of the list, in order, each the first of its name. */
  predicate FirstPlaces(kvs: seq<Keyed>, d: seq<Keyed>, at: seq<nat>) {
    && |at| == |d| && (forall i, j | 0 <= i < j < |at| :: at[i] < at[j])
    && (forall i | 0 <= i < |at| :: at[i] < |kvs| && kvs[at[i]] == d[i] && Silent(kvs[..at[i]], d[i].name))
  }

  lemma PlacesShift(kv: Keyed, kvs: seq<Keyed>, d: seq<Keyed>, at: seq<nat>) returns (up: seq<nat>)
    requires FirstPlaces(kvs, d, at) && forall i | 0 <= i < |d| :: d[i].name != kv.name
    ensures FirstPlaces([kv] + kvs, d, up) && FirstPlaces([kv] + kvs, [kv] + d, [0] + up)
  {
    up := seq(|at|, i requires 0 <= i < |at| => at[i] + 1);
    var all := [kv] + kvs;
    forall i | 0 <= i < |at| ensures all[up[i]] == d[i] && Silent(all[..up[i]], d[i].name) {
      SilentCons(kv, kvs[..at[i]], d[i].name);
      assert all[..at[i] + 1] == [kv] + kvs[..at[i]];
    }
    hide Says, Silent;
    assert FirstPlaces(all, d, up);
    assert Silent(all[..0], kv.name) by { SilentNothing(all, kv.name); }
    FirstToo(all, d, up, kv);
  }

  lemma SilentNothing(kvs: seq<Keyed>, name: string)
    ensures Silent(kvs[..0], name)
  {
  }

  lemma FirstToo(all: seq<Keyed>, d: seq<Keyed>, up: seq<nat>, kv: Keyed)
    requires |all| > 0 && all[0] == kv && FirstPlaces(all, d, up) && Silent(all[..0], kv.name)
    requires forall i | 0 <= i < |up| :: up[i] > 0
    ensures FirstPlaces(all, [kv] + d, [0] + up)
  {
    hide Silent;
  }

  /** Removing duplicates keeps the order. */
  lemma {:induction false} DedupPlaces(kvs: seq<Keyed>, seen: set<string>) returns (at: seq<nat>)
    ensures FirstPlaces(kvs, Dedup(kvs, seen), at)
  {
    if |kvs| == 0 {
      at := [];
    } else {
      hide FirstPlaces, Unique;
      var kv, rest := kvs[0], kvs[1..];
      assert kvs == [kv] + rest;
      var more := if kv.name in seen then seen else seen + {kv.name};
      at := DedupPlaces(rest, more);
      DedupUnique(rest, more);
      at := PlacesShift(kv, rest, Dedup(rest, more), at);
      if kv.name !in seen {
        at := [0] + at;
      }
    }
  }
}
