/** Unrolling managed entities: `UnrollEntities` and its helpers in pkg/geneos/utils.go.

    The code walks down a tree of groups and pushes attributes, variables and samplers into copies
    of the groups and entities below. The specification looks up: what an entity ends up with is
    read off the path of groups from the outermost one to the one that holds it. */
module Entities {
  import opened Optional

  /** An attribute or a variable; only the name matters to the code. */
  datatype Keyed = Keyed(name: string, value: string)

  datatype Sampler = Sampler(name: string, disabled: bool)

  datatype SamplerRef = SamplerRef(type_: string, sampler: string)

  /** `resolved` is the map of `type:sampler` names, absent until it is first needed. */
  datatype Info = Info(attributes: seq<Keyed>, vars: seq<Keyed>, removeTypes: seq<string>,
                       removeSamplers: seq<SamplerRef>, addTypes: seq<string>, resolved: Option<set<string>>)

  datatype Entity = Entity(name: string, disabled: bool, info: Info, samplers: seq<Sampler>)

  datatype Group = Group(name: string, disabled: bool, info: Info, entities: seq<Entity>, groups: seq<Group>)

  type Types = map<string, seq<Sampler>>

  // ----- removing duplicates -----

  function Names(kvs: seq<Keyed>): (s: set<string>)
    ensures forall i | 0 <= i < |kvs| :: kvs[i].name in s
  {
    set i | 0 <= i < |kvs| :: kvs[i].name
  }

  /** The first item of every name, names in `seen` left out. */
  function Dedup(kvs: seq<Keyed>, seen: set<string>): seq<Keyed> {
    if |kvs| == 0 then []
    else if kvs[0].name in seen then Dedup(kvs[1..], seen)
    else [kvs[0]] + Dedup(kvs[1..], seen + {kvs[0].name})
  }

  method RemoveDuplicates(kvs: seq<Keyed>) returns (result: seq<Keyed>)
    ensures result == Dedup(kvs, {})
  {
    result := [];
    var a: set<string> := {};
    for i := 0 to |kvs|
      invariant result + Dedup(kvs[i..], a) == Dedup(kvs, {})
    {
      var v := kvs[i];
      assert kvs[i..][1..] == kvs[i + 1..];
      if v.name !in a {
        result := result + [v];
        a := a + {v.name};
      }
    }
  }

  /** The value that the first item with this name has. */
  function Find(kvs: seq<Keyed>, name: string): Option<string> {
    if |kvs| == 0 then None
    else if kvs[0].name == name then Some(kvs[0].value)
    else Find(kvs[1..], name)
  }

  predicate Unique(kvs: seq<Keyed>) {
    forall i, j | 0 <= i < j < |kvs| :: kvs[i].name != kvs[j].name
  }

  /** Removing duplicates keeps what is found under every name, and leaves every name once. */
  lemma {:induction false} DedupFinds(kvs: seq<Keyed>, seen: set<string>, name: string)
    ensures Find(Dedup(kvs, seen), name) == if name in seen then None else Find(kvs, name)
  {
    if |kvs| > 0 {
      DedupFinds(kvs[1..], seen, name);
      DedupFinds(kvs[1..], seen + {kvs[0].name}, name);
    }
  }

  lemma UniqueCons(kv: Keyed, kvs: seq<Keyed>)
    requires Unique(kvs) && forall i | 0 <= i < |kvs| :: kvs[i].name != kv.name
    ensures Unique([kv] + kvs)
  {
  }

  lemma {:induction false} DedupUnique(kvs: seq<Keyed>, seen: set<string>)
    ensures Unique(Dedup(kvs, seen))
    ensures forall i | 0 <= i < |Dedup(kvs, seen)| :: Dedup(kvs, seen)[i].name !in seen
    ensures forall i | 0 <= i < |Dedup(kvs, seen)| :: Dedup(kvs, seen)[i] in kvs
  {
    if |kvs| > 0 {
      if kvs[0].name in seen {
        DedupUnique(kvs[1..], seen);
      } else {
        DedupUnique(kvs[1..], seen + {kvs[0].name});
        UniqueCons(kvs[0], Dedup(kvs[1..], seen + {kvs[0].name}));
      }
    }
  }

  lemma {:induction false} DedupConcat(a: seq<Keyed>, b: seq<Keyed>, seen: set<string>)
    ensures Dedup(a + b, seen) == Dedup(a, seen) + Dedup(b, seen + Names(a))
  {
    if |a| == 0 {
      assert a + b == b && seen + Names(a) == seen;
    } else {
      assert (a + b)[1..] == a[1..] + b;
      assert Names(a) == {a[0].name} + Names(a[1..]) by { NamesStep(a); }
      assert seen + {a[0].name} + Names(a[1..]) == seen + Names(a);
      if a[0].name in seen {
        assert seen + Names(a[1..]) == seen + Names(a);
        DedupConcat(a[1..], b, seen);
      } else {
        DedupConcat(a[1..], b, seen + {a[0].name});
      }
    }
  }

  lemma NamesStep(a: seq<Keyed>)
    requires |a| > 0
    ensures Names(a) == {a[0].name} + Names(a[1..])
  {
    forall i | 0 <= i < |a|
      ensures a[i].name in {a[0].name} + Names(a[1..])
    {
      if i > 0 {
        assert a[1..][i - 1] == a[i];
      }
    }
  }

  lemma {:induction false} DedupTwice(b: seq<Keyed>, seen: set<string>, more: set<string>)
    requires seen <= more
    ensures Dedup(Dedup(b, seen), more) == Dedup(b, more)
  {
    if |b| > 0 {
      var n := b[0].name;
      if n in seen {
        DedupTwice(b[1..], seen, more);
      } else {
        var rest := Dedup(b[1..], seen + {n});
        assert ([b[0]] + rest)[1..] == rest;
        if n in more {
          DedupTwice(b[1..], seen + {n}, more);
        } else {
          DedupTwice(b[1..], seen + {n}, more + {n});
        }
      }
    }
  }

  /** Removing duplicates early does not matter to what is appended to. */
  lemma DedupAppend(a: seq<Keyed>, b: seq<Keyed>)
    ensures Dedup(a + Dedup(b, {}), {}) == Dedup(a + b, {})
  {
    DedupConcat(a, b, {});
    DedupConcat(a, Dedup(b, {}), {});
    DedupTwice(b, {}, {} + Names(a));
  }

  // ----- sampler sets -----

  function KeyOf(type_: string, sampler: string): string {
    type_ + ":" + sampler
  }

  function SamplersOf(types: Types, t: string): seq<Sampler> {
    if t in types then types[t] else []
  }

  function TypeKeys(types: Types, t: string, all: bool, n: nat): set<string>
    requires n <= |SamplersOf(types, t)|
  {
    if n == 0 then {}
    else
      var s := SamplersOf(types, t)[n - 1];
      TypeKeys(types, t, all, n - 1) + if all || !s.disabled then {KeyOf(t, s.name)} else {}
  }

  /** The keys of the samplers of the first `n` named types: all of them, or those not disabled. */
  function NamedKeys(types: Types, names: seq<string>, all: bool, n: nat): set<string>
    requires n <= |names|
  {
    if n == 0 then {}
    else NamedKeys(types, names, all, n - 1) + TypeKeys(types, names[n - 1], all, |SamplersOf(types, names[n - 1])|)
  }

  function RefKeys(refs: seq<SamplerRef>, n: nat): set<string>
    requires n <= |refs|
  {
    if n == 0 then {} else RefKeys(refs, n - 1) + {KeyOf(refs[n - 1].type_, refs[n - 1].sampler)}
  }

  function OwnKeys(samplers: seq<Sampler>, n: nat): set<string>
    requires n <= |samplers|
  {
    if n == 0 then {}
    else OwnKeys(samplers, n - 1) + if samplers[n - 1].disabled then {} else {KeyOf("", samplers[n - 1].name)}
  }

  /** What a level adds for itself and what it takes away from everything below it. */
  function Adds(types: Types, info: Info): set<string> {
    NamedKeys(types, info.addTypes, false, |info.addTypes|)
  }

  function Removes(types: Types, info: Info): set<string> {
    NamedKeys(types, info.removeTypes, true, |info.removeTypes|)
    + RefKeys(info.removeSamplers, |info.removeSamplers|)
  }

  function EntityAdds(types: Types, e: Entity): set<string> {
    OwnKeys(e.samplers, |e.samplers|) + Adds(types, e.info)
  }

  /** The map of resolved samplers that the resolve functions insert into and delete from. */
  class SamplerMap {
    var keys: set<string>

    constructor (keys: set<string>)
      ensures this.keys == keys
    {
      this.keys := keys;
    }

    method AddTypes(types: Types, added: seq<string>)
      modifies this
      ensures keys == old(keys) + NamedKeys(types, added, false, |added|)
    {
      for i := 0 to |added|
        invariant keys == old(keys) + NamedKeys(types, added, false, i)
      {
        ghost var before := keys;
        var samplers := SamplersOf(types, added[i]);
        for j := 0 to |samplers|
          invariant keys == before + TypeKeys(types, added[i], false, j)
        {
          if !samplers[j].disabled {
            keys := keys + {KeyOf(added[i], samplers[j].name)};
          }
        }
      }
    }

    method DeleteTypes(types: Types, removed: seq<string>)
      modifies this
      ensures keys == old(keys) - NamedKeys(types, removed, true, |removed|)
    {
      for i := 0 to |removed|
        invariant keys == old(keys) - NamedKeys(types, removed, true, i)
      {
        ghost var before := keys;
        if removed[i] in types {
          var samplers := types[removed[i]];
          for j := 0 to |samplers|
            invariant keys == before - TypeKeys(types, removed[i], true, j)
          {
            keys := keys - {KeyOf(removed[i], samplers[j].name)};
          }
        }
      }
    }

    method DeleteSamplers(removed: seq<SamplerRef>)
      modifies this
      ensures keys == old(keys) - RefKeys(removed, |removed|)
    {
      for i := 0 to |removed|
        invariant keys == old(keys) - RefKeys(removed, i)
      {
        keys := keys - {KeyOf(removed[i].type_, removed[i].sampler)};
      }
    }

    method AddOwn(samplers: seq<Sampler>)
      modifies this
      ensures keys == old(keys) + OwnKeys(samplers, |samplers|)
    {
      for i := 0 to |samplers|
        invariant keys == old(keys) + OwnKeys(samplers, i)
      {
        if !samplers[i].disabled {
          keys := keys + {KeyOf("", samplers[i].name)};
        }
      }
    }
  }

  function Keys(r: Option<set<string>>): set<string> {
    if r.Some? then r.value else {}
  }

  /** The map a level starts from: its own if it brought one along, else a copy of its parent's. */
  function Base(own: Option<set<string>>, parent: Option<set<string>>): set<string> {
    if own.Some? then own.value else Keys(parent)
  }

  method ResolveGroup(group: Group, types: Types) returns (g: Group)
    ensures g == group.(info := group.info.(resolved := Some(Keys(group.info.resolved) + Adds(types, group.info))))
  {
    var m := new SamplerMap(Keys(group.info.resolved));
    m.AddTypes(types, group.info.addTypes);
    g := group.(info := group.info.(resolved := Some(m.keys)));
  }

  method ResolveSamplersFromGroup(from: Info, to: Info, types: Types) returns (r: Info)
    ensures r == to.(resolved := Some(Base(to.resolved, from.resolved) - Removes(types, from) + Adds(types, to)))
  {
    var m := new SamplerMap(Base(to.resolved, from.resolved));
    m.DeleteTypes(types, from.removeTypes);
    m.DeleteSamplers(from.removeSamplers);
    assert m.keys == Base(to.resolved, from.resolved) - Removes(types, from);
    m.AddTypes(types, to.addTypes);
    r := to.(resolved := Some(m.keys));
  }

  method ResolveEntitySamplers(group: Option<Info>, entity: Entity, types: Types) returns (e: Entity)
    ensures e == entity.(info := entity.info.(resolved := Some(
      Base(entity.info.resolved, if group.Some? then group.value.resolved else None)
      - (if group.Some? then Removes(types, group.value) else {})
      + EntityAdds(types, entity))))
  {
    var m := new SamplerMap(Base(entity.info.resolved, if group.Some? then group.value.resolved else None));
    if group.Some? {
      m.DeleteTypes(types, group.value.removeTypes);
      m.DeleteSamplers(group.value.removeSamplers);
    }
    ghost var below := m.keys;
    assert below == Base(entity.info.resolved, if group.Some? then group.value.resolved else None)
                    - (if group.Some? then Removes(types, group.value) else {});
    m.AddOwn(entity.samplers);
    m.AddTypes(types, entity.info.addTypes);
    assert m.keys == below + EntityAdds(types, entity);
    e := entity.(info := entity.info.(resolved := Some(m.keys)));
  }

  // ----- the specification: looking up along the path -----

  /** An entity with the groups it lies in, outermost first. */
  datatype Leaf = Leaf(path: seq<Group>, entity: Entity)

  /** The entities of a group and of the groups below it, disabled ones and those in disabled groups
      left out, in document order. The last group of `path` is the group. */
  function Leaves(path: seq<Group>, g: Group): seq<Leaf>
    decreases g, 2
  {
    if g.disabled then [] else EntityLeaves(path + [g], g.entities, 0) + GroupLeaves(path + [g], g, 0)
  }

  function EntityLeaves(path: seq<Group>, es: seq<Entity>, i: nat): seq<Leaf>
    decreases |es| - i
  {
    if i >= |es| then []
    else (if es[i].disabled then [] else [Leaf(path, es[i])]) + EntityLeaves(path, es, i + 1)
  }

  function GroupLeaves(path: seq<Group>, g: Group, i: nat): seq<Leaf>
    decreases g, 1, |g.groups| - i
  {
    if i >= |g.groups| then [] else Leaves(path, g.groups[i]) + GroupLeaves(path, g, i + 1)
  }

  function AttributeLevels(path: seq<Group>): seq<seq<Keyed>> {
    seq(|path|, i requires 0 <= i < |path| => path[i].info.attributes)
  }

  function VarLevels(path: seq<Group>): seq<seq<Keyed>> {
    seq(|path|, i requires 0 <= i < |path| => path[i].info.vars)
  }

  /** The items of the first `n` levels, nearest level first. */
  function Up(levels: seq<seq<Keyed>>, n: nat): seq<Keyed>
    requires n <= |levels|
  {
    if n == 0 then [] else levels[n - 1] + Up(levels, n - 1)
  }

  /** The samplers that the first `n` groups of a path hand down to what lies in the last of them. */
  function HandedDown(types: Types, path: seq<Group>, n: nat): set<string>
    requires n <= |path|
  {
    if n == 0 then {}
    else
      var g := path[n - 1].info;
      (if g.resolved.Some? && n > 1 then g.resolved.value - Removes(types, path[n - 2].info)
       else if g.resolved.Some? then g.resolved.value
       else HandedDown(types, path, n - 1))
      + Adds(types, g) - Removes(types, g)
  }

  /** What an entity ends up with. */
  function Unrolled(types: Types, leaf: Leaf): Entity {
    var e := leaf.entity;
    if |leaf.path| == 0 then
      e.(info := e.info.(resolved := Some(Keys(e.info.resolved) + EntityAdds(types, e))))
    else
      e.(info := e.info.(
        attributes := Dedup(e.info.attributes + Up(AttributeLevels(leaf.path), |leaf.path|), {}),
        vars := Dedup(e.info.vars + Up(VarLevels(leaf.path), |leaf.path|), {}),
        resolved := Some((if e.info.resolved.Some?
                          then e.info.resolved.value - Removes(types, leaf.path[|leaf.path| - 1].info)
                          else HandedDown(types, leaf.path, |leaf.path|))
                         + EntityAdds(types, e))))
  }

  /** The result map of the first `n` leaves: of several entities with one name the last one stays. */
  function Collect(types: Types, ls: seq<Leaf>, n: nat): map<string, Entity>
    requires n <= |ls|
  {
    if n == 0 then map[] else Collect(types, ls, n - 1)[ls[n - 1].entity.name := Unrolled(types, ls[n - 1])]
  }

  function CollectAll(types: Types, ls: seq<Leaf>): map<string, Entity> {
    Collect(types, ls, |ls|)
  }

  lemma {:induction false} CollectPrefix(types: Types, a: seq<Leaf>, b: seq<Leaf>, n: nat)
    requires n <= |a|
    ensures Collect(types, a + b, n) == Collect(types, a, n)
  {
    hide Unrolled;
    if n > 0 {
      CollectPrefix(types, a, b, n - 1);
    }
  }

  lemma {:induction false} CollectConcat(types: Types, a: seq<Leaf>, b: seq<Leaf>, n: nat)
    requires n <= |b|
    ensures Collect(types, a + b, |a| + n) == CollectAll(types, a) + Collect(types, b, n)
  {
    hide Unrolled;
    if n == 0 {
      CollectPrefix(types, a, b, |a|);
    } else {
      CollectConcat(types, a, b, n - 1);
    }
  }

  // ----- the push-down refines the look-up -----

  /** The list that has been pushed into the copy of the `n`th level when it is used. */
  function PushedList(levels: seq<seq<Keyed>>, n: nat): seq<Keyed>
    requires 0 < n <= |levels|
  {
    if n == 1 then levels[0] else levels[n - 1] + Dedup(PushedList(levels, n - 1), {})
  }

  lemma {:induction false} PushedListIsUp(levels: seq<seq<Keyed>>, n: nat, a: seq<Keyed>)
    requires 0 < n <= |levels|
    ensures Dedup(a + PushedList(levels, n), {}) == Dedup(a + Up(levels, n), {})
  {
    hide Dedup;
    if n == 1 {
      assert levels[0] + [] == levels[0];
      assert Up(levels, 0) == [];
    } else {
      var own, parent := levels[n - 1], PushedList(levels, n - 1);
      PushedListIsUp(levels, n - 1, a + own);
      DedupAppend(a + own, parent);
      assert a + (own + Dedup(parent, {})) == a + own + Dedup(parent, {});
      assert a + (own + Up(levels, n - 1)) == a + own + Up(levels, n - 1);
    }
  }

  /** The resolved samplers of the copy of the `n`th group. */
  function PushedSamplers(types: Types, path: seq<Group>, n: nat): set<string>
    requires 0 < n <= |path|
  {
    var own := path[n - 1].info;
    if n == 1 then Keys(own.resolved) + Adds(types, own)
    else
      (if own.resolved.Some? then own.resolved.value else PushedSamplers(types, path, n - 1))
      - Removes(types, path[n - 2].info) + Adds(types, own)
  }

  lemma {:induction false} PushedSamplersAreHandedDown(types: Types, path: seq<Group>, n: nat)
    requires 0 < n <= |path|
    ensures PushedSamplers(types, path, n) - Removes(types, path[n - 1].info) == HandedDown(types, path, n)
  {
    hide Removes, Adds;
    if n > 1 {
      PushedSamplersAreHandedDown(types, path, n - 1);
    }
  }

  /** The copy of the last group of `path` as it is when it is unrolled. */
  function Pushed(types: Types, path: seq<Group>): Group
    requires |path| > 0
  {
    var n := |path|;
    var g := path[n - 1];
    g.(info := g.info.(attributes := PushedList(AttributeLevels(path), n),
                       vars := PushedList(VarLevels(path), n),
                       resolved := Some(PushedSamplers(types, path, n))))
  }

  lemma {:induction false} PushedListPrefix(a: seq<seq<Keyed>>, b: seq<seq<Keyed>>, n: nat)
    requires 0 < n <= |a| && n <= |b| && forall i | 0 <= i < n :: a[i] == b[i]
    ensures PushedList(a, n) == PushedList(b, n)
  {
    if n > 1 {
      PushedListPrefix(a, b, n - 1);
    }
  }

  lemma {:induction false} PushedSamplersPrefix(types: Types, a: seq<Group>, b: seq<Group>, n: nat)
    requires 0 < n <= |a| && n <= |b| && forall i | 0 <= i < n :: a[i] == b[i]
    ensures PushedSamplers(types, a, n) == PushedSamplers(types, b, n)
  {
    hide Removes, Adds;
    if n > 1 {
      PushedSamplersPrefix(types, a, b, n - 1);
    }
  }

  /** `setDefaults` on the information of a group or an entity: lists are appended. */
  function SetDefaults(source: Info, dest: Info): Info {
    dest.(attributes := dest.attributes + source.attributes, vars := dest.vars + source.vars)
  }

  /** The copy of a child group after the parent has been pushed into it. */
  lemma PushedChild(types: Types, path: seq<Group>, child: Group)
    requires |path| > 0
    ensures var parent := Pushed(types, path).info;
            var from := parent.(attributes := Dedup(parent.attributes, {}), vars := Dedup(parent.vars, {}));
            var to := SetDefaults(from, child.info);
            Pushed(types, path + [child]) == child.(info := to.(resolved :=
              Some(Base(child.info.resolved, parent.resolved) - Removes(types, parent) + Adds(types, child.info))))
  {
    hide Removes, Adds, Dedup;
    var longer, n := path + [child], |path|;
    PushedListPrefix(AttributeLevels(longer), AttributeLevels(path), n);
    PushedListPrefix(VarLevels(longer), VarLevels(path), n);
    PushedSamplersPrefix(types, longer, path, n);
    SameRemovals(types, Pushed(types, path).info, path[n - 1].info);
    SameAdditions(types, SetDefaults(Pushed(types, path).info, child.info), child.info);
  }

  lemma SameRemovals(types: Types, a: Info, b: Info)
    requires a.removeTypes == b.removeTypes && a.removeSamplers == b.removeSamplers
    ensures Removes(types, a) == Removes(types, b)
  {
  }

  lemma SameAdditions(types: Types, a: Info, b: Info)
    requires a.addTypes == b.addTypes
    ensures Adds(types, a) == Adds(types, b)
  {
  }

  /** The copy of an entity after its group has been pushed into it. */
  lemma PushedEntity(types: Types, path: seq<Group>, e: Entity)
    requires |path| > 0
    ensures var group := Pushed(types, path).info;
            var to := SetDefaults(group, e.info);
            Unrolled(types, Leaf(path, e)) == e.(info := e.info.(
              attributes := Dedup(to.attributes, {}), vars := Dedup(to.vars, {}),
              resolved := Some(Base(e.info.resolved, group.resolved) - Removes(types, group) + EntityAdds(types, e))))
  {
    hide Removes, EntityAdds, Dedup, Up, PushedList, PushedSamplers, HandedDown;
    var n := |path|;
    PushedListIsUp(AttributeLevels(path), n, e.info.attributes);
    PushedListIsUp(VarLevels(path), n, e.info.vars);
    PushedSamplersAreHandedDown(types, path, n);
    SameRemovals(types, Pushed(types, path).info, path[n - 1].info);
  }

  // ----- the walk -----

  predicate WellKeyed(m: map<string, Entity>) {
    forall k | k in m :: m[k].name == k && !m[k].disabled
  }

  /** Copying the result of a group into the result; Go visits the entries in no particular order. */
  method Merge(into: map<string, Entity>, from: map<string, Entity>) returns (r: map<string, Entity>)
    requires WellKeyed(from)
    ensures r == into + from
  {
    r := into;
    var todo := from.Keys;
    ghost var done: set<string> := {};
    while todo != {}
      invariant todo + done == from.Keys && todo !! done
      invariant r == into + (map k | k in done && k in from :: from[k])
      decreases todo
    {
      var k :| k in todo;
      todo := todo - {k};
      done := done + {k};
      var entity := from[k];
      if !entity.disabled {
        r := r[entity.name := entity];
      }
    }
    assert done == from.Keys;
  }

  lemma UnrolledName(types: Types, leaf: Leaf)
    ensures Unrolled(types, leaf).name == leaf.entity.name && Unrolled(types, leaf).disabled == leaf.entity.disabled
  {
    hide Removes, Adds, EntityAdds, HandedDown, Dedup;
  }

  lemma KeepsWellKeyed(m: map<string, Entity>, e: Entity)
    requires WellKeyed(m) && !e.disabled
    ensures WellKeyed(m[e.name := e])
  {
  }

  lemma {:induction false} CollectWellKeyed(types: Types, ls: seq<Leaf>, n: nat)
    requires n <= |ls| && forall i | 0 <= i < |ls| :: !ls[i].entity.disabled
    ensures WellKeyed(Collect(types, ls, n))
  {
    hide Unrolled;
    if n > 0 {
      CollectWellKeyed(types, ls, n - 1);
      UnrolledName(types, ls[n - 1]);
      KeepsWellKeyed(Collect(types, ls, n - 1), Unrolled(types, ls[n - 1]));
    }
  }

  predicate Enabled(ls: seq<Leaf>) {
    forall i | 0 <= i < |ls| :: !ls[i].entity.disabled
  }

  lemma {:induction false} EntityLeavesEnabled(path: seq<Group>, es: seq<Entity>, i: nat)
    ensures Enabled(EntityLeaves(path, es, i))
    decreases |es| - i
  {
    if i < |es| {
      EntityLeavesEnabled(path, es, i + 1);
    }
  }

  lemma {:induction false} LeavesEnabled(path: seq<Group>, g: Group)
    ensures Enabled(Leaves(path, g))
    decreases g, 2
  {
    EntityLeavesEnabled(path + [g], g.entities, 0);
    GroupLeavesEnabled(path + [g], g, 0);
  }

  lemma {:induction false} GroupLeavesEnabled(path: seq<Group>, g: Group, i: nat)
    ensures Enabled(GroupLeaves(path, g, i))
    decreases g, 1, |g.groups| - i
  {
    if i < |g.groups| {
      LeavesEnabled(path, g.groups[i]);
      GroupLeavesEnabled(path, g, i + 1);
    }
  }

  lemma CollectOne(types: Types, leaf: Leaf, rest: seq<Leaf>)
    ensures CollectAll(types, [leaf] + rest) == map[leaf.entity.name := Unrolled(types, leaf)] + CollectAll(types, rest)
  {
    hide Unrolled;
    CollectConcat(types, [leaf], rest, |rest|);
    assert Collect(types, [leaf], 0) == map[];
    assert CollectAll(types, [leaf]) == map[leaf.entity.name := Unrolled(types, leaf)];
  }

  lemma AddOne(m: map<string, Entity>, k: string, e: Entity, rest: map<string, Entity>)
    ensures m + (map[k := e] + rest) == m[k := e] + rest
  {
  }

  lemma AddMany(m: map<string, Entity>, a: map<string, Entity>, rest: map<string, Entity>)
    ensures m + (a + rest) == m + a + rest
  {
  }

  /** The entities of the group itself. */
  method UnrollOwnEntities(group: Group, types: Types, ghost path: seq<Group>) returns (entities: map<string, Entity>)
    requires |path| > 0 && group == Pushed(types, path)
    ensures entities == CollectAll(types, EntityLeaves(path, group.entities, 0))
  {
    hide Pushed, Unrolled, Dedup, Collect, Removes, Adds, EntityAdds;
    entities := map[];
    NothingCollected(types);
    for i := 0 to |group.entities|
      invariant entities + CollectAll(types, EntityLeaves(path, group.entities, i))
             == CollectAll(types, EntityLeaves(path, group.entities, 0))
    {
      var entity := group.entities[i];
      if entity.disabled {
        assert EntityLeaves(path, group.entities, i) == EntityLeaves(path, group.entities, i + 1);
        continue;
      }
      var info := SetDefaults(group.info, entity.info);
      var attributes := RemoveDuplicates(info.attributes);
      var vars := RemoveDuplicates(info.vars);
      var e := ResolveEntitySamplers(Some(group.info), entity.(info := info.(attributes := attributes, vars := vars)), types);
      EntityStep(types, path, entity, group.info, e);
      CollectOne(types, Leaf(path, entity), EntityLeaves(path, group.entities, i + 1));
      AddOne(entities, e.name, e, CollectAll(types, EntityLeaves(path, group.entities, i + 1)));
      entities := entities[e.name := e];
    }
  }

  method UnrollEntityGroup(group: Group, types: Types, ghost above: seq<Group>, ghost g: Group)
    returns (entities: map<string, Entity>)
    requires group == Pushed(types, above + [g])
    ensures entities == CollectAll(types, Leaves(above, g))
    decreases g
  {
    hide Leaves, Pushed, Unrolled, Dedup, Collect, Removes, Adds, EntityAdds, EntityLeaves, SetDefaults;
    ghost var path := above + [g];
    LeavesOf(types, above, g);
    if group.disabled {
      return map[];
    }
    ghost var first, second := EntityLeaves(path, g.entities, 0), GroupLeaves(path, g, 0);
    entities := UnrollOwnEntities(group, types, path);
    var attributes := RemoveDuplicates(group.info.attributes);
    var vars := RemoveDuplicates(group.info.vars);
    var from := group.info.(attributes := attributes, vars := vars);
    for i := 0 to |group.groups|
      invariant entities + CollectAll(types, GroupLeaves(path, g, i)) == CollectAll(types, first) + CollectAll(types, second)
    {
      var child := group.groups[i];
      var to := ResolveSamplersFromGroup(from, SetDefaults(from, child.info), types);
      ChildStep(types, path, child, group.info, from, to);
      var unrolled := UnrollEntityGroup(child.(info := to), types, path, child);
      ghost var ls, rest := Leaves(path, child), GroupLeaves(path, g, i + 1);
      LeavesEnabled(path, child);
      CollectWellKeyed(types, ls, |ls|);
      CollectConcat(types, ls, rest, |rest|);
      AddMany(entities, unrolled, CollectAll(types, rest));
      entities := Merge(entities, unrolled);
    }
    CollectConcat(types, first, second, |second|);
  }

  lemma ChildStep(types: Types, path: seq<Group>, child: Group, group: Info, from: Info, to: Info)
    requires |path| > 0 && group == Pushed(types, path).info
    requires from == group.(attributes := Dedup(group.attributes, {}), vars := Dedup(group.vars, {}))
    requires var copy := SetDefaults(from, child.info);
             to == copy.(resolved := Some(Base(copy.resolved, from.resolved) - Removes(types, from) + Adds(types, copy)))
    ensures child.(info := to) == Pushed(types, path + [child])
  {
    hide Removes, Adds, Dedup, Pushed;
    PushedChild(types, path, child);
    SameRemovals(types, from, group);
    SameAdditions(types, SetDefaults(from, child.info), child.info);
  }

  lemma LeavesOf(types: Types, above: seq<Group>, g: Group)
    ensures var path := above + [g];
            && Pushed(types, path).disabled == g.disabled && Pushed(types, path).entities == g.entities
            && Pushed(types, path).groups == g.groups
            && Leaves(above, g) == (if g.disabled then [] else EntityLeaves(path, g.entities, 0) + GroupLeaves(path, g, 0))
            && CollectAll(types, []) == map[]
  {
  }

  lemma EntityStep(types: Types, path: seq<Group>, entity: Entity, group: Info, e: Entity)
    requires |path| > 0 && group == Pushed(types, path).info
    requires var to := SetDefaults(group, entity.info);
             var copy := entity.(info := to.(attributes := Dedup(to.attributes, {}), vars := Dedup(to.vars, {})));
             e == copy.(info := copy.info.(resolved := Some(
               Base(copy.info.resolved, group.resolved) - Removes(types, group) + EntityAdds(types, copy))))
    ensures e == Unrolled(types, Leaf(path, entity)) && e.name == entity.name
  {
    hide Removes, Adds, Unrolled, Pushed, Dedup;
    PushedEntity(types, path, entity);
    var to := SetDefaults(group, entity.info);
    SameAdditions(types, to.(attributes := Dedup(to.attributes, {}), vars := Dedup(to.vars, {})), entity.info);
  }

  datatype ManagedEntities = ManagedEntities(entities: seq<Entity>, groups: seq<Group>)

  function TopLeaves(groups: seq<Group>, i: nat): seq<Leaf>
    decreases |groups| - i
  {
    if i >= |groups| then [] else Leaves([], groups[i]) + TopLeaves(groups, i + 1)
  }

  function AllLeaves(in_: ManagedEntities): seq<Leaf> {
    EntityLeaves([], in_.entities, 0) + TopLeaves(in_.groups, 0)
  }

  /** The unrolled entities are those the path look-up gives, the last of each name. */
  method UnrollEntities(in_: ManagedEntities, types: Types) returns (entities: map<string, Entity>)
    ensures entities == CollectAll(types, AllLeaves(in_))
  {
    hide Leaves, Collect, Adds, EntityAdds;
    entities := map[];
    ghost var first, second := EntityLeaves([], in_.entities, 0), TopLeaves(in_.groups, 0);
    NothingCollected(types);
    for i := 0 to |in_.entities|
      invariant entities + CollectAll(types, EntityLeaves([], in_.entities, i)) == CollectAll(types, first)
    {
      var entity := in_.entities[i];
      ghost var rest := EntityLeaves([], in_.entities, i + 1);
      if entity.disabled {
        assert EntityLeaves([], in_.entities, i) == rest;
        continue;
      }
      var e := ResolveEntitySamplers(None, entity, types);
      TopEntity(types, entity);
      CollectOne(types, Leaf([], entity), rest);
      AddOne(entities, e.name, e, CollectAll(types, rest));
      entities := entities[e.name := e];
    }
    for i := 0 to |in_.groups|
      invariant entities + CollectAll(types, TopLeaves(in_.groups, i)) == CollectAll(types, first) + CollectAll(types, second)
    {
      var g := in_.groups[i];
      var group := ResolveGroup(g, types);
      PushedTop(types, g);
      var unrolled := UnrollEntityGroup(group, types, [], g);
      ghost var ls, rest := Leaves([], g), TopLeaves(in_.groups, i + 1);
      LeavesEnabled([], g);
      CollectWellKeyed(types, ls, |ls|);
      CollectConcat(types, ls, rest, |rest|);
      AddMany(entities, unrolled, CollectAll(types, rest));
      entities := Merge(entities, unrolled);
    }
    CollectConcat(types, first, second, |second|);
  }

  lemma NothingCollected(types: Types)
    ensures CollectAll(types, []) == map[]
  {
  }

  lemma TopEntity(types: Types, e: Entity)
    ensures Unrolled(types, Leaf([], e))
            == e.(info := e.info.(resolved := Some(Base(e.info.resolved, None) - {} + EntityAdds(types, e))))
  {
    assert Base(e.info.resolved, None) - {} == Keys(e.info.resolved);
  }

  lemma PushedTop(types: Types, g: Group)
    ensures g.(info := g.info.(resolved := Some(Keys(g.info.resolved) + Adds(types, g.info)))) == Pushed(types, [] + [g])
  {
    assert [] + [g] == [g];
    assert AttributeLevels([g])[0] == g.info.attributes && VarLevels([g])[0] == g.info.vars;
  }

  // ----- what the unrolled entities are -----

  /** No map of resolved samplers came with the input; it is never read from the set-up. */
  predicate Unresolved(leaf: Leaf) {
    leaf.entity.info.resolved == None && forall i | 0 <= i < |leaf.path| :: leaf.path[i].info.resolved == None
  }

  /** Some group adds the key and no group from that one down to the last takes it away. */
  predicate Inherited(types: Types, path: seq<Group>, n: nat, k: string)
    requires n <= |path|
  {
    exists i | 0 <= i < n :: k in Adds(types, path[i].info) && NotRemoved(types, path, i, n, k)
  }

  predicate NotRemoved(types: Types, path: seq<Group>, i: nat, n: nat, k: string)
    requires n <= |path|
  {
    forall j | i <= j < n :: k !in Removes(types, path[j].info)
  }

  lemma {:induction false} HandedDownIff(types: Types, path: seq<Group>, n: nat, k: string)
    requires n <= |path| && forall i | 0 <= i < n :: path[i].info.resolved == None
    ensures k in HandedDown(types, path, n) <==> Inherited(types, path, n, k)
  {
    hide Adds, Removes;
    if n > 0 {
      HandedDownIff(types, path, n - 1, k);
      if k in HandedDown(types, path, n) {
        if k in Adds(types, path[n - 1].info) {
          assert NotRemoved(types, path, n - 1, n, k);
        } else {
          var i :| 0 <= i < n - 1 && k in Adds(types, path[i].info) && NotRemoved(types, path, i, n - 1, k);
          assert NotRemoved(types, path, i, n, k);
        }
      }
      if Inherited(types, path, n, k) {
        var i :| 0 <= i < n && k in Adds(types, path[i].info) && NotRemoved(types, path, i, n, k);
        if i < n - 1 {
          assert NotRemoved(types, path, i, n - 1, k);
        }
      }
    }
  }

  /** An unrolled entity has a sampler exactly when it adds it itself, or when an enclosing group adds
      it and no group from there down to the immediate one removes it. */
  lemma SamplerByPath(types: Types, leaf: Leaf, k: string)
    requires Unresolved(leaf)
    ensures var r := Unrolled(types, leaf).info.resolved;
            r.Some? && (k in r.value <==>
              k in EntityAdds(types, leaf.entity) || Inherited(types, leaf.path, |leaf.path|, k))
  {
    hide EntityAdds;
    HandedDownIff(types, leaf.path, |leaf.path|, k);
  }

  lemma {:induction false} TypeKeysIff(types: Types, t: string, all: bool, n: nat, k: string)
    requires n <= |SamplersOf(types, t)|
    ensures k in TypeKeys(types, t, all, n) <==>
              exists j | 0 <= j < n :: (all || !SamplersOf(types, t)[j].disabled) && k == KeyOf(t, SamplersOf(types, t)[j].name)
  {
    if n > 0 {
      TypeKeysIff(types, t, all, n - 1, k);
    }
  }

  predicate TypeHas(types: Types, t: string, all: bool, k: string) {
    exists j | 0 <= j < |SamplersOf(types, t)| ::
      (all || !SamplersOf(types, t)[j].disabled) && k == KeyOf(t, SamplersOf(types, t)[j].name)
  }

  lemma {:induction false} NamedKeysIff(types: Types, names: seq<string>, all: bool, n: nat, k: string)
    requires n <= |names|
    ensures k in NamedKeys(types, names, all, n) <==> exists i | 0 <= i < n :: TypeHas(types, names[i], all, k)
  {
    if n > 0 {
      NamedKeysIff(types, names, all, n - 1, k);
      TypeKeysIff(types, names[n - 1], all, |SamplersOf(types, names[n - 1])|, k);
    }
  }

  lemma {:induction false} KeyInjective(t: string, n: string, t': string, n': string)
    requires ':' !in t && ':' !in t' && KeyOf(t, n) == KeyOf(t', n')
    ensures t == t' && n == n'
  {
    var k := KeyOf(t, n);
    assert k[|t|] == ':' && k[|t'|] == ':';
    assert forall i | 0 <= i < |t| :: k[i] == t[i];
    assert forall i | 0 <= i < |t'| :: k[i] == t'[i];
    assert t == k[..|t|] && t' == k[..|t'|];
    assert n == k[|t| + 1..] && n' == k[|t'| + 1..];
  }

  /** For type names without a colon: a level adds the sampler `t:s` exactly when it names the type
      `t` and that type has an enabled sampler `s`. */
  lemma AddsIff(types: Types, info: Info, t: string, s: string)
    requires ':' !in t && forall i | 0 <= i < |info.addTypes| :: ':' !in info.addTypes[i]
    ensures KeyOf(t, s) in Adds(types, info) <==> t in info.addTypes && Sampler(s, false) in SamplersOf(types, t)
  {
    hide KeyOf;
    var k := KeyOf(t, s);
    NamedKeysIff(types, info.addTypes, false, |info.addTypes|, k);
    if k in Adds(types, info) {
      var i :| 0 <= i < |info.addTypes| && TypeHas(types, info.addTypes[i], false, k);
      var ss := SamplersOf(types, info.addTypes[i]);
      var j :| 0 <= j < |ss| && !ss[j].disabled && k == KeyOf(info.addTypes[i], ss[j].name);
      KeyInjective(t, s, info.addTypes[i], ss[j].name);
      assert ss[j] == Sampler(s, false);
    }
    if t in info.addTypes && Sampler(s, false) in SamplersOf(types, t) {
      var i :| 0 <= i < |info.addTypes| && info.addTypes[i] == t;
      assert TypeHas(types, info.addTypes[i], false, k);
    }
  }

  lemma {:induction false} RefKeysIff(refs: seq<SamplerRef>, n: nat, t: string, s: string)
    requires n <= |refs| && ':' !in t && forall i | 0 <= i < n :: ':' !in refs[i].type_
    ensures KeyOf(t, s) in RefKeys(refs, n) <==> SamplerRef(t, s) in refs[..n]
  {
    hide KeyOf;
    if n > 0 {
      RefKeysIff(refs, n - 1, t, s);
      assert refs[..n] == refs[..n - 1] + [refs[n - 1]];
      if KeyOf(t, s) == KeyOf(refs[n - 1].type_, refs[n - 1].sampler) {
        KeyInjective(t, s, refs[n - 1].type_, refs[n - 1].sampler);
      }
    }
  }

  lemma {:induction false} OwnKeysIff(samplers: seq<Sampler>, n: nat, t: string, s: string)
    requires n <= |samplers| && ':' !in t
    ensures KeyOf(t, s) in OwnKeys(samplers, n) <==> t == "" && Sampler(s, false) in samplers[..n]
  {
    hide KeyOf;
    if n > 0 {
      OwnKeysIff(samplers, n - 1, t, s);
      assert samplers[..n] == samplers[..n - 1] + [samplers[n - 1]];
      if KeyOf(t, s) == KeyOf("", samplers[n - 1].name) {
        KeyInjective(t, s, "", samplers[n - 1].name);
      }
    }
  }

  /** Likewise a level takes away `t:s` exactly when it names a type `t` that has a sampler `s`, disabled
      or not, or refers to the sampler itself. */
  lemma RemovesIff(types: Types, info: Info, t: string, s: string)
    requires ':' !in t && forall i | 0 <= i < |info.removeTypes| :: ':' !in info.removeTypes[i]
    requires forall i | 0 <= i < |info.removeSamplers| :: ':' !in info.removeSamplers[i].type_
    ensures KeyOf(t, s) in Removes(types, info) <==>
              || (t in info.removeTypes && exists j | 0 <= j < |SamplersOf(types, t)| :: SamplersOf(types, t)[j].name == s)
              || SamplerRef(t, s) in info.removeSamplers
  {
    hide KeyOf;
    var k, names, refs := KeyOf(t, s), info.removeTypes, info.removeSamplers;
    NamedKeysIff(types, names, true, |names|, k);
    RefKeysIff(refs, |refs|, t, s);
    assert refs[..|refs|] == refs;
    if i :| 0 <= i < |names| && TypeHas(types, names[i], true, k) {
      var ss := SamplersOf(types, names[i]);
      var j :| 0 <= j < |ss| && k == KeyOf(names[i], ss[j].name);
      KeyInjective(t, s, names[i], ss[j].name);
    }
    if t in names && exists j | 0 <= j < |SamplersOf(types, t)| :: SamplersOf(types, t)[j].name == s {
      var i :| 0 <= i < |names| && names[i] == t;
      assert TypeHas(types, names[i], true, k);
    }
  }

  /** And an entity adds it exactly when it holds an enabled sampler `s` of its own, for the empty type,
      or names the type `t` and that type has an enabled sampler `s`. */
  lemma EntityAddsIff(types: Types, e: Entity, t: string, s: string)
    requires ':' !in t && forall i | 0 <= i < |e.info.addTypes| :: ':' !in e.info.addTypes[i]
    ensures KeyOf(t, s) in EntityAdds(types, e) <==>
              || (t == "" && Sampler(s, false) in e.samplers)
              || (t in e.info.addTypes && Sampler(s, false) in SamplersOf(types, t))
  {
    hide KeyOf, Adds;
    AddsIff(types, e.info, t, s);
    OwnKeysIff(e.samplers, |e.samplers|, t, s);
    assert e.samplers[..|e.samplers|] == e.samplers;
  }

  // ----- nearest definition -----

  /** What the nearest of the first `n` levels says about a name. */
  function Nearest(levels: seq<seq<Keyed>>, n: nat, name: string): Option<string>
    requires n <= |levels|
  {
    if n == 0 then None
    else if Find(levels[n - 1], name).Some? then Find(levels[n - 1], name)
    else Nearest(levels, n - 1, name)
  }

  lemma {:induction false} FindConcat(a: seq<Keyed>, b: seq<Keyed>, name: string)
    ensures Find(a + b, name) == if Find(a, name).Some? then Find(a, name) else Find(b, name)
  {
    if |a| == 0 {
      assert a + b == b;
    } else {
      assert (a + b)[1..] == a[1..] + b;
      FindConcat(a[1..], b, name);
    }
  }

  lemma {:induction false} FindUp(levels: seq<seq<Keyed>>, n: nat, name: string)
    requires n <= |levels|
    ensures Find(Up(levels, n), name) == Nearest(levels, n, name)
  {
    hide Find;
    if n > 0 {
      FindConcat(levels[n - 1], Up(levels, n - 1), name);
      FindUp(levels, n - 1, name);
    } else {
      assert Find([], name) == None by { FindNothing(name); }
    }
  }

  lemma FindNothing(name: string)
    ensures Find([], name) == None
  {
  }

  /** Inside a group every attribute has one entry, from the entity if it defines it, else from the
      nearest group that does; the same holds for variables. */
  lemma NearestWins(types: Types, leaf: Leaf, name: string)
    requires |leaf.path| > 0
    ensures var u, n := Unrolled(types, leaf).info, |leaf.path|;
            && Unique(u.attributes) && Unique(u.vars)
            && Find(u.attributes, name) == Nearest(AttributeLevels(leaf.path) + [leaf.entity.info.attributes], n + 1, name)
            && Find(u.vars, name) == Nearest(VarLevels(leaf.path) + [leaf.entity.info.vars], n + 1, name)
  {
    NearestOne(AttributeLevels(leaf.path), leaf.entity.info.attributes, name);
    NearestOne(VarLevels(leaf.path), leaf.entity.info.vars, name);
  }

  lemma NearestOne(levels: seq<seq<Keyed>>, own: seq<Keyed>, name: string)
    ensures var d := Dedup(own + Up(levels, |levels|), {});
            Unique(d) && Find(d, name) == Nearest(levels + [own], |levels| + 1, name)
  {
    hide Find, Dedup;
    var n := |levels|;
    DedupUnique(own + Up(levels, n), {});
    DedupFinds(own + Up(levels, n), {}, name);
    FindConcat(own, Up(levels, n), name);
    FindUp(levels, n, name);
    NearestPrefix(levels, own, n, name);
  }

  lemma {:induction false} NearestPrefix(levels: seq<seq<Keyed>>, own: seq<Keyed>, n: nat, name: string)
    requires n <= |levels|
    ensures Nearest(levels + [own], n, name) == Nearest(levels, n, name)
  {
    hide Find;
    if n > 0 {
      NearestPrefix(levels, own, n - 1, name);
    }
  }

  // ----- which entities there are -----

  /** The groups of `path` from index `i` on are enabled and each lies in the one before it. */
  predicate Enclosed(path: seq<Group>, i: nat) {
    && (forall j | i <= j < |path| :: !path[j].disabled)
    && (forall j | i <= j < |path| - 1 :: path[j + 1] in path[j].groups)
  }

  predicate IsLeaf(leaf: Leaf, above: seq<Group>, g: Group) {
    && |leaf.path| > |above| && leaf.path[..|above|] == above && leaf.path[|above|] == g
    && Enclosed(leaf.path, |above|)
    && leaf.entity in leaf.path[|leaf.path| - 1].entities && !leaf.entity.disabled
  }

  lemma {:induction false} EntityLeavesIff(path: seq<Group>, es: seq<Entity>, i: nat, leaf: Leaf)
    requires i <= |es|
    ensures leaf in EntityLeaves(path, es, i) <==>
              leaf.path == path && !leaf.entity.disabled && leaf.entity in es[i..]
    decreases |es| - i
  {
    if i < |es| {
      EntityLeavesIff(path, es, i + 1, leaf);
      assert es[i..] == [es[i]] + es[i + 1..];
    }
  }

  lemma IsLeafHere(leaf: Leaf, above: seq<Group>, g: Group)
    requires leaf.path == above + [g]
    ensures IsLeaf(leaf, above, g) <==> !g.disabled && leaf.entity in g.entities && !leaf.entity.disabled
  {
  }

  lemma IsLeafBelow(leaf: Leaf, above: seq<Group>, g: Group, c: Group)
    requires !g.disabled && c in g.groups && IsLeaf(leaf, above + [g], c)
    ensures IsLeaf(leaf, above, g)
  {
    var n := |above|;
    assert leaf.path[..n + 1][..n] == leaf.path[..n] == above;
    assert leaf.path[..n + 1][n] == leaf.path[n] == g;
    assert leaf.path[n + 1] == c;
  }

  lemma IsLeafDown(leaf: Leaf, above: seq<Group>, g: Group) returns (c: Group)
    requires IsLeaf(leaf, above, g) && leaf.path != above + [g]
    ensures c in g.groups && IsLeaf(leaf, above + [g], c)
  {
    var n := |above|;
    assert leaf.path[..n + 1] == above + [g];
    assert leaf.path == leaf.path[..n + 1] + leaf.path[n + 1..];
    c := leaf.path[n + 1];
  }

  /** The leaves are the enabled entities of enabled groups all of whose enclosing groups are enabled. */
  lemma {:induction false} LeavesIff(above: seq<Group>, g: Group, leaf: Leaf)
    ensures leaf in Leaves(above, g) <==> IsLeaf(leaf, above, g)
    decreases g, 2
  {
    var path := above + [g];
    if !g.disabled {
      EntityLeavesIff(path, g.entities, 0, leaf);
      assert g.entities[0..] == g.entities && g.groups[0..] == g.groups;
      GroupLeavesIff(path, g, 0, leaf);
      if leaf.path == path {
        IsLeafHere(leaf, above, g);
      } else if IsLeaf(leaf, above, g) {
        var c := IsLeafDown(leaf, above, g);
      }
      if c :| c in g.groups && IsLeaf(leaf, path, c) {
        IsLeafBelow(leaf, above, g, c);
      }
    }
  }

  lemma {:induction false} GroupLeavesIff(path: seq<Group>, g: Group, i: nat, leaf: Leaf)
    requires i <= |g.groups|
    ensures leaf in GroupLeaves(path, g, i) <==> exists c | c in g.groups[i..] :: IsLeaf(leaf, path, c)
    decreases g, 1, |g.groups| - i
  {
    hide IsLeaf;
    if i < |g.groups| {
      LeavesIff(path, g.groups[i], leaf);
      GroupLeavesIff(path, g, i + 1, leaf);
      assert g.groups[i..] == [g.groups[i]] + g.groups[i + 1..];
    }
  }

  lemma {:induction false} TopLeavesIff(groups: seq<Group>, i: nat, leaf: Leaf)
    requires i <= |groups|
    ensures leaf in TopLeaves(groups, i) <==> exists g | g in groups[i..] :: IsLeaf(leaf, [], g)
    decreases |groups| - i
  {
    hide IsLeaf, Leaves;
    if i < |groups| {
      LeavesIff([], groups[i], leaf);
      TopLeavesIff(groups, i + 1, leaf);
      assert groups[i..] == [groups[i]] + groups[i + 1..];
    }
  }

  /** An enabled entity whose enclosing groups are all enabled. */
  predicate Reachable(in_: ManagedEntities, leaf: Leaf) {
    || (leaf.path == [] && leaf.entity in in_.entities && !leaf.entity.disabled)
    || exists g | g in in_.groups :: IsLeaf(leaf, [], g)
  }

  lemma {:induction false} CollectKeys(types: Types, ls: seq<Leaf>, n: nat, k: string)
    requires n <= |ls|
    ensures k in Collect(types, ls, n) <==> exists i | 0 <= i < n :: ls[i].entity.name == k
    ensures k in Collect(types, ls, n) ==>
              exists i | 0 <= i < n :: ls[i].entity.name == k && Collect(types, ls, n)[k] == Unrolled(types, ls[i])
  {
    hide Unrolled;
    if n > 0 {
      CollectKeys(types, ls, n - 1, k);
    }
  }

  /** Every reachable entity has an entry under its name; every entry is a reachable entity as the
      look-up along its path gives it, the last of its name. */
  lemma ResultIff(in_: ManagedEntities, types: Types, k: string)
    ensures var r := CollectAll(types, AllLeaves(in_));
            && (k in r <==> exists leaf: Leaf :: Reachable(in_, leaf) && leaf.entity.name == k)
            && (k in r ==> exists leaf: Leaf :: Reachable(in_, leaf) && leaf.entity.name == k && r[k] == Unrolled(types, leaf))
  {
    hide Unrolled, IsLeaf, Leaves;
    var ls := AllLeaves(in_);
    CollectKeys(types, ls, |ls|, k);
    forall leaf: Leaf
      ensures leaf in ls <==> Reachable(in_, leaf)
    {
      EntityLeavesIff([], in_.entities, 0, leaf);
      TopLeavesIff(in_.groups, 0, leaf);
      assert in_.entities[0..] == in_.entities && in_.groups[0..] == in_.groups;
      if exists g | g in in_.groups :: IsLeaf(leaf, [], g) {
        assert Reachable(in_, leaf);
      }
    }
    var r := CollectAll(types, ls);
    if k in r {
      var i :| 0 <= i < |ls| && ls[i].entity.name == k && r[k] == Unrolled(types, ls[i]);
      assert ls[i] in ls && Reachable(in_, ls[i]);
    }
    if leaf: Leaf :| Reachable(in_, leaf) && leaf.entity.name == k {
      assert leaf in ls;
      var i :| 0 <= i < |ls| && ls[i] == leaf;
    }
  }
}
