/** Unrolling probes: `UnrollProbes`, `unrollProbeGroup` and `setDefaults` of pkg/geneos/utils.go.

    Defaults are pushed down into copies of groups and probes. The specification looks up: every
    setting of an unrolled probe is the first one that is set, from the probe outwards. */
module Probes {
  import opened Optional

  datatype Limits = Limits(timeout: int, connections: int, processes: int)

  datatype ProbeInfo = ProbeInfo(port: int, secure: Option<bool>, limits: Limits)

  datatype Kind = Plain | Floating | Virtual

  datatype Probe = Probe(kind: Kind, name: string, disabled: bool, hostname: string, info: ProbeInfo)

  datatype FloatingProbe = FloatingProbe(name: string, disabled: bool, limits: Limits)

  datatype VirtualProbe = VirtualProbe(name: string, disabled: bool)

  datatype Group = Group(disabled: bool, info: ProbeInfo, probes: seq<Probe>, floating: seq<FloatingProbe>,
                         virtuals: seq<VirtualProbe>, groups: seq<Group>)

  datatype Setup = Setup(probes: seq<Probe>, floating: seq<FloatingProbe>, virtuals: seq<VirtualProbe>, groups: seq<Group>)

  const NOTHING := ProbeInfo(0, None, Limits(0, 0, 0))

  // ----- pushing defaults -----

  function OrElse(dest: int, source: int): int {
    if dest == 0 && source != 0 then source else dest
  }

  function LimitDefaults(source: Limits, dest: Limits): Limits {
    Limits(OrElse(dest.timeout, source.timeout), OrElse(dest.connections, source.connections),
           OrElse(dest.processes, source.processes))
  }

  /** `setDefaults`: fields that are not set are taken from `source`; the embedded limits in turn. */
  function SetDefaults(source: ProbeInfo, dest: ProbeInfo): ProbeInfo {
    ProbeInfo(OrElse(dest.port, source.port), if dest.secure.None? then source.secure else dest.secure,
              LimitDefaults(source.limits, dest.limits))
  }

  // ----- looking up -----

  /** The first value that is not zero, from the last level outwards. */
  function FirstSet(levels: seq<ProbeInfo>, n: nat, field: ProbeInfo -> int): int
    requires n <= |levels|
  {
    if n == 0 then 0
    else if field(levels[n - 1]) != 0 then field(levels[n - 1])
    else FirstSet(levels, n - 1, field)
  }

  function FirstSecure(levels: seq<ProbeInfo>, n: nat): Option<bool>
    requires n <= |levels|
  {
    if n == 0 then None
    else if levels[n - 1].secure.Some? then levels[n - 1].secure
    else FirstSecure(levels, n - 1)
  }

  function LookUp(levels: seq<ProbeInfo>): ProbeInfo {
    var n := |levels|;
    ProbeInfo(FirstSet(levels, n, (i: ProbeInfo) => i.port), FirstSecure(levels, n),
              Limits(FirstSet(levels, n, (i: ProbeInfo) => i.limits.timeout),
                     FirstSet(levels, n, (i: ProbeInfo) => i.limits.connections),
                     FirstSet(levels, n, (i: ProbeInfo) => i.limits.processes)))
  }

  /** The looked-up value is that of the innermost level that sets the field, zero when none does. */
  lemma {:induction false} InnermostWins(levels: seq<ProbeInfo>, n: nat, field: ProbeInfo -> int)
    requires n <= |levels|
    ensures var v := FirstSet(levels, n, field);
            || (v == 0 && forall j | 0 <= j < n :: field(levels[j]) == 0)
            || (exists j | 0 <= j < n :: field(levels[j]) == v != 0 && forall k | j < k < n :: field(levels[k]) == 0)
  {
    if n > 0 {
      InnermostWins(levels, n - 1, field);
    }
  }

  lemma {:induction false} FirstSetPrefix(levels: seq<ProbeInfo>, last: ProbeInfo, n: nat, field: ProbeInfo -> int)
    requires n <= |levels|
    ensures FirstSet(levels + [last], n, field) == FirstSet(levels, n, field)
    ensures FirstSecure(levels + [last], n) == FirstSecure(levels, n)
  {
    if n > 0 {
      FirstSetPrefix(levels, last, n - 1, field);
    }
  }

  /** One push is one step of the look-up. */
  lemma PushIsLookUp(levels: seq<ProbeInfo>, own: ProbeInfo)
    ensures SetDefaults(LookUp(levels), own) == LookUp(levels + [own])
  {
    var n := |levels|;
    FirstSetPrefix(levels, own, n, (i: ProbeInfo) => i.port);
    FirstSetPrefix(levels, own, n, (i: ProbeInfo) => i.limits.timeout);
    FirstSetPrefix(levels, own, n, (i: ProbeInfo) => i.limits.connections);
    FirstSetPrefix(levels, own, n, (i: ProbeInfo) => i.limits.processes);
  }

  // ----- what a group contributes, by look-up -----

  function OfProbes(levels: seq<ProbeInfo>, ps: seq<Probe>, i: nat): seq<Probe>
    decreases |ps| - i
  {
    if i >= |ps| then []
    else (if ps[i].disabled then [] else [ps[i].(info := LookUp(levels + [ps[i].info]))]) + OfProbes(levels, ps, i + 1)
  }

  function OfFloating(levels: seq<ProbeInfo>, fs: seq<FloatingProbe>, i: nat): seq<FloatingProbe>
    decreases |fs| - i
  {
    if i >= |fs| then []
    else (if fs[i].disabled then [] else [fs[i].(limits := LookUp(levels + [NOTHING.(limits := fs[i].limits)]).limits)])
         + OfFloating(levels, fs, i + 1)
  }

  function OfVirtual(vs: seq<VirtualProbe>, i: nat): seq<VirtualProbe>
    decreases |vs| - i
  {
    if i >= |vs| then [] else (if vs[i].disabled then [] else [vs[i]]) + OfVirtual(vs, i + 1)
  }

  /** Three lists, as `unrollProbeGroup` returns them. */
  datatype Lists = Lists(probes: seq<Probe>, floating: seq<FloatingProbe>, virtuals: seq<VirtualProbe>)

  function Append(a: Lists, b: Lists): Lists {
    Lists(a.probes + b.probes, a.floating + b.floating, a.virtuals + b.virtuals)
  }

  const EMPTY := Lists([], [], [])

  function OfGroup(above: seq<ProbeInfo>, g: Group): Lists
    decreases g, 2
  {
    if g.disabled then EMPTY
    else
      var levels := above + [g.info];
      Append(Lists(OfProbes(levels, g.probes, 0), OfFloating(levels, g.floating, 0), OfVirtual(g.virtuals, 0)),
             OfGroups(levels, g, 0))
  }

  function OfGroups(levels: seq<ProbeInfo>, g: Group, i: nat): Lists
    decreases g, 1, |g.groups| - i
  {
    if i >= |g.groups| then EMPTY else Append(OfGroup(levels, g.groups[i]), OfGroups(levels, g, i + 1))
  }

  predicate AllEnabled(l: Lists) {
    && (forall p | p in l.probes :: !p.disabled)
    && (forall f | f in l.floating :: !f.disabled)
    && (forall v | v in l.virtuals :: !v.disabled)
  }

  lemma AppendAssociative(a: Lists, b: Lists, c: Lists)
    ensures Append(Append(a, b), c) == Append(a, Append(b, c))
  {
    assert a.probes + (b.probes + c.probes) == a.probes + b.probes + c.probes;
    assert a.floating + (b.floating + c.floating) == a.floating + b.floating + c.floating;
    assert a.virtuals + (b.virtuals + c.virtuals) == a.virtuals + b.virtuals + c.virtuals;
  }

  // ----- the code -----

  method UnrollOwnProbes(group: Group, ghost levels: seq<ProbeInfo>) returns (probes: seq<Probe>)
    requires group.info == LookUp(levels)
    ensures probes == OfProbes(levels, group.probes, 0)
    ensures forall p | p in probes :: !p.disabled
  {
    hide LookUp, SetDefaults;
    probes := [];
    for i := 0 to |group.probes|
      invariant probes + OfProbes(levels, group.probes, i) == OfProbes(levels, group.probes, 0)
      invariant forall p | p in probes :: !p.disabled
    {
      var p := group.probes[i];
      if p.disabled {
        continue;
      }
      PushIsLookUp(levels, p.info);
      probes := probes + [p.(info := SetDefaults(group.info, p.info))];
    }
  }

  method UnrollOwnFloating(group: Group, ghost levels: seq<ProbeInfo>) returns (floating: seq<FloatingProbe>)
    requires group.info == LookUp(levels)
    ensures floating == OfFloating(levels, group.floating, 0)
    ensures forall f | f in floating :: !f.disabled
  {
    hide LookUp;
    floating := [];
    for i := 0 to |group.floating|
      invariant floating + OfFloating(levels, group.floating, i) == OfFloating(levels, group.floating, 0)
      invariant forall f | f in floating :: !f.disabled
    {
      var f := group.floating[i];
      if f.disabled {
        continue;
      }
      PushIsLookUp(levels, NOTHING.(limits := f.limits));
      floating := floating + [f.(limits := LimitDefaults(group.info.limits, f.limits))];
    }
  }

  method UnrollOwnVirtual(group: Group) returns (virtuals: seq<VirtualProbe>)
    ensures virtuals == OfVirtual(group.virtuals, 0)
    ensures forall v | v in virtuals :: !v.disabled
  {
    virtuals := [];
    for i := 0 to |group.virtuals|
      invariant virtuals + OfVirtual(group.virtuals, i) == OfVirtual(group.virtuals, 0)
      invariant forall v | v in virtuals :: !v.disabled
    {
      if group.virtuals[i].disabled {
        continue;
      }
      virtuals := virtuals + [group.virtuals[i]];
    }
  }

  /** Appending what a child group returned, disabled items left out once more. */
  method AppendEnabled(into: Lists, from: Lists) returns (r: Lists)
    requires AllEnabled(into) && AllEnabled(from)
    ensures r == Append(into, from) && AllEnabled(r)
  {
    var probes, floating, virtuals := into.probes, into.floating, into.virtuals;
    for i := 0 to |from.probes|
      invariant probes == into.probes + from.probes[..i]
    {
      if from.probes[i].disabled {
        continue;
      }
      probes := probes + [from.probes[i]];
    }
    for i := 0 to |from.floating|
      invariant floating == into.floating + from.floating[..i]
    {
      if from.floating[i].disabled {
        continue;
      }
      floating := floating + [from.floating[i]];
    }
    for i := 0 to |from.virtuals|
      invariant virtuals == into.virtuals + from.virtuals[..i]
    {
      if from.virtuals[i].disabled {
        continue;
      }
      virtuals := virtuals + [from.virtuals[i]];
    }
    assert from.probes[..|from.probes|] == from.probes;
    assert from.floating[..|from.floating|] == from.floating;
    assert from.virtuals[..|from.virtuals|] == from.virtuals;
    r := Lists(probes, floating, virtuals);
  }

  method UnrollProbeGroup(group: Group, ghost above: seq<ProbeInfo>, ghost g: Group) returns (r: Lists)
    requires group == g.(info := LookUp(above + [g.info]))
    ensures r == OfGroup(above, g) && AllEnabled(r)
    decreases g
  {
    hide LookUp, OfProbes, OfFloating, OfVirtual, SetDefaults;
    if group.disabled {
      return EMPTY;
    }
    ghost var levels := above + [g.info];
    var probes := UnrollOwnProbes(group, levels);
    var floating := UnrollOwnFloating(group, levels);
    var virtuals := UnrollOwnVirtual(group);
    r := Lists(probes, floating, virtuals);
    ghost var own := r;
    assert Append(own, OfGroups(levels, g, 0)) == OfGroup(above, g);
    for i := 0 to |group.groups|
      invariant AllEnabled(r)
      invariant Append(r, OfGroups(levels, g, i)) == OfGroup(above, g)
    {
      var child := group.groups[i];
      PushIsLookUp(levels, child.info);
      var l := UnrollProbeGroup(child.(info := SetDefaults(group.info, child.info)), levels, child);
      AppendAssociative(r, l, OfGroups(levels, g, i + 1));
      r := AppendEnabled(r, l);
    }
  }

  // ----- the result map -----

  function FromFloating(f: FloatingProbe): Probe {
    Probe(Floating, f.name, f.disabled, "", NOTHING.(limits := f.limits))
  }

  function FromVirtual(v: VirtualProbe): Probe {
    Probe(Virtual, v.name, v.disabled, "", NOTHING)
  }

  /** The probes of three lists in the order in which they enter the result. */
  function Entries(l: Lists): seq<Probe> {
    l.probes
    + seq(|l.floating|, i requires 0 <= i < |l.floating| => FromFloating(l.floating[i]))
    + seq(|l.virtuals|, i requires 0 <= i < |l.virtuals| => FromVirtual(l.virtuals[i]))
  }

  /** Entering probes one after the other, disabled ones left out. */
  function Enter(m: map<string, Probe>, ps: seq<Probe>, i: nat): map<string, Probe>
    decreases |ps| - i
  {
    if i >= |ps| then m
    else Enter(if ps[i].disabled then m else m[ps[i].name := ps[i]], ps, i + 1)
  }

  method EnterAll(into: map<string, Probe>, l: Lists) returns (m: map<string, Probe>)
    ensures m == Enter(into, Entries(l), 0)
  {
    m := into;
    ghost var es := Entries(l);
    ghost var a, b := |l.probes|, |l.floating|;
    for i := 0 to |l.probes|
      invariant Enter(m, es, i) == Enter(into, es, 0)
    {
      var p := l.probes[i];
      assert es[i] == p;
      if p.disabled {
        continue;
      }
      m := m[p.name := p];
    }
    for i := 0 to |l.floating|
      invariant Enter(m, es, a + i) == Enter(into, es, 0)
    {
      var f := l.floating[i];
      assert es[a + i] == FromFloating(f);
      if f.disabled {
        continue;
      }
      m := m[f.name := FromFloating(f)];
    }
    for i := 0 to |l.virtuals|
      invariant Enter(m, es, a + b + i) == Enter(into, es, 0)
    {
      var v := l.virtuals[i];
      assert es[a + b + i] == FromVirtual(v);
      if v.disabled {
        continue;
      }
      m := m[v.name := FromVirtual(v)];
    }
  }

  /** Everything that enters the result, in order: the top level as it is, then group after group. */
  function GroupEntries(groups: seq<Group>, i: nat): seq<Probe>
    decreases |groups| - i
  {
    if i >= |groups| then [] else Entries(OfGroup([], groups[i])) + GroupEntries(groups, i + 1)
  }

  function AllEntries(in_: Setup): seq<Probe> {
    Entries(Lists(in_.probes, in_.floating, in_.virtuals)) + GroupEntries(in_.groups, 0)
  }

  lemma {:induction false} EnterConcat(m: map<string, Probe>, a: seq<Probe>, b: seq<Probe>, i: nat)
    requires i <= |a|
    ensures Enter(m, a + b, i) == Enter(Enter(m, a, i), b, 0)
    decreases |a| - i
  {
    if i < |a| {
      EnterConcat(if a[i].disabled then m else m[a[i].name := a[i]], a, b, i + 1);
    } else {
      EnterShift(m, a, b, 0);
    }
  }

  lemma {:induction false} EnterShift(m: map<string, Probe>, a: seq<Probe>, b: seq<Probe>, i: nat)
    requires i <= |b|
    ensures Enter(m, a + b, |a| + i) == Enter(m, b, i)
    decreases |b| - i
  {
    if i < |b| {
      EnterShift(if b[i].disabled then m else m[b[i].name := b[i]], a, b, i + 1);
    }
  }

  lemma TopLookUp(info: ProbeInfo)
    ensures LookUp([] + [info]) == info
  {
    PushIsLookUp([], info);
    assert LookUp([]) == NOTHING;
  }

  method UnrollProbes(in_: Setup) returns (probes: map<string, Probe>)
    ensures probes == Enter(map[], AllEntries(in_), 0)
  {
    hide OfGroup, LookUp, Entries, Enter;
    var top := Lists(in_.probes, in_.floating, in_.virtuals);
    probes := EnterAll(map[], top);
    EnterConcat(map[], Entries(top), GroupEntries(in_.groups, 0), 0);
    for i := 0 to |in_.groups|
      invariant Enter(probes, GroupEntries(in_.groups, i), 0) == Enter(map[], AllEntries(in_), 0)
    {
      TopLookUp(in_.groups[i].info);
      var l := UnrollProbeGroup(in_.groups[i], [], in_.groups[i]);
      EnterConcat(probes, Entries(l), GroupEntries(in_.groups, i + 1), 0);
      probes := EnterAll(probes, l);
    }
    NothingLeft(probes);
  }

  lemma NothingLeft(m: map<string, Probe>)
    ensures Enter(m, [], 0) == m
  {
  }

  // ----- which probes there are -----

  datatype Item = AProbe(probe: Probe) | AFloating(float: FloatingProbe) | AVirtual(virtual: VirtualProbe)

  /** A probe of some kind with the groups it lies in, outermost first. */
  datatype Leaf = Leaf(path: seq<Group>, item: Item)

  predicate Listed(l: Lists, item: Item) {
    match item
    case AProbe(p) => p in l.probes && !p.disabled
    case AFloating(f) => f in l.floating && !f.disabled
    case AVirtual(v) => v in l.virtuals && !v.disabled
  }

  function OwnLists(g: Group): Lists {
    Lists(g.probes, g.floating, g.virtuals)
  }

  function Infos(path: seq<Group>): seq<ProbeInfo> {
    seq(|path|, i requires 0 <= i < |path| => path[i].info)
  }

  /** The probe in the result: its settings looked up along its path, from the probe outwards. */
  function Final(leaf: Leaf): Probe {
    match leaf.item
    case AProbe(p) => p.(info := LookUp(Infos(leaf.path) + [p.info]))
    case AFloating(f) => FromFloating(f.(limits := LookUp(Infos(leaf.path) + [NOTHING.(limits := f.limits)]).limits))
    case AVirtual(v) => FromVirtual(v)
  }

  /** The groups of `path` from index `i` on are enabled and each lies in the one before it. */
  predicate Enclosed(path: seq<Group>, i: nat) {
    && (forall j | i <= j < |path| :: !path[j].disabled)
    && (forall j | i <= j < |path| - 1 :: path[j + 1] in path[j].groups)
  }

  predicate IsLeaf(leaf: Leaf, above: seq<Group>, g: Group) {
    && |leaf.path| > |above| && leaf.path[..|above|] == above && leaf.path[|above|] == g
    && Enclosed(leaf.path, |above|)
    && Listed(OwnLists(leaf.path[|leaf.path| - 1]), leaf.item)
  }

  /** `e` is what some leaf under `g` ends up as. */
  ghost predicate Under(above: seq<Group>, g: Group, e: Probe) {
    exists leaf :: IsLeaf(leaf, above, g) && Final(leaf) == e
  }

  ghost predicate Here(path: seq<Group>, l: Lists, e: Probe) {
    exists item :: Listed(l, item) && Final(Leaf(path, item)) == e
  }

  lemma InEntries(l: Lists, e: Probe)
    ensures e in Entries(l) <==>
              || e in l.probes
              || (exists f | f in l.floating :: FromFloating(f) == e)
              || (exists v | v in l.virtuals :: FromVirtual(v) == e)
  {
    var a, b, es := |l.probes|, |l.floating|, Entries(l);
    forall i | 0 <= i < a ensures es[i] == l.probes[i] {
    }
    forall i | 0 <= i < b ensures es[a + i] == FromFloating(l.floating[i]) {
    }
    forall i | 0 <= i < |l.virtuals| ensures es[a + b + i] == FromVirtual(l.virtuals[i]) {
    }
    if e in es {
      var i :| 0 <= i < |es| && es[i] == e;
      if a <= i < a + b {
        assert es[a + (i - a)] == FromFloating(l.floating[i - a]);
      } else if a + b <= i {
        assert es[a + b + (i - a - b)] == FromVirtual(l.virtuals[i - a - b]);
      }
    }
  }

  lemma InAppend(a: Lists, b: Lists, e: Probe)
    ensures e in Entries(Append(a, b)) <==> e in Entries(a) || e in Entries(b)
  {
    hide Entries;
    InEntries(a, e);
    InEntries(b, e);
    InEntries(Append(a, b), e);
  }

  lemma {:induction false} InOfProbes(levels: seq<ProbeInfo>, ps: seq<Probe>, i: nat, e: Probe)
    requires i <= |ps|
    ensures e in OfProbes(levels, ps, i) <==>
              exists p | p in ps[i..] :: !p.disabled && p.(info := LookUp(levels + [p.info])) == e
    decreases |ps| - i
  {
    hide LookUp;
    if i < |ps| {
      InOfProbes(levels, ps, i + 1, e);
      assert ps[i..] == [ps[i]] + ps[i + 1..];
    }
  }

  lemma {:induction false} InOfFloating(levels: seq<ProbeInfo>, fs: seq<FloatingProbe>, i: nat, e: FloatingProbe)
    requires i <= |fs|
    ensures e in OfFloating(levels, fs, i) <==>
              exists f | f in fs[i..] ::
                !f.disabled && f.(limits := LookUp(levels + [NOTHING.(limits := f.limits)]).limits) == e
    decreases |fs| - i
  {
    hide LookUp;
    if i < |fs| {
      InOfFloating(levels, fs, i + 1, e);
      assert fs[i..] == [fs[i]] + fs[i + 1..];
    }
  }

  lemma {:induction false} InOfVirtual(vs: seq<VirtualProbe>, i: nat, e: VirtualProbe)
    requires i <= |vs|
    ensures e in OfVirtual(vs, i) <==> !e.disabled && e in vs[i..]
    decreases |vs| - i
  {
    if i < |vs| {
      InOfVirtual(vs, i + 1, e);
      assert vs[i..] == [vs[i]] + vs[i + 1..];
    }
  }

  function Own(path: seq<Group>, l: Lists): Lists {
    Lists(OfProbes(Infos(path), l.probes, 0), OfFloating(Infos(path), l.floating, 0), OfVirtual(l.virtuals, 0))
  }

  lemma InOwn(path: seq<Group>, l: Lists, e: Probe)
    ensures e in Entries(Own(path, l)) <==> Here(path, l, e)
  {
    hide Entries, LookUp, OfProbes, OfFloating, OfVirtual, FromFloating, FromVirtual;
    var own := Own(path, l);
    InEntries(own, e);
    assert l.probes[0..] == l.probes && l.floating[0..] == l.floating && l.virtuals[0..] == l.virtuals;
    InOfProbes(Infos(path), l.probes, 0, e);
    forall f ensures f in own.floating <==>
        exists x | x in l.floating ::
          !x.disabled && x.(limits := LookUp(Infos(path) + [NOTHING.(limits := x.limits)]).limits) == f
    {
      InOfFloating(Infos(path), l.floating, 0, f);
    }
    forall v ensures v in own.virtuals <==> !v.disabled && v in l.virtuals {
      InOfVirtual(l.virtuals, 0, v);
    }
    if e in own.probes {
      var p :| p in l.probes && !p.disabled && p.(info := LookUp(Infos(path) + [p.info])) == e;
      assert Listed(l, AProbe(p)) && Final(Leaf(path, AProbe(p))) == e;
    } else if f :| f in own.floating && FromFloating(f) == e {
      var x :| x in l.floating && !x.disabled && x.(limits := LookUp(Infos(path) + [NOTHING.(limits := x.limits)]).limits) == f;
      assert Listed(l, AFloating(x)) && Final(Leaf(path, AFloating(x))) == e;
    } else if v :| v in own.virtuals && FromVirtual(v) == e {
      assert Listed(l, AVirtual(v)) && Final(Leaf(path, AVirtual(v))) == e;
    }
  }

  lemma LeafHere(above: seq<Group>, g: Group, item: Item)
    requires !g.disabled && Listed(OwnLists(g), item)
    ensures IsLeaf(Leaf(above + [g], item), above, g)
  {
  }

  lemma LeafBelow(leaf: Leaf, above: seq<Group>, g: Group, c: Group)
    requires !g.disabled && c in g.groups && IsLeaf(leaf, above + [g], c)
    ensures IsLeaf(leaf, above, g)
  {
    hide Listed, OwnLists;
    var n := |above|;
    assert leaf.path[..n + 1][..n] == leaf.path[..n] == above;
    assert leaf.path[..n + 1][n] == leaf.path[n] == g;
    assert leaf.path[n + 1] == c;
  }

  lemma LeafDown(leaf: Leaf, above: seq<Group>, g: Group) returns (c: Group)
    requires IsLeaf(leaf, above, g) && leaf.path != above + [g]
    ensures c in g.groups && IsLeaf(leaf, above + [g], c)
  {
    hide Listed, OwnLists;
    var n := |above|;
    assert leaf.path[..n + 1] == above + [g];
    assert leaf.path == leaf.path[..n + 1] + leaf.path[n + 1..];
    c := leaf.path[n + 1];
  }

  /** What a group contributes is exactly what its leaves end up as. */
  lemma {:induction false} EntriesIff(above: seq<Group>, g: Group, e: Probe)
    ensures e in Entries(OfGroup(Infos(above), g)) <==> Under(above, g, e)
    decreases g, 2
  {
    hide Entries, Final, Listed, OfProbes, OfFloating, OfVirtual, OfGroups;
    var path := above + [g];
    if g.disabled {
      InEntries(EMPTY, e);
    } else {
      assert Infos(above) + [g.info] == Infos(path);
      InAppend(Own(path, OwnLists(g)), OfGroups(Infos(path), g, 0), e);
      InOwn(path, OwnLists(g), e);
      InGroups(path, g, 0, e);
      assert g.groups[0..] == g.groups;
      if item :| Listed(OwnLists(g), item) && Final(Leaf(path, item)) == e {
        LeafHere(above, g, item);
      }
      if c :| c in g.groups && Under(path, c, e) {
        var leaf :| IsLeaf(leaf, path, c) && Final(leaf) == e;
        LeafBelow(leaf, above, g, c);
      }
      if leaf :| IsLeaf(leaf, above, g) && Final(leaf) == e {
        if leaf.path == path {
          assert Final(Leaf(path, leaf.item)) == e;
        } else {
          var c := LeafDown(leaf, above, g);
          assert Under(path, c, e);
        }
      }
    }
  }

  lemma {:induction false} InGroups(path: seq<Group>, g: Group, i: nat, e: Probe)
    requires i <= |g.groups|
    ensures e in Entries(OfGroups(Infos(path), g, i)) <==> exists c | c in g.groups[i..] :: Under(path, c, e)
    decreases g, 1, |g.groups| - i
  {
    hide Entries, Under, OfGroup;
    if i < |g.groups| {
      EntriesIff(path, g.groups[i], e);
      InGroups(path, g, i + 1, e);
      InAppend(OfGroup(Infos(path), g.groups[i]), OfGroups(Infos(path), g, i + 1), e);
      assert g.groups[i..] == [g.groups[i]] + g.groups[i + 1..];
    } else {
      InEntries(EMPTY, e);
    }
  }

  lemma {:induction false} InGroupEntries(groups: seq<Group>, i: nat, e: Probe)
    requires i <= |groups|
    ensures e in GroupEntries(groups, i) <==> exists g | g in groups[i..] :: Under([], g, e)
    decreases |groups| - i
  {
    hide Entries, Under, OfGroup;
    if i < |groups| {
      EntriesIff([], groups[i], e);
      assert Infos([]) == [];
      InGroupEntries(groups, i + 1, e);
      assert groups[i..] == [groups[i]] + groups[i + 1..];
    }
  }

  /** An enabled probe, floating probe or virtual probe all of whose enclosing groups are enabled. */
  predicate Reachable(in_: Setup, leaf: Leaf) {
    || (leaf.path == [] && Listed(Lists(in_.probes, in_.floating, in_.virtuals), leaf.item))
    || (exists g | g in in_.groups :: IsLeaf(leaf, [], g))
  }

  /** An enabled entry of the result's list is what some reachable probe ends up as, and the other way round. */
  lemma ReachableIff(in_: Setup, e: Probe)
    ensures (e in AllEntries(in_) && !e.disabled) <==> exists leaf :: Reachable(in_, leaf) && Final(leaf) == e
  {
    hide Entries, LookUp, IsLeaf;
    var top := Lists(in_.probes, in_.floating, in_.virtuals);
    InEntries(top, e);
    InGroupEntries(in_.groups, 0, e);
    assert in_.groups[0..] == in_.groups;
    if e in Entries(top) && !e.disabled {
      var leaf := TopLeaf(top, e);
      assert Reachable(in_, leaf);
    }
    if g :| g in in_.groups && Under([], g, e) {
      var leaf :| IsLeaf(leaf, [], g) && Final(leaf) == e;
      assert Reachable(in_, leaf);
      FinalEnabled(leaf, [], g);
    }
    if leaf :| Reachable(in_, leaf) && Final(leaf) == e {
      if leaf.path == [] && Listed(top, leaf.item) {
        TopFinal(top, leaf);
      } else {
        var g :| g in in_.groups && IsLeaf(leaf, [], g);
        assert Under([], g, e);
        FinalEnabled(leaf, [], g);
      }
    }
  }

  lemma FinalEnabled(leaf: Leaf, above: seq<Group>, g: Group)
    requires IsLeaf(leaf, above, g)
    ensures !Final(leaf).disabled
  {
    hide LookUp;
  }

  lemma TopLeaf(top: Lists, e: Probe) returns (leaf: Leaf)
    requires e in Entries(top) && !e.disabled
    ensures leaf.path == [] && Listed(top, leaf.item) && Final(leaf) == e
  {
    hide Entries, LookUp;
    InEntries(top, e);
    assert Infos([]) == [];
    if e in top.probes {
      leaf := Leaf([], AProbe(e));
      TopLookUp(e.info);
    } else if f :| f in top.floating && FromFloating(f) == e {
      leaf := Leaf([], AFloating(f));
      TopLookUp(NOTHING.(limits := f.limits));
    } else {
      var v :| v in top.virtuals && FromVirtual(v) == e;
      leaf := Leaf([], AVirtual(v));
    }
  }

  lemma TopFinal(top: Lists, leaf: Leaf)
    requires leaf.path == [] && Listed(top, leaf.item)
    ensures Final(leaf) in Entries(top) && !Final(leaf).disabled
  {
    hide Entries, LookUp;
    InEntries(top, Final(leaf));
    assert Infos([]) == [];
    match leaf.item
    case AProbe(p) => TopLookUp(p.info);
    case AFloating(f) => TopLookUp(NOTHING.(limits := f.limits));
    case AVirtual(v) =>
  }

  lemma {:induction false} EnterKeys(ps: seq<Probe>, m: map<string, Probe>, i: nat, k: string)
    requires i <= |ps|
    ensures k in Enter(m, ps, i) <==> k in m || exists p | p in ps[i..] :: !p.disabled && p.name == k
    ensures k in Enter(m, ps, i) ==>
              || (k in m && Enter(m, ps, i)[k] == m[k])
              || (exists p | p in ps[i..] :: !p.disabled && p.name == k && p == Enter(m, ps, i)[k])
    decreases |ps| - i
  {
    if i < |ps| {
      assert ps[i..] == [ps[i]] + ps[i + 1..];
      EnterKeys(ps, if ps[i].disabled then m else m[ps[i].name := ps[i]], i + 1, k);
    }
  }

  /** The result of `UnrollProbes`: its keys are the names of the reachable probes, and what it holds under
      a name is what a reachable probe of that name ends up as; the probe, when the name is its alone. */
  lemma ResultIff(in_: Setup, k: string)
    ensures var r := Enter(map[], AllEntries(in_), 0);
            && (k in r <==> exists leaf :: Reachable(in_, leaf) && Final(leaf).name == k)
            && (k in r ==> exists leaf :: Reachable(in_, leaf) && Final(leaf).name == k && r[k] == Final(leaf))
  {
    hide AllEntries, Reachable, Final, Enter;
    var ps := AllEntries(in_);
    EnterKeys(ps, map[], 0, k);
    assert ps[0..] == ps;
    var r := Enter(map[], ps, 0);
    if k in r {
      var p :| p in ps && !p.disabled && p.name == k && p == r[k];
      ReachableIff(in_, p);
    }
    if leaf :| Reachable(in_, leaf) && Final(leaf).name == k {
      ReachableIff(in_, Final(leaf));
    }
  }

  /** With distinct names every reachable probe is in the result with its looked-up settings. */
  lemma DistinctNames(in_: Setup, leaf: Leaf)
    requires Reachable(in_, leaf)
    requires forall other | Reachable(in_, other) && Final(other).name == Final(leaf).name :: other == leaf
    ensures var r := Enter(map[], AllEntries(in_), 0); Final(leaf).name in r && r[Final(leaf).name] == Final(leaf)
  {
    hide AllEntries, Reachable, Final, Enter;
    ResultIff(in_, Final(leaf).name);
  }
}
