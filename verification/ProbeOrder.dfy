/** Of several probes with one name the last to enter the result stays: `UnrollProbes` of pkg/geneos/utils.go. */
module ProbeOrder {
  import opened Optional
  import opened Listings
  import opened ProbeFields
  import opened Probes

  /** Probes, floating probes and virtual probes are kinds 0, 1 and 2. */
  const KINDS: nat := 3

  function ItemAt(kind: nat, l: Lists, i: nat): Option<Item> {
    if kind == 0 && i < |l.probes| then Some(AProbe(l.probes[i]))
    else if kind == 1 && i < |l.floating| then Some(AFloating(l.floating[i]))
    else if kind == 2 && i < |l.virtuals| then Some(AVirtual(l.virtuals[i]))
    else None
  }

  predicate Disabled(item: Item) {
    match item
    case AProbe(p) => p.disabled
    case AFloating(f) => f.disabled
    case AVirtual(v) => v.disabled
  }

  function LeafOf(path: seq<Group>, item: Option<Item>): Option<Leaf> {
    if item.Some? && !Disabled(item.value) then Some(Leaf(path, item.value)) else None
  }

  /** The enabled item of a kind at an address inside a group, when all groups on the way are enabled. */
  function Within(kind: nat, above: seq<Group>, g: Group, a: Address): Option<Leaf>
    decreases g
  {
    if g.disabled then None
    else if a.groups == [] then LeafOf(above + [g], ItemAt(kind, OwnLists(g), a.item))
    else if a.groups[0] < |g.groups| then Within(kind, above + [g], g.groups[a.groups[0]], Rest(a))
    else None
  }

  datatype Spot = Spot(kind: nat, at: Address)

  function LeafAt(in_: Setup, s: Spot): Option<Leaf> {
    if s.at.groups == [] then LeafOf([], ItemAt(s.kind, Lists(in_.probes, in_.floating, in_.virtuals), s.at.item))
    else if s.at.groups[0] < |in_.groups| then Within(s.kind, [], in_.groups[s.at.groups[0]], Rest(s.at))
    else None
  }

  predicate ByKind(s: Spot, t: Spot) {
    s.kind < t.kind || (s.kind == t.kind && Before(s.at, t.at))
  }

  /** The top level comes first, then the outermost groups one after the other; in each of these kind after kind, and
      within a kind in the order of the document. */
  predicate Earlier(s: Spot, t: Spot) {
    if s.at.groups == [] then t.at.groups != [] || ByKind(s, t)
    else
      && t.at.groups != []
      && (s.at.groups[0] < t.at.groups[0] || (s.at.groups[0] == t.at.groups[0] && ByKind(s, t)))
  }

  lemma NotEarlier(s: Spot)
    ensures !Earlier(s, s)
  {
    NotBefore(s.at);
  }

  function Finished(leaf: Option<Leaf>): Option<Probe> {
    if leaf.Some? then Some(Final(leaf.value)) else None
  }

  // ----- one kind in one group -----

  function Block(kind: nat, l: Lists): seq<Probe> {
    if kind == 0 then l.probes
    else if kind == 1 then seq(|l.floating|, i requires 0 <= i < |l.floating| => FromFloating(l.floating[i]))
    else if kind == 2 then seq(|l.virtuals|, i requires 0 <= i < |l.virtuals| => FromVirtual(l.virtuals[i]))
    else []
  }

  lemma BlockAppend(kind: nat, a: Lists, b: Lists)
    ensures Block(kind, Append(a, b)) == Block(kind, a) + Block(kind, b)
  {
    hide FromFloating, FromVirtual;
  }

  function SizeOf(kind: nat, l: Lists): nat {
    if kind == 0 then |l.probes| else if kind == 1 then |l.floating| else if kind == 2 then |l.virtuals| else 0
  }

  function OwnItems(kind: nat, path: seq<Group>, l: Lists): nat -> Option<Probe> {
    (i: nat) => Finished(LeafOf(path, ItemAt(kind, l, i)))
  }

  /** The contributions of a kind from index `i` on. */
  function Contributed(kind: nat, path: seq<Group>, l: Lists, i: nat): seq<Probe> {
    Block(kind, Lists(OfProbes(Infos(path), l.probes, i), OfFloating(Infos(path), l.floating, i), OfVirtual(l.virtuals, i)))
  }

  lemma ProbeStep(path: seq<Group>, l: Lists, i: nat)
    requires i < |l.probes|
    ensures var own := OwnItems(0, path, l)(i);
            Contributed(0, path, l, i) == (if own.Some? then [own.value] else []) + Contributed(0, path, l, i + 1)
  {
    hide LookUp;
  }

  lemma FloatingStep(path: seq<Group>, l: Lists, i: nat)
    requires i < |l.floating|
    ensures var own := OwnItems(1, path, l)(i);
            Contributed(1, path, l, i) == (if own.Some? then [own.value] else []) + Contributed(1, path, l, i + 1)
  {
    hide LookUp;
    var f := l.floating[i];
    var g := f.(limits := LookUp(Infos(path) + [NOTHING.(limits := f.limits)]).limits);
    var rest := OfFloating(Infos(path), l.floating, i + 1);
    assert OfFloating(Infos(path), l.floating, i) == (if f.disabled then [] else [g]) + rest;
    assert !f.disabled ==> OwnItems(1, path, l)(i) == Some(FromFloating(g));
  }

  lemma VirtualStep(path: seq<Group>, l: Lists, i: nat)
    requires i < |l.virtuals|
    ensures var own := OwnItems(2, path, l)(i);
            Contributed(2, path, l, i) == (if own.Some? then [own.value] else []) + Contributed(2, path, l, i + 1)
  {
    hide LookUp, OfProbes, OfFloating;
    var v := l.virtuals[i];
    assert OfVirtual(l.virtuals, i) == (if v.disabled then [] else [v]) + OfVirtual(l.virtuals, i + 1);
    assert !v.disabled ==> OwnItems(2, path, l)(i) == Some(FromVirtual(v));
  }

  lemma NothingMore(kind: nat, path: seq<Group>, l: Lists, i: nat)
    requires i == SizeOf(kind, l)
    ensures Contributed(kind, path, l, i) == []
  {
    hide LookUp;
  }

  lemma ContributedStep(kind: nat, path: seq<Group>, l: Lists, i: nat)
    requires i < SizeOf(kind, l)
    ensures var own := OwnItems(kind, path, l)(i);
            Contributed(kind, path, l, i) == (if own.Some? then [own.value] else []) + Contributed(kind, path, l, i + 1)
  {
    hide Contributed, OwnItems;
    if kind == 0 {
      ProbeStep(path, l, i);
    } else if kind == 1 {
      FloatingStep(path, l, i);
    } else {
      VirtualStep(path, l, i);
    }
  }

  lemma {:induction false} OwnListing(kind: nat, path: seq<Group>, l: Lists, i: nat) returns (at: seq<Address>)
    requires i <= SizeOf(kind, l)
    ensures Listing(Contributed(kind, path, l, i), at, OwnAt(SizeOf(kind, l), OwnItems(kind, path, l), i), Before)
    decreases SizeOf(kind, l) - i
  {
    var n, items := SizeOf(kind, l), OwnItems(kind, path, l);
    if i == n {
      at := [];
      NothingMore(kind, path, l, i);
      Nothing(OwnAt(n, items, i), Before);
    } else {
      hide Listing, Contributed, OwnItems;
      ContributedStep(kind, path, l, i);
      var rest := OwnListing(kind, path, l, i + 1);
      at := NextItem(n, items, i, Contributed(kind, path, l, i + 1), rest);
    }
  }

  function Inside(kind: nat, path: seq<Group>, groups: seq<Group>): (nat, Address) -> Option<Probe> {
    (i: nat, a: Address) => if i < |groups| then Finished(Within(kind, path, groups[i], a)) else None
  }

  function InGroup(kind: nat, above: seq<Group>, g: Group): Address -> Option<Probe> {
    (a: Address) => Finished(Within(kind, above, g, a))
  }

  lemma GroupBlock(kind: nat, above: seq<Group>, g: Group)
    requires !g.disabled
    ensures var path := above + [g];
            Block(kind, OfGroup(Infos(above), g)) == Contributed(kind, path, OwnLists(g), 0) + Block(kind, OfGroups(Infos(path), g, 0))
  {
    hide LookUp, OfProbes, OfFloating, OfVirtual, OfGroups, Block;
    var path := above + [g];
    assert Infos(above) + [g.info] == Infos(path);
    BlockAppend(kind, Lists(OfProbes(Infos(path), g.probes, 0), OfFloating(Infos(path), g.floating, 0), OfVirtual(g.virtuals, 0)),
                OfGroups(Infos(path), g, 0));
  }

  lemma {:induction false} GroupListing(kind: nat, above: seq<Group>, g: Group) returns (at: seq<Address>)
    ensures Listing(Block(kind, OfGroup(Infos(above), g)), at, InGroup(kind, above, g), Before)
    decreases g, 2
  {
    var f, l := InGroup(kind, above, g), OwnLists(g);
    if g.disabled {
      at := [];
      assert Block(kind, EMPTY) == [];
      Nothing(f, Before);
    } else {
      var path := above + [g];
      GroupBlock(kind, above, g);
      forall a: Address | a.groups == [] ensures f(a) == OwnAt(SizeOf(kind, l), OwnItems(kind, path, l), 0)(a) {
      }
      hide Listing, Block, OfGroup, OfGroups, Contributed, OwnItems, ItemAt;
      var own := OwnListing(kind, path, l, 0);
      var below := BelowListing(kind, path, g, 0);
      at := own + below;
      OwnFirst(Contributed(kind, path, l, 0), own, OwnAt(SizeOf(kind, l), OwnItems(kind, path, l), 0),
               Block(kind, OfGroups(Infos(path), g, 0)), below, From(|g.groups|, Inside(kind, path, g.groups), 0), f);
    }
  }

  lemma {:induction false} BelowListing(kind: nat, path: seq<Group>, g: Group, i: nat) returns (at: seq<Address>)
    requires i <= |g.groups|
    ensures Listing(Block(kind, OfGroups(Infos(path), g, i)), at, From(|g.groups|, Inside(kind, path, g.groups), i), Before)
    decreases g, 1, |g.groups| - i
  {
    var f, n := Inside(kind, path, g.groups), |g.groups|;
    if i == n {
      at := [];
      assert Block(kind, EMPTY) == [];
      Nothing(From(n, f, i), Before);
    } else {
      hide Listing, Block, OfGroup;
      BlockAppend(kind, OfGroup(Infos(path), g.groups[i]), OfGroups(Infos(path), g, i + 1));
      var first := GroupListing(kind, path, g.groups[i]);
      var rest := BelowListing(kind, path, g, i + 1);
      at := OneMore(kind, path, g.groups, i, Block(kind, OfGroup(Infos(path), g.groups[i])), first,
                    Block(kind, OfGroups(Infos(path), g, i + 1)), rest);
    }
  }

  lemma OneMore(kind: nat, path: seq<Group>, groups: seq<Group>, i: nat, ls: seq<Probe>, at: seq<Address>, rest: seq<Probe>,
                up: seq<Address>)
    returns (all: seq<Address>)
    requires i < |groups| && Listing(ls, at, InGroup(kind, path, groups[i]), Before)
    requires Listing(rest, up, From(|groups|, Inside(kind, path, groups), i + 1), Before)
    ensures Listing(ls + rest, all, From(|groups|, Inside(kind, path, groups), i), Before)
  {
    var f := Inside(kind, path, groups);
    assert Listing(ls, at, (a: Address) => f(i, a), Before);
    hide Listing;
    all := NextGroup(|groups|, f, i, ls, at, rest, up);
  }

  // ----- everything that enters the result -----

  function InGroups(groups: seq<Group>, i: nat): Spot -> Option<Probe> {
    (s: Spot) =>
      if s.kind < KINDS && s.at.groups != [] && i <= s.at.groups[0] < |groups| then
        Finished(Within(s.kind, [], groups[s.at.groups[0]], Rest(s.at)))
      else None
  }

  function OfKind(kind: nat, g: Group, i: nat): Spot -> Option<Probe> {
    (s: Spot) =>
      if s.kind == kind && s.at.groups != [] && s.at.groups[0] == i then Finished(Within(kind, [], g, Rest(s.at))) else None
  }

  lemma KindListing(kind: nat, g: Group, i: nat) returns (up: seq<Spot>)
    ensures Listing(Block(kind, OfGroup([], g)), up, OfKind(kind, g, i), Earlier)
  {
    var f, h := InGroup(kind, [], g), OfKind(kind, g, i);
    var to := (a: Address) => Spot(kind, Deeper(i, a));
    var back := (s: Spot) => if s.at.groups != [] then Rest(s.at) else s.at;
    forall a ensures h(to(a)) == f(a) {
      DeeperRest(i, a);
    }
    forall s | h(s).Some? ensures to(back(s)) == s {
      DeeperRest(i, s.at);
    }
    forall a, b | Before(a, b) ensures Earlier(to(a), to(b)) {
      DeeperRest(i, a);
      DeeperRest(i, b);
    }
    assert Infos([]) == [];
    var at := GroupListing(kind, [], g);
    hide Listing;
    up := Renamed(Block(kind, OfGroup([], g)), at, f, Before, to, back, h, Earlier);
  }

  function UpToKind(kinds: nat, g: Group, i: nat): Spot -> Option<Probe> {
    (s: Spot) =>
      if s.kind < kinds && s.at.groups != [] && s.at.groups[0] == i then Finished(Within(s.kind, [], g, Rest(s.at))) else None
  }

  lemma MoreKinds(ls: seq<Probe>, at: seq<Spot>, kind: nat, g: Group, i: nat) returns (all: seq<Spot>)
    requires Listing(ls, at, UpToKind(kind, g, i), Earlier)
    ensures Listing(ls + Block(kind, OfGroup([], g)), all, UpToKind(kind + 1, g, i), Earlier)
  {
    hide Listing, Block, OfGroup;
    var up := KindListing(kind, g, i);
    all := at + up;
    forall s ensures !Earlier(s, s) {
      NotEarlier(s);
    }
    Joined(ls, at, UpToKind(kind, g, i), Block(kind, OfGroup([], g)), up, OfKind(kind, g, i), UpToKind(kind + 1, g, i), Earlier);
  }

  lemma EntriesBlocks(l: Lists)
    ensures Entries(l) == Block(0, l) + Block(1, l) + Block(2, l)
  {
    hide FromFloating, FromVirtual;
  }

  lemma EntriesListing(g: Group, i: nat) returns (at: seq<Spot>)
    ensures Listing(Entries(OfGroup([], g)), at, UpToKind(KINDS, g, i), Earlier)
  {
    Nothing(UpToKind(0, g, i), Earlier);
    var l := OfGroup([], g);
    assert [] + Block(0, l) == Block(0, l);
    EntriesBlocks(l);
    hide *;
    at := MoreKinds([], [], 0, g, i);
    at := MoreKinds(Block(0, l), at, 1, g, i);
    at := MoreKinds(Block(0, l) + Block(1, l), at, 2, g, i);
    assert 2 + 1 == KINDS;
  }

  lemma {:induction false} GroupsListing(groups: seq<Group>, i: nat) returns (at: seq<Spot>)
    requires i <= |groups|
    ensures Listing(GroupEntries(groups, i), at, InGroups(groups, i), Earlier)
    decreases |groups| - i
  {
    hide OfGroup, Entries, Within;
    if i == |groups| {
      at := [];
      Nothing(InGroups(groups, i), Earlier);
    } else {
      hide Listing;
      var first := EntriesListing(groups[i], i);
      var rest := GroupsListing(groups, i + 1);
      at := first + rest;
      forall s ensures !Earlier(s, s) {
        NotEarlier(s);
      }
      Joined(Entries(OfGroup([], groups[i])), first, UpToKind(KINDS, groups[i], i), GroupEntries(groups, i + 1), rest,
             InGroups(groups, i + 1), InGroups(groups, i), Earlier);
    }
  }

  // ----- the top level -----

  function TopOf(l: Lists, kind: nat, i: nat): Option<Probe> {
    if ItemAt(kind, l, i).Some? then Some(Final(Leaf([], ItemAt(kind, l, i).value))) else None
  }

  /** Disabled items of the top level are passed on; they are left out when they would enter the result. */
  function AtTop(l: Lists, kinds: nat): Spot -> Option<Probe> {
    (s: Spot) => if s.at.groups == [] && s.kind < kinds then TopOf(l, s.kind, s.at.item) else None
  }

  lemma TopIs(l: Lists, kind: nat, i: nat)
    requires i < |Block(kind, l)|
    ensures TopOf(l, kind, i) == Some(Block(kind, l)[i])
  {
    assert Infos([]) == [];
    if kind == 0 {
      TopLookUp(l.probes[i].info);
    } else if kind == 1 {
      TopLookUp(NOTHING.(limits := l.floating[i].limits));
    }
  }

  lemma MoreAtTop(ls: seq<Probe>, at: seq<Spot>, l: Lists, kind: nat) returns (all: seq<Spot>)
    requires Listing(ls, at, AtTop(l, kind), Earlier)
    ensures Listing(ls + Block(kind, l), all, AtTop(l, kind + 1), Earlier)
  {
    hide Final;
    var b := Block(kind, l);
    var here := (s: Spot) => if s.at.groups == [] && s.kind == kind then TopOf(l, kind, s.at.item) else None;
    var up := seq(|b|, i requires 0 <= i < |b| => Spot(kind, Address([], i)));
    forall i | 0 <= i < |b| ensures here(up[i]) == Some(b[i]) {
      TopIs(l, kind, i);
    }
    forall s | here(s).Some? ensures s in up {
      assert s.at.item < |b|;
      assert up[s.at.item] == s;
    }
    assert Listing(b, up, here, Earlier);
    hide Listing, Block;
    forall s ensures !Earlier(s, s) {
      NotEarlier(s);
    }
    all := at + up;
    Joined(ls, at, AtTop(l, kind), b, up, here, AtTop(l, kind + 1), Earlier);
  }

  lemma TopListing(l: Lists) returns (at: seq<Spot>)
    ensures Listing(Entries(l), at, AtTop(l, KINDS), Earlier)
  {
    Nothing(AtTop(l, 0), Earlier);
    assert [] + Block(0, l) == Block(0, l);
    EntriesBlocks(l);
    hide *;
    at := MoreAtTop([], [], l, 0);
    at := MoreAtTop(Block(0, l), at, l, 1);
    at := MoreAtTop(Block(0, l) + Block(1, l), at, l, 2);
    assert 2 + 1 == KINDS;
  }

  function Found(in_: Setup): Spot -> Option<Probe> {
    (s: Spot) =>
      if s.at.groups == [] then AtTop(Lists(in_.probes, in_.floating, in_.virtuals), KINDS)(s) else InGroups(in_.groups, 0)(s)
  }

  lemma AllListing(in_: Setup) returns (at: seq<Spot>)
    ensures Listing(AllEntries(in_), at, Found(in_), Earlier)
  {
    hide Listing, Within, Entries, GroupEntries, TopOf;
    var l := Lists(in_.probes, in_.floating, in_.virtuals);
    var top := TopListing(l);
    var below := GroupsListing(in_.groups, 0);
    at := top + below;
    forall s ensures !Earlier(s, s) {
      NotEarlier(s);
    }
    Joined(Entries(l), top, AtTop(l, KINDS), GroupEntries(in_.groups, 0), below, InGroups(in_.groups, 0), Found(in_), Earlier);
  }

  // ----- the result -----

  lemma {:induction false} EnterKeeps(m: map<string, Probe>, ps: seq<Probe>, i: nat, k: string)
    requires k in m && forall q | i <= q < |ps| :: ps[q].disabled || ps[q].name != k
    ensures k in Enter(m, ps, i) && Enter(m, ps, i)[k] == m[k]
    decreases |ps| - i
  {
    if i < |ps| {
      EnterKeeps(if ps[i].disabled then m else m[ps[i].name := ps[i]], ps, i + 1, k);
    }
  }

  lemma {:induction false} EnterLast(m: map<string, Probe>, ps: seq<Probe>, i: nat, p: nat)
    requires i <= p < |ps| && !ps[p].disabled
    requires forall q | p < q < |ps| :: ps[q].disabled || ps[q].name != ps[p].name
    ensures ps[p].name in Enter(m, ps, i) && Enter(m, ps, i)[ps[p].name] == ps[p]
    decreases |ps| - i
  {
    if i < p {
      EnterLast(if ps[i].disabled then m else m[ps[i].name := ps[i]], ps, i + 1, p);
    } else {
      EnterKeeps(m[ps[p].name := ps[p]], ps, p + 1, ps[p].name);
    }
  }

  lemma FinalDisabled(path: seq<Group>, item: Item)
    ensures Final(Leaf(path, item)).disabled == Disabled(item)
  {
    hide LookUp;
  }

  lemma {:induction false} WithinEnabled(kind: nat, above: seq<Group>, g: Group, a: Address)
    ensures Within(kind, above, g, a).Some? ==> !Disabled(Within(kind, above, g, a).value.item)
    decreases g
  {
    if !g.disabled && a.groups != [] && a.groups[0] < |g.groups| {
      WithinEnabled(kind, above + [g], g.groups[a.groups[0]], Rest(a));
    }
  }

  lemma FoundBelow(in_: Setup, s: Spot)
    requires s.at.groups != []
    ensures Found(in_)(s) ==
              if s.kind < KINDS && s.at.groups[0] < |in_.groups| then
                Finished(Within(s.kind, [], in_.groups[s.at.groups[0]], Rest(s.at)))
              else None
  {
    assert Found(in_)(s) == InGroups(in_.groups, 0)(s);
  }

  lemma FoundTop(in_: Setup, s: Spot)
    requires s.at.groups == []
    ensures var l := Lists(in_.probes, in_.floating, in_.virtuals);
            Found(in_)(s) == if s.kind < KINDS then TopOf(l, s.kind, s.at.item) else None
  {
    assert Found(in_)(s) == AtTop(Lists(in_.probes, in_.floating, in_.virtuals), KINDS)(s);
  }

  lemma FoundIs(in_: Setup, s: Spot)
    requires s.kind < KINDS
    ensures LeafAt(in_, s).Some? <==> Found(in_)(s).Some? && !Found(in_)(s).value.disabled
    ensures LeafAt(in_, s).Some? ==> Found(in_)(s) == Some(Final(LeafAt(in_, s).value))
  {
    hide Final;
    if s.at.groups == [] {
      FoundTop(in_, s);
      var item := ItemAt(s.kind, Lists(in_.probes, in_.floating, in_.virtuals), s.at.item);
      if item.Some? {
        FinalDisabled([], item.value);
      }
    } else {
      FoundBelow(in_, s);
    }
    if s.at.groups != [] && s.at.groups[0] < |in_.groups| {
      WithinEnabled(s.kind, [], in_.groups[s.at.groups[0]], Rest(s.at));
      var leaf := Within(s.kind, [], in_.groups[s.at.groups[0]], Rest(s.at));
      if leaf.Some? {
        FinalDisabled(leaf.value.path, leaf.value.item);
        assert leaf.value == Leaf(leaf.value.path, leaf.value.item);
      }
    }
  }

  lemma KindsOnly(in_: Setup, s: Spot)
    ensures Found(in_)(s).Some? ==> s.kind < KINDS
  {
    if s.at.groups == [] {
      FoundTop(in_, s);
    } else {
      FoundBelow(in_, s);
    }
  }

  /** The result holds, under its name, what every probe ends up as behind which no probe of any kind with that name
      enters. */
  lemma LastStays(in_: Setup, s: Spot)
    requires s.kind < KINDS && LeafAt(in_, s).Some?
    requires forall t: Spot | t.kind < KINDS && Earlier(s, t) && LeafAt(in_, t).Some? ::
               NameOf(LeafAt(in_, t).value.item) != NameOf(LeafAt(in_, s).value.item)
    ensures var r, leaf := ResultOf(in_), LeafAt(in_, s).value;
            && NameOf(leaf.item) in r && r[NameOf(leaf.item)] == Final(leaf)
            && Holds(r[NameOf(leaf.item)], leaf)
  {
    hide Earlier, LeafAt, AllEntries, Final, Found, NameOf, Holds, Enter;
    var ps, leaf := AllEntries(in_), LeafAt(in_, s).value;
    var at := AllListing(in_);
    FoundIs(in_, s);
    FinalHolds(leaf);
    assert s in at;
    var p :| 0 <= p < |at| && at[p] == s;
    forall q | p < q < |ps| ensures ps[q].disabled || ps[q].name != ps[p].name {
      assert Earlier(at[p], at[q]) && Found(in_)(at[q]) == Some(ps[q]);
      KindsOnly(in_, at[q]);
      FoundIs(in_, at[q]);
      if !ps[q].disabled {
        FinalHolds(LeafAt(in_, at[q]).value);
      }
    }
    EnterLast(map[], ps, 0, p);
  }
}
