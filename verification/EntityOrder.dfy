/** Of several entities with one name the last in the document stays: `UnrollEntities` of pkg/geneos/utils.go. */
module EntityOrder {
  import opened Optional
  import opened Listings
  import opened Entities

  function EntityAt(path: seq<Group>, es: seq<Entity>, i: nat): Option<Leaf> {
    if i < |es| && !es[i].disabled then Some(Leaf(path, es[i])) else None
  }

  /** The enabled entity at an address inside a group, when all groups on the way are enabled. */
  function Within(above: seq<Group>, g: Group, a: Address): Option<Leaf>
    decreases g
  {
    if g.disabled then None
    else if a.groups == [] then EntityAt(above + [g], g.entities, a.item)
    else if a.groups[0] < |g.groups| then Within(above + [g], g.groups[a.groups[0]], Rest(a))
    else None
  }

  function LeafAt(in_: ManagedEntities, a: Address): Option<Leaf> {
    if a.groups == [] then EntityAt([], in_.entities, a.item)
    else if a.groups[0] < |in_.groups| then Within([], in_.groups[a.groups[0]], Rest(a))
    else None
  }

  function Items(path: seq<Group>, es: seq<Entity>): nat -> Option<Leaf> {
    (i: nat) => EntityAt(path, es, i)
  }

  lemma {:induction false} OwnListing(path: seq<Group>, es: seq<Entity>, i: nat) returns (at: seq<Address>)
    requires i <= |es|
    ensures Listing(EntityLeaves(path, es, i), at, OwnAt(|es|, Items(path, es), i), Before)
    decreases |es| - i
  {
    if i == |es| {
      at := [];
      Nothing(OwnAt(|es|, Items(path, es), i), Before);
    } else {
      hide Listing;
      var rest := OwnListing(path, es, i + 1);
      at := NextItem(|es|, Items(path, es), i, EntityLeaves(path, es, i + 1), rest);
    }
  }

  function Inside(path: seq<Group>, groups: seq<Group>): (nat, Address) -> Option<Leaf> {
    (i: nat, a: Address) => if i < |groups| then Within(path, groups[i], a) else None
  }

  lemma {:induction false} GroupListing(above: seq<Group>, g: Group) returns (at: seq<Address>)
    ensures Listing(Leaves(above, g), at, (a: Address) => Within(above, g, a), Before)
    decreases g, 2
  {
    var f := (a: Address) => Within(above, g, a);
    if g.disabled {
      at := [];
      Nothing(f, Before);
    } else {
      hide Listing;
      var path := above + [g];
      var own := OwnListing(path, g.entities, 0);
      var below := BelowListing(path, g, 0);
      at := own + below;
      OwnFirst(EntityLeaves(path, g.entities, 0), own, OwnAt(|g.entities|, Items(path, g.entities), 0), GroupLeaves(path, g, 0), below,
               From(|g.groups|, Inside(path, g.groups), 0), f);
    }
  }

  lemma {:induction false} BelowListing(path: seq<Group>, g: Group, i: nat) returns (at: seq<Address>)
    requires i <= |g.groups|
    ensures Listing(GroupLeaves(path, g, i), at, From(|g.groups|, Inside(path, g.groups), i), Before)
    decreases g, 1, |g.groups| - i
  {
    if i == |g.groups| {
      at := [];
      Nothing(From(|g.groups|, Inside(path, g.groups), i), Before);
    } else {
      var first := GroupListing(path, g.groups[i]);
      var rest := BelowListing(path, g, i + 1);
      at := OneMore(path, g.groups, i, Leaves(path, g.groups[i]), first, GroupLeaves(path, g, i + 1), rest);
    }
  }

  lemma OneMore(path: seq<Group>, groups: seq<Group>, i: nat, ls: seq<Leaf>, at: seq<Address>, rest: seq<Leaf>, up: seq<Address>)
    returns (all: seq<Address>)
    requires i < |groups| && Listing(ls, at, (a: Address) => Within(path, groups[i], a), Before)
    requires Listing(rest, up, From(|groups|, Inside(path, groups), i + 1), Before)
    ensures Listing(ls + rest, all, From(|groups|, Inside(path, groups), i), Before)
  {
    var f := Inside(path, groups);
    assert Listing(ls, at, (a: Address) => f(i, a), Before);
    hide Listing;
    all := NextGroup(|groups|, f, i, ls, at, rest, up);
  }

  lemma {:induction false} TopListing(groups: seq<Group>, i: nat) returns (at: seq<Address>)
    requires i <= |groups|
    ensures Listing(TopLeaves(groups, i), at, From(|groups|, Inside([], groups), i), Before)
    decreases |groups| - i
  {
    if i == |groups| {
      at := [];
      Nothing(From(|groups|, Inside([], groups), i), Before);
    } else {
      hide Leaves;
      var first := GroupListing([], groups[i]);
      var rest := TopListing(groups, i + 1);
      at := OneMore([], groups, i, Leaves([], groups[i]), first, TopLeaves(groups, i + 1), rest);
    }
  }

  lemma AllListing(in_: ManagedEntities) returns (at: seq<Address>)
    ensures Listing(AllLeaves(in_), at, (a: Address) => LeafAt(in_, a), Before)
  {
    hide Listing, Within, EntityLeaves, TopLeaves;
    var own := OwnListing([], in_.entities, 0);
    var below := TopListing(in_.groups, 0);
    at := own + below;
    OwnFirst(EntityLeaves([], in_.entities, 0), own, OwnAt(|in_.entities|, Items([], in_.entities), 0), TopLeaves(in_.groups, 0), below,
             From(|in_.groups|, Inside([], in_.groups), 0), (a: Address) => LeafAt(in_, a));
  }

  lemma {:induction false} CollectLast(types: Types, ls: seq<Leaf>, n: nat, p: nat)
    requires p < n <= |ls| && forall q | p < q < n :: ls[q].entity.name != ls[p].entity.name
    ensures ls[p].entity.name in Collect(types, ls, n) && Collect(types, ls, n)[ls[p].entity.name] == Unrolled(types, ls[p])
  {
    hide Unrolled;
    if p < n - 1 {
      CollectLast(types, ls, n - 1, p);
    }
  }

  /** The result holds, under its name, the entity at every address behind which no entity of that name follows in the
      document. */
  lemma LastStays(in_: ManagedEntities, types: Types, a: Address)
    requires LeafAt(in_, a).Some?
    requires forall b | Before(a, b) && LeafAt(in_, b).Some? ::
               LeafAt(in_, b).value.entity.name != LeafAt(in_, a).value.entity.name
    ensures var r, leaf := CollectAll(types, AllLeaves(in_)), LeafAt(in_, a).value;
            leaf.entity.name in r && r[leaf.entity.name] == Unrolled(types, leaf)
  {
    hide Before, LeafAt, AllLeaves, Unrolled;
    var ls := AllLeaves(in_);
    var at := AllListing(in_);
    var find := (b: Address) => LeafAt(in_, b);
    assert find(a).Some?;
    assert a in at;
    var p :| 0 <= p < |at| && at[p] == a;
    forall q | p < q < |ls| ensures ls[q].entity.name != ls[p].entity.name {
      assert Before(at[p], at[q]) && LeafAt(in_, at[q]) == Some(ls[q]);
    }
    CollectLast(types, ls, |ls|, p);
  }
}
