/** Lists whose elements stand at addresses, in the order of the addresses: what unrolling a tree of groups visits. */
module Listings {
  import opened Optional

  /** `at` holds the addresses at which `find` finds something, in order; `ls` is what it finds there. */
  ghost predicate Listing<A(!new), T>(ls: seq<T>, at: seq<A>, find: A -> Option<T>, before: (A, A) -> bool) {
    && |at| == |ls| && (forall i, j | 0 <= i < j < |at| :: before(at[i], at[j]))
    && (forall i | 0 <= i < |ls| :: find(at[i]) == Some(ls[i]))
    && (forall a | find(a).Some? :: a in at)
  }

  lemma Nothing<A(!new), T>(find: A -> Option<T>, before: (A, A) -> bool)
    requires forall a :: find(a) == None
    ensures Listing([], [], find, before)
  {
  }

  lemma One<A(!new), T>(x: T, a: A, find: A -> Option<T>, before: (A, A) -> bool)
    requires find(a) == Some(x) && forall b | find(b).Some? :: b == a
    ensures Listing([x], [a], find, before)
  {
  }

  /** One listing behind another. */
  lemma Joined<A(!new), T>(ls: seq<T>, at: seq<A>, f: A -> Option<T>, ms: seq<T>, up: seq<A>, g: A -> Option<T>,
                           both: A -> Option<T>, before: (A, A) -> bool)
    requires Listing(ls, at, f, before) && Listing(ms, up, g, before)
    requires forall a :: both(a) == if f(a).Some? then f(a) else g(a)
    requires forall a, b | f(a).Some? && g(b).Some? :: before(a, b)
    requires forall a :: !before(a, a)
    ensures Listing(ls + ms, at + up, both, before)
  {
    forall i | 0 <= i < |ms| ensures both(up[i]) == Some(ms[i]) {
      assert g(up[i]).Some?;
      assert !before(up[i], up[i]);
    }
    forall i, j | 0 <= i < j < |at + up| ensures before((at + up)[i], (at + up)[j]) {
      if i < |at| <= j {
        assert f(at[i]).Some? && g(up[j - |at|]).Some?;
      } else if |at| <= i {
        assert before(up[i - |at|], up[j - |at|]);
      }
    }
  }

  /** The same list at other addresses: `to` names them, `back` takes the names away. */
  lemma Renamed<A(!new), B(!new), T>(ls: seq<T>, at: seq<A>, find: A -> Option<T>, before: (A, A) -> bool,
                                     to: A -> B, back: B -> A, g: B -> Option<T>, less: (B, B) -> bool) returns (up: seq<B>)
    requires Listing(ls, at, find, before)
    requires forall a :: g(to(a)) == find(a)
    requires forall b | g(b).Some? :: to(back(b)) == b
    requires forall a, a' | before(a, a') :: less(to(a), to(a'))
    ensures Listing(ls, up, g, less)
  {
    up := seq(|at|, n requires 0 <= n < |at| => to(at[n]));
    forall b | g(b).Some? ensures b in up {
      assert g(to(back(b))) == find(back(b));
      var n :| 0 <= n < |at| && at[n] == back(b);
      assert up[n] == b;
    }
  }

  // ----- addresses in a tree of groups -----

  /** The indices of the groups from the outermost in, and the index of an item in the last of them. */
  datatype Address = Address(groups: seq<nat>, item: nat)

  /** The order of the document: the items of a level, then its groups one after the other. */
  predicate Before(a: Address, b: Address)
    decreases |a.groups|
  {
    if a.groups == [] then b.groups != [] || a.item < b.item
    else
      && b.groups != []
      && (|| a.groups[0] < b.groups[0]
          || (a.groups[0] == b.groups[0] && Before(Rest(a), Rest(b))))
  }

  function Rest(a: Address): Address
    requires a.groups != []
  {
    Address(a.groups[1..], a.item)
  }

  lemma {:induction false} NotBefore(a: Address)
    ensures !Before(a, a)
    decreases |a.groups|
  {
    if a.groups != [] {
      NotBefore(Rest(a));
    }
  }

  function Deeper(i: nat, a: Address): Address {
    Address([i] + a.groups, a.item)
  }

  lemma DeeperRest(i: nat, a: Address)
    ensures Rest(Deeper(i, a)) == a && Deeper(i, a).groups[0] == i
    ensures a.groups != [] && a.groups[0] == i ==> Deeper(i, Rest(a)) == a
  {
    assert ([i] + a.groups)[1..] == a.groups;
    if a.groups != [] && a.groups[0] == i {
      assert [i] + a.groups[1..] == a.groups;
    }
  }

  /** The finder of what lies in the group with index `i`, where `f` finds inside it. */
  function In<T>(i: nat, f: Address -> Option<T>): Address -> Option<T> {
    (a: Address) => if a.groups != [] && a.groups[0] == i then f(Rest(a)) else None
  }

  lemma DeeperListing<T>(ls: seq<T>, at: seq<Address>, f: Address -> Option<T>, i: nat) returns (up: seq<Address>)
    requires Listing(ls, at, f, Before)
    ensures Listing(ls, up, In(i, f), Before)
  {
    var to := (a: Address) => Deeper(i, a);
    var back := (a: Address) => if a.groups != [] then Rest(a) else a;
    forall a ensures In(i, f)(to(a)) == f(a) && (In(i, f)(a).Some? ==> to(back(a)) == a) {
      DeeperRest(i, a);
    }
    forall a, b | Before(a, b) ensures Before(to(a), to(b)) {
      DeeperRest(i, a);
      DeeperRest(i, b);
    }
    up := Renamed(ls, at, f, Before, to, back, In(i, f), Before);
  }

  /** The finder of what lies in the groups of a list from index `i` on, where `f` finds inside each of them. */
  function From<T>(n: nat, f: (nat, Address) -> Option<T>, i: nat): Address -> Option<T> {
    (a: Address) => if a.groups != [] && i <= a.groups[0] < n then f(a.groups[0], Rest(a)) else None
  }

  /** One group in front of the others. */
  lemma NextGroup<T>(n: nat, f: (nat, Address) -> Option<T>, i: nat, ls: seq<T>, at: seq<Address>, rest: seq<T>, up: seq<Address>)
    returns (all: seq<Address>)
    requires i < n && Listing(ls, at, (a: Address) => f(i, a), Before) && Listing(rest, up, From(n, f, i + 1), Before)
    ensures Listing(ls + rest, all, From(n, f, i), Before)
  {
    var here := (a: Address) => f(i, a);
    var down := DeeperListing(ls, at, here, i);
    all := down + up;
    forall a ensures !Before(a, a) {
      NotBefore(a);
    }
    hide Listing;
    Joined(ls, down, In(i, here), rest, up, From(n, f, i + 1), From(n, f, i), Before);
  }

  /** The finder of the items of a level from index `i` on. */
  function OwnAt<T>(n: nat, f: nat -> Option<T>, i: nat): Address -> Option<T> {
    (a: Address) => if a.groups == [] && i <= a.item < n then f(a.item) else None
  }

  /** One item in front of the others of its level, if it is there. */
  lemma NextItem<T>(n: nat, f: nat -> Option<T>, i: nat, rest: seq<T>, up: seq<Address>) returns (all: seq<Address>)
    requires i < n && Listing(rest, up, OwnAt(n, f, i + 1), Before)
    ensures Listing((if f(i).Some? then [f(i).value] else []) + rest, all, OwnAt(n, f, i), Before)
  {
    var a := Address([], i);
    if f(i).Some? {
      var one := (b: Address) => if b == a then f(i) else None;
      One(f(i).value, a, one, Before);
      all := [a] + up;
      forall b ensures !Before(b, b) {
        NotBefore(b);
      }
      hide Listing;
      Joined([f(i).value], [a], one, rest, up, OwnAt(n, f, i + 1), OwnAt(n, f, i), Before);
    } else {
      all := up;
      assert [] + rest == rest;
    }
  }

  /** The items of a level in front of its groups. */
  lemma OwnFirst<T>(ls: seq<T>, at: seq<Address>, own: Address -> Option<T>, rest: seq<T>, up: seq<Address>,
                    below: Address -> Option<T>, both: Address -> Option<T>)
    requires Listing(ls, at, own, Before) && Listing(rest, up, below, Before)
    requires forall a :: own(a).Some? ==> a.groups == []
    requires forall a :: below(a).Some? ==> a.groups != []
    requires forall a :: both(a) == if a.groups == [] then own(a) else below(a)
    ensures Listing(ls + rest, at + up, both, Before)
  {
    hide Listing;
    forall a ensures !Before(a, a) {
      NotBefore(a);
    }
    Joined(ls, at, own, rest, up, below, both, Before);
  }
}
