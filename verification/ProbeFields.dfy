/** What an unrolled probe holds, field by field: `UnrollProbes` of pkg/geneos/utils.go told without its functions. */
module ProbeFields {
  import opened Optional
  import opened Probes

  /** `v` is the last value that is not zero, zero when all are. */
  predicate Innermost(v: int, values: seq<int>) {
    if forall j | 0 <= j < |values| :: values[j] == 0 then v == 0
    else exists j | 0 <= j < |values| :: values[j] == v != 0 && forall k | j < k < |values| :: values[k] == 0
  }

  /** `v` is the last flag that is set, none when none is. */
  predicate InnermostFlag(v: Option<bool>, values: seq<Option<bool>>) {
    if forall j | 0 <= j < |values| :: values[j] == None then v == None
    else exists j | 0 <= j < |values| :: values[j] == v != None && forall k | j < k < |values| :: values[k] == None
  }

  function Ports(path: seq<Group>, own: int): seq<int> {
    seq(|path|, i requires 0 <= i < |path| => path[i].info.port) + [own]
  }

  function Secures(path: seq<Group>, own: Option<bool>): seq<Option<bool>> {
    seq(|path|, i requires 0 <= i < |path| => path[i].info.secure) + [own]
  }

  function Timeouts(path: seq<Group>, own: int): seq<int> {
    seq(|path|, i requires 0 <= i < |path| => path[i].info.limits.timeout) + [own]
  }

  function Connections(path: seq<Group>, own: int): seq<int> {
    seq(|path|, i requires 0 <= i < |path| => path[i].info.limits.connections) + [own]
  }

  function Processes(path: seq<Group>, own: int): seq<int> {
    seq(|path|, i requires 0 <= i < |path| => path[i].info.limits.processes) + [own]
  }

  predicate LimitsOf(l: Limits, path: seq<Group>, own: Limits) {
    && Innermost(l.timeout, Timeouts(path, own.timeout))
    && Innermost(l.connections, Connections(path, own.connections))
    && Innermost(l.processes, Processes(path, own.processes))
  }

  /** `e` is the probe of `leaf` with every setting taken from the innermost level that has it, the probe itself first.
      A floating probe has limits only, a virtual one nothing but its name. */
  predicate Holds(e: Probe, leaf: Leaf) {
    match leaf.item
    case AProbe(p) =>
      && e.kind == p.kind && e.name == p.name && e.disabled == p.disabled && e.hostname == p.hostname
      && Innermost(e.info.port, Ports(leaf.path, p.info.port))
      && InnermostFlag(e.info.secure, Secures(leaf.path, p.info.secure))
      && LimitsOf(e.info.limits, leaf.path, p.info.limits)
    case AFloating(f) =>
      && e.kind == Floating && e.name == f.name && e.disabled == f.disabled && e.hostname == ""
      && e.info.port == 0 && e.info.secure == None
      && LimitsOf(e.info.limits, leaf.path, f.limits)
    case AVirtual(v) =>
      && e.kind == Virtual && e.name == v.name && e.disabled == v.disabled && e.hostname == ""
      && e.info.port == 0 && e.info.secure == None
      && e.info.limits.timeout == 0 && e.info.limits.connections == 0 && e.info.limits.processes == 0
  }

  function NameOf(item: Item): string {
    match item
    case AProbe(p) => p.name
    case AFloating(f) => f.name
    case AVirtual(v) => v.name
  }

  lemma {:induction false} InnermostSecure(levels: seq<ProbeInfo>, n: nat)
    requires n <= |levels|
    ensures var v := FirstSecure(levels, n);
            || (v == None && forall j | 0 <= j < n :: levels[j].secure == None)
            || (exists j | 0 <= j < n :: levels[j].secure == v != None && forall k | j < k < n :: levels[k].secure == None)
  {
    if n > 0 {
      InnermostSecure(levels, n - 1);
    }
  }

  lemma {:induction false} SetValues(levels: seq<ProbeInfo>, field: ProbeInfo -> int, values: seq<int>)
    requires |values| == |levels| && forall i | 0 <= i < |levels| :: values[i] == field(levels[i])
    ensures Innermost(FirstSet(levels, |levels|, field), values)
  {
    InnermostWins(levels, |levels|, field);
    var v := FirstSet(levels, |levels|, field);
    if j :| 0 <= j < |levels| && field(levels[j]) == v != 0 && forall k | j < k < |levels| :: field(levels[k]) == 0 {
      assert values[j] == v != 0;
    }
  }

  lemma {:induction false} SetFlag(levels: seq<ProbeInfo>, values: seq<Option<bool>>)
    requires |values| == |levels| && forall i | 0 <= i < |levels| :: values[i] == levels[i].secure
    ensures InnermostFlag(FirstSecure(levels, |levels|), values)
  {
    InnermostSecure(levels, |levels|);
    var v := FirstSecure(levels, |levels|);
    if j :| 0 <= j < |levels| && levels[j].secure == v != None && forall k | j < k < |levels| :: levels[k].secure == None {
      assert values[j] == v != None;
    }
  }

  lemma LimitsLookedUp(path: seq<Group>, own: ProbeInfo)
    ensures LimitsOf(LookUp(Infos(path) + [own]).limits, path, own.limits)
  {
    hide Innermost, FirstSet;
    var levels := Infos(path) + [own];
    SetValues(levels, (i: ProbeInfo) => i.limits.timeout, Timeouts(path, own.limits.timeout));
    SetValues(levels, (i: ProbeInfo) => i.limits.connections, Connections(path, own.limits.connections));
    SetValues(levels, (i: ProbeInfo) => i.limits.processes, Processes(path, own.limits.processes));
  }

  lemma FinalHolds(leaf: Leaf)
    ensures Holds(Final(leaf), leaf)
    ensures Final(leaf).name == NameOf(leaf.item)
  {
    hide Innermost, InnermostFlag, FirstSet, FirstSecure, LimitsOf;
    var path := leaf.path;
    match leaf.item
    case AProbe(p) =>
      LimitsLookedUp(path, p.info);
      SetValues(Infos(path) + [p.info], (i: ProbeInfo) => i.port, Ports(path, p.info.port));
      SetFlag(Infos(path) + [p.info], Secures(path, p.info.secure));
    case AFloating(f) =>
      LimitsLookedUp(path, NOTHING.(limits := f.limits));
    case AVirtual(v) =>
  }

  function ResultOf(in_: Setup): map<string, Probe> {
    Enter(map[], AllEntries(in_), 0)
  }

  /** The keys of the result are the names of the reachable probes of every kind; an entry holds, field by field, what
      a reachable probe of its name and its groups say. */
  lemma ResultFields(in_: Setup, k: string)
    ensures k in ResultOf(in_) <==> exists leaf :: Reachable(in_, leaf) && NameOf(leaf.item) == k
    ensures k in ResultOf(in_) ==> exists leaf :: Reachable(in_, leaf) && NameOf(leaf.item) == k && Holds(ResultOf(in_)[k], leaf)
  {
    hide Reachable, Holds, Final, AllEntries, Enter, NameOf;
    ResultIff(in_, k);
    forall leaf ensures Holds(Final(leaf), leaf) && Final(leaf).name == NameOf(leaf.item) {
      FinalHolds(leaf);
    }
  }

  /** A reachable probe whose name no other reachable one has is in the result with these fields. */
  lemma DistinctFields(in_: Setup, leaf: Leaf)
    requires Reachable(in_, leaf)
    requires forall other | Reachable(in_, other) && NameOf(other.item) == NameOf(leaf.item) :: other == leaf
    ensures var r, k := ResultOf(in_), NameOf(leaf.item); k in r && Holds(r[k], leaf)
  {
    hide Reachable, Holds, Final, AllEntries, Enter, NameOf;
    ResultFields(in_, NameOf(leaf.item));
  }
}
