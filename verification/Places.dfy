/** Which place wins: the order of the directories that `Read` and `Path` of pkg/config/load.go search, told by the
    places themselves. */
module Places {
  import opened Optional
  import opened Load

  /** A place to search: one of the explicit directories, the working, the user or the system directory. */
  datatype Place = Explicit(n: nat) | Working | User | System

  function DirAt(o: Options, p: Place): Option<string> {
    match p
    case Explicit(n) => if n < |o.explicit| then Some(o.explicit[n]) else None
    case Working => o.working
    case User => o.user
    case System => o.system
  }

  /** Explicit directories come first, in their order, then the working, the user and the system directory. */
  predicate Outranks(p: Place, q: Place) {
    match p
    case Explicit(n) => q.Explicit? ==> n < q.n
    case Working => q.User? || q.System?
    case User => q.System?
    case System => false
  }

  /** Where the directory of a place stands in the list that is searched. */
  function IndexOf(o: Options, p: Place): nat
    requires DirAt(o, p).Some?
  {
    match p
    case Explicit(n) => n
    case Working => |o.explicit|
    case User => |o.explicit| + |Listed(o.working)|
    case System => |o.explicit| + |Listed(o.working)| + |Listed(o.user)|
  }

  lemma IndexIs(o: Options, p: Place, q: Place)
    requires DirAt(o, p).Some? && DirAt(o, q).Some?
    ensures IndexOf(o, p) < |Dirs(o)| && Dirs(o)[IndexOf(o, p)] == DirAt(o, p).value
    ensures IndexOf(o, p) < IndexOf(o, q) <==> Outranks(p, q)
  {
  }

  lemma PlaceOf(o: Options, i: nat) returns (p: Place)
    requires i < |Dirs(o)|
    ensures DirAt(o, p).Some? && IndexOf(o, p) == i
  {
    var e, w, u := |o.explicit|, |Listed(o.working)|, |Listed(o.user)|;
    p := if i < e then Explicit(i) else if i < e + w then Working else if i < e + w + u then User else System;
  }

  predicate Holds(o: Options, p: Place, test: string -> bool) {
    DirAt(o, p).Some? && test(DirAt(o, p).value)
  }

  /** `p` has what is looked for and no place that outranks it has. */
  ghost predicate Leads(o: Options, p: Place, test: string -> bool) {
    Holds(o, p, test) && forall q | Outranks(q, p) :: !Holds(o, q, test)
  }

  /** `p` has what is looked for and outranks all others that have. */
  ghost predicate Trails(o: Options, p: Place, test: string -> bool) {
    Holds(o, p, test) && forall q | Outranks(p, q) :: !Holds(o, q, test)
  }

  ghost predicate Nowhere(o: Options, test: string -> bool) {
    forall q :: !Holds(o, q, test)
  }

  lemma LeaderFirst(o: Options, p: Place, test: string -> bool)
    requires Leads(o, p, test)
    ensures First(Dirs(o), test, 0) == Some(DirAt(o, p).value)
  {
    hide Dirs, IndexOf, DirAt, Outranks, First;
    IndexIs(o, p, p);
    var i := IndexOf(o, p);
    forall k | 0 <= k < i ensures !test(Dirs(o)[k]) {
      var q := PlaceOf(o, k);
      IndexIs(o, q, p);
      assert !Holds(o, q, test);
    }
    FirstAt(Dirs(o), test, 0, i);
  }

  lemma NowhereNone(o: Options, test: string -> bool)
    requires Nowhere(o, test)
    ensures First(Dirs(o), test, 0) == None
  {
    hide Dirs, IndexOf, DirAt, First;
    FirstIs(Dirs(o), test, 0);
    forall k | 0 <= k < |Dirs(o)| ensures !test(Dirs(o)[k]) {
      var q := PlaceOf(o, k);
      IndexIs(o, q, q);
      assert !Holds(o, q, test);
    }
  }

  lemma LastFirst(o: Options, p: Place, test: string -> bool)
    requires Trails(o, p, test)
    ensures First(Reversed(Dirs(o)), test, 0) == Some(DirAt(o, p).value)
  {
    hide Dirs, IndexOf, DirAt, Outranks, First, Reversed;
    IndexIs(o, p, p);
    var dirs, back := Dirs(o), Reversed(Dirs(o));
    var i := |dirs| - 1 - IndexOf(o, p);
    assert back[i] == dirs[IndexOf(o, p)];
    forall k | 0 <= k < i ensures !test(back[k]) {
      var q := PlaceOf(o, |dirs| - 1 - k);
      IndexIs(o, p, q);
      IndexIs(o, q, q);
      assert !Holds(o, q, test);
    }
    FirstAt(back, test, 0, i);
  }

  // ----- what is looked for -----

  function Present(file: string -> File): string -> bool {
    d => !file(d).Missing?
  }

  function Opening(file: string -> File): string -> bool {
    d => file(d).Malformed? || file(d).Settings?
  }

  function Defining(file: string -> File, k: string): string -> bool {
    d => file(d).Settings? && k in file(d).values
  }

  lemma SameSearch(dirs: seq<string>, w: World, file: string -> File, k: string)
    ensures First(dirs, Present(w.config), 0) == First(dirs, d => There(w.config, d), 0)
    ensures First(dirs, Opening(w.config), 0) == First(dirs, d => Opens(w.config(d)), 0)
    ensures First(dirs, Defining(file, k), 0) == First(dirs, d => Defines(file, d, k), 0)
  {
    hide First;
    SameFirst(dirs, Present(w.config), d => There(w.config, d), 0);
    SameFirst(dirs, Opening(w.config), d => Opens(w.config(d)), 0);
    SameFirst(dirs, Defining(file, k), d => Defines(file, d, k), 0);
  }

  /** What `Read` gives, merging or not, from given defaults. */
  function Loaded(o: Options, w: World, defaults: map<string, string>): Outcome {
    if o.merge then ReadMerged(o, w, defaults) else ReadFirst(o, w, defaults)
  }

  // ----- merging -----

  ghost predicate AllReadable(o: Options, file: string -> File) {
    forall p :: DirAt(o, p).Some? ==> Readable(file(DirAt(o, p).value))
  }

  lemma DirsReadable(o: Options, file: string -> File)
    requires AllReadable(o, file)
    ensures forall d | d in Dirs(o) :: Readable(file(d))
  {
    hide Dirs, IndexOf, DirAt;
    forall d | d in Dirs(o) ensures Readable(file(d)) {
      var i :| 0 <= i < |Dirs(o)| && Dirs(o)[i] == d;
      var p := PlaceOf(o, i);
      IndexIs(o, p, p);
    }
  }

  /** When merging, a key has the value of the first place whose file defines it; that is, whatever any place that it
      outranks has to say. A key that no file defines has its default. */
  lemma MergedValue(o: Options, w: World, defaults: map<string, string>, k: string, p: Place)
    requires o.merge && AllReadable(o, w.config)
    ensures var r, defines := Loaded(o, w, defaults), Defining(w.config, k);
            && (Leads(o, p, defines) ==> At(r.settings, k) == Some(w.config(DirAt(o, p).value).values[k]))
            && (Nowhere(o, defines) ==> At(r.settings, k) == At(defaults, k))
  {
    hide Dirs, DirAt, Outranks, First, Merge, Reversed;
    DirsReadable(o, w.config);
    MergeIsHighest(Outcome(defaults, None, None), Dirs(o), w.config, k);
    var defines := Defining(w.config, k);
    SameSearch(Dirs(o), w, w.config, k);
    if Leads(o, p, defines) {
      LeaderFirst(o, p, defines);
    }
    if Nowhere(o, defines) {
      NowhereNone(o, defines);
    }
  }

  /** The defaults of a merging `Read`: of the first place whose defaults file defines the key, else internal. */
  lemma MergedDefault(o: Options, w: World, internal: map<string, string>, k: string, p: Place)
    requires AllReadable(o, w.defaults)
    ensures var r, defines := MergedDefaults(o, w, internal), Defining(w.defaults, k);
            && r.error == None
            && (Leads(o, p, defines) ==> At(r.settings, k) == Some(w.defaults(DirAt(o, p).value).values[k]))
            && (Nowhere(o, defines) ==> At(r.settings, k) == At(internal, k))
  {
    hide Dirs, DirAt, Outranks, First, Merge, Reversed;
    DirsReadable(o, w.defaults);
    MergeIsHighest(Outcome(internal, None, None), Dirs(o), w.defaults, k);
    var defines := Defining(w.defaults, k);
    SameSearch(Dirs(o), w, w.defaults, k);
    if Leads(o, p, defines) {
      LeaderFirst(o, p, defines);
    }
    if Nowhere(o, defines) {
      NowhereNone(o, defines);
    }
  }

  /** The file in use is that of the first place that has one, merging or not. */
  lemma UsedFile(o: Options, w: World, defaults: map<string, string>, p: Place)
    requires AllReadable(o, w.config)
    ensures var r, there := Loaded(o, w, defaults), Present(w.config);
            && (Leads(o, p, there) ==> r.used == DirAt(o, p) && r.error == None)
            && (Nowhere(o, there) ==> r.used == None)
  {
    hide Dirs, DirAt, Outranks, First, Merge, Reversed, Highest;
    DirsReadable(o, w.config);
    MergeIsHighest(Outcome(defaults, None, None), Dirs(o), w.config, "");
    var there := Present(w.config);
    SameSearch(Dirs(o), w, w.config, "");
    if Leads(o, p, there) {
      LeaderFirst(o, p, there);
      assert Readable(w.config(DirAt(o, p).value));
    }
    if Nowhere(o, there) {
      NowhereNone(o, there);
    }
  }

  lemma {:induction false} MergeFine(m: Outcome, dirs: seq<string>, file: string -> File, n: nat)
    requires n <= |dirs| && m.error.None? && forall k | 0 <= k < n :: Readable(file(dirs[k]))
    ensures Merge(m, dirs, file, n).error.None?
  {
    if n > 0 {
      MergeFine(m, dirs, file, n - 1);
    }
  }

  /** When merging, lowest priority first, the last place whose file cannot be read ends it with an error. */
  lemma MergeStops(o: Options, w: World, defaults: map<string, string>, p: Place)
    requires o.merge && Trails(o, p, d => !Readable(w.config(d)))
    ensures Loaded(o, w, defaults).error == Some(Unreadable(DirAt(o, p).value))
  {
    hide IndexOf, DirAt, Outranks, Reversed;
    var dirs, back, start := Dirs(o), Reversed(Dirs(o)), Outcome(defaults, None, None);
    hide Dirs;
    IndexIs(o, p, p);
    var i := |dirs| - 1 - IndexOf(o, p);
    assert back[i] == dirs[IndexOf(o, p)];
    forall k | 0 <= k < i ensures Readable(w.config(back[k])) {
      var q := PlaceOf(o, |dirs| - 1 - k);
      IndexIs(o, p, q);
      IndexIs(o, q, q);
      assert !Holds(o, q, d => !Readable(w.config(d)));
    }
    MergeFine(start, back, w.config, i);
    assert Merge(start, back, w.config, i + 1).error == Some(Unreadable(back[i]));
    Stopped(start, back, w.config, i + 1, |back|);
  }

  // ----- not merging -----

  /** Without merging the first place that has a file decides alone: its values override the defaults, and no other
      file is looked at. */
  lemma FirstValue(o: Options, w: World, defaults: map<string, string>, k: string, p: Place)
    requires !o.merge && Leads(o, p, Present(w.config))
    ensures var r, f := Loaded(o, w, defaults), w.config(DirAt(o, p).value);
            && (f.Settings? ==> r.error == None && r.used == DirAt(o, p)
                                && At(r.settings, k) == if k in f.values then Some(f.values[k]) else At(defaults, k))
            && (!f.Settings? ==> r == Outcome(map[], None, Some(Unreadable(DirAt(o, p).value))))
  {
    hide Dirs, DirAt, Outranks, First;
    LeaderFirst(o, p, Present(w.config));
    SameSearch(Dirs(o), w, w.config, k);
  }

  /** With no file anywhere, only the defaults. */
  lemma NoFile(o: Options, w: World, defaults: map<string, string>)
    requires Nowhere(o, Present(w.config))
    ensures Loaded(o, w, defaults).settings == defaults && Loaded(o, w, defaults).used == None
    ensures Loaded(o, w, defaults).error ==
              if o.mustExist && (o.merge || exists p :: DirAt(o, p).Some?) then Some(NotExist) else None
  {
    NoDirs(o);
    hide Dirs, DirAt, First, Merge, Reversed, Highest;
    NowhereNone(o, Present(w.config));
    SameSearch(Dirs(o), w, w.config, "");
    if o.merge {
      forall p | DirAt(o, p).Some? ensures Readable(w.config(DirAt(o, p).value)) {
        assert !Holds(o, p, Present(w.config));
      }
      UsedFile(o, w, defaults, Working);
      DirsReadable(o, w.config);
      MergeIsHighest(Outcome(defaults, None, None), Dirs(o), w.config, "");
      forall k ensures At(Loaded(o, w, defaults).settings, k) == At(defaults, k) {
        var defines := Defining(w.config, k);
        forall q ensures !Holds(o, q, defines) {
          assert !Holds(o, q, Present(w.config));
        }
        MergedValue(o, w, defaults, k, Working);
      }
      SameAt(Loaded(o, w, defaults).settings, defaults);
    }
  }

  lemma NoDirs(o: Options)
    ensures Dirs(o) == [] <==> forall p :: DirAt(o, p).None?
  {
    hide Dirs, IndexOf, DirAt;
    if Dirs(o) != [] {
      var p := PlaceOf(o, 0);
    }
    forall p | DirAt(o, p).Some? ensures Dirs(o) != [] {
      IndexIs(o, p, p);
    }
  }

  lemma SameAt(a: map<string, string>, b: map<string, string>)
    requires forall k :: At(a, k) == At(b, k)
    ensures a == b
  {
    forall k ensures (k in a <==> k in b) && (k in a ==> a[k] == b[k]) {
      assert At(a, k) == At(b, k);
    }
  }

  // ----- Path -----

  /** `Path` returns the file of the first place that has one that opens, or of the last when merging. */
  lemma PathPlace(o: Options, w: World, p: Place)
    ensures var opens := Opening(w.config);
            && (!o.merge && Leads(o, p, opens) ==> PathOf(o, w) == DirAt(o, p))
            && (o.merge && Trails(o, p, opens) ==> PathOf(o, w) == DirAt(o, p))
            && (Nowhere(o, opens) && !o.merge ==> PathOf(o, w) == None)
  {
    hide Dirs, DirAt, Outranks, First, Reversed;
    var opens := Opening(w.config);
    SameSearch(Dirs(o), w, w.config, "");
    SameSearch(Reversed(Dirs(o)), w, w.config, "");
    if Leads(o, p, opens) {
      LeaderFirst(o, p, opens);
    }
    if Trails(o, p, opens) {
      LastFirst(o, p, opens);
    }
    if Nowhere(o, opens) {
      NowhereNone(o, opens);
    }
  }

  /** An example that names the places: what the user's file says about a key stands, whatever the system file says,
      when no explicit directory and not the working directory has a file. */
  lemma UserOverSystem(o: Options, w: World, defaults: map<string, string>, k: string, user: string)
    requires o.user == Some(user) && AllReadable(o, w.config) && Defining(w.config, k)(user)
    requires forall i | 0 <= i < |o.explicit| :: w.config(o.explicit[i]).Missing?
    requires o.working.Some? ==> w.config(o.working.value).Missing?
    ensures var r := Loaded(o, w, defaults); At(r.settings, k) == Some(w.config(user).values[k]) && r.used == Some(user)
    ensures !o.merge ==> PathOf(o, w) == Some(user)
  {
    hide First, Merge, Reversed, Dirs;
    assert Leads(o, User, Present(w.config));
    assert Leads(o, User, Defining(w.config, k));
    assert Leads(o, User, Opening(w.config));
    UsedFile(o, w, defaults, User);
    PathPlace(o, w, User);
    if o.merge {
      MergedValue(o, w, defaults, k, User);
    } else {
      FirstValue(o, w, defaults, k, User);
    }
  }
}
