/** Finding configuration files: the directory search of `Read` and `Path` in pkg/config/load.go, for
    settings with flat keys and no explicit configuration file. */
module Load {
  import opened Optional

  /** What opening and reading a file would give. */
  datatype File = Missing | Denied | Malformed | Settings(values: map<string, string>)

  /** The places to search, and two options. The working, user and system directories may be unset. */
  datatype Options = Options(explicit: seq<string>, working: Option<string>, user: Option<string>, system: Option<string>,
                             merge: bool, mustExist: bool)

  datatype Error = NotExist | Unreadable(dir: string)

  datatype Outcome = Outcome(settings: map<string, string>, used: Option<string>, error: Option<Error>)

  /** The configuration file of the module in a directory, and its defaults file. */
  datatype World = World(config: string -> File, defaults: string -> File)

  function Listed(d: Option<string>): seq<string> {
    if d.Some? then [d.value] else []
  }

  /** The directories, highest priority first. */
  function Dirs(o: Options): seq<string> {
    o.explicit + Listed(o.working) + Listed(o.user) + Listed(o.system)
  }

  function Reversed(s: seq<string>): (r: seq<string>)
    ensures |r| == |s| && forall i | 0 <= i < |s| :: r[i] == s[|s| - 1 - i]
  {
    if s == [] then [] else Reversed(s[1..]) + [s[0]]
  }

  predicate Readable(f: File) {
    f.Missing? || f.Settings?
  }

  // ----- looking for the first -----

  function First(dirs: seq<string>, p: string -> bool, i: nat): Option<string>
    decreases |dirs| - i
  {
    if i >= |dirs| then None else if p(dirs[i]) then Some(dirs[i]) else First(dirs, p, i + 1)
  }

  predicate Defines(file: string -> File, dir: string, k: string) {
    file(dir).Settings? && k in file(dir).values
  }

  /** The value of a key in the highest-priority directory whose file defines it. */
  function Highest(dirs: seq<string>, file: string -> File, k: string): Option<string> {
    match First(dirs, d => Defines(file, d, k), 0)
    case None => None
    case Some(d) => if Defines(file, d, k) then Some(file(d).values[k]) else None
  }

  function At(m: map<string, string>, k: string): Option<string> {
    if k in m then Some(m[k]) else None
  }

  function OrElse(a: Option<string>, b: Option<string>): Option<string> {
    if a.Some? then a else b
  }

  lemma {:induction false} FirstIs(dirs: seq<string>, p: string -> bool, i: nat)
    requires i <= |dirs|
    ensures match First(dirs, p, i)
            case Some(d) => exists j | i <= j < |dirs| :: dirs[j] == d && p(d) && forall k | i <= k < j :: !p(dirs[k])
            case None => forall k | i <= k < |dirs| :: !p(dirs[k])
    decreases |dirs| - i
  {
    if i < |dirs| && !p(dirs[i]) {
      FirstIs(dirs, p, i + 1);
    }
  }

  lemma {:induction false} FirstTail(d: string, dirs: seq<string>, p: string -> bool, i: nat)
    ensures First([d] + dirs, p, i + 1) == First(dirs, p, i)
    decreases |dirs| - i
  {
    if i < |dirs| {
      FirstTail(d, dirs, p, i + 1);
    }
  }

  // ----- merging -----

  /** Reading and merging the files of the directories one after the other, up to one that cannot be read. */
  function Merge(m: Outcome, dirs: seq<string>, file: string -> File, n: nat): Outcome
    requires n <= |dirs|
  {
    if n == 0 then m
    else
      var r, d := Merge(m, dirs, file, n - 1), dirs[n - 1];
      if r.error.Some? then r
      else match file(d)
        case Missing => r
        case Settings(values) => r.(settings := r.settings + values, used := Some(d))
        case _ => r.(error := Some(Unreadable(d)))
  }

  lemma {:induction false} MergePrefix(m: Outcome, a: seq<string>, b: seq<string>, file: string -> File, n: nat)
    requires n <= |a|
    ensures Merge(m, a + b, file, n) == Merge(m, a, file, n)
  {
    if n > 0 {
      MergePrefix(m, a, b, file, n - 1);
    }
  }

  lemma {:induction false} HighestStep(d: string, dirs: seq<string>, file: string -> File, k: string)
    ensures Highest([d] + dirs, file, k) == if Defines(file, d, k) then Some(file(d).values[k]) else Highest(dirs, file, k)
  {
    FirstTail(d, dirs, d => Defines(file, d, k), 0);
  }

  predicate There(file: string -> File, dir: string) {
    !file(dir).Missing?
  }

  /** The directory of highest priority comes last. */
  lemma MergeLast(m: Outcome, d: string, rest: seq<string>, file: string -> File)
    requires Merge(m, Reversed(rest), file, |rest|).error.None? && Readable(file(d))
    ensures var q, r := Merge(m, Reversed(rest), file, |rest|), Merge(m, Reversed([d] + rest), file, |rest| + 1);
            r == if There(file, d) then q.(settings := q.settings + file(d).values, used := Some(d)) else q
  {
    assert ([d] + rest)[1..] == rest;
    MergePrefix(m, Reversed(rest), [d], file, |rest|);
  }

  lemma FirstThere(d: string, rest: seq<string>, file: string -> File)
    ensures First([d] + rest, x => There(file, x), 0) == if There(file, d) then Some(d) else First(rest, x => There(file, x), 0)
  {
    FirstTail(d, rest, x => There(file, x), 0);
  }

  /** Merging lowest priority first gives every key its value from the highest-priority directory that
      defines it; the file in use is that of the highest-priority directory that has one. */
  lemma {:induction false} MergeIsHighest(m: Outcome, dirs: seq<string>, file: string -> File, k: string)
    requires m.error.None? && forall d | d in dirs :: Readable(file(d))
    ensures var r := Merge(m, Reversed(dirs), file, |dirs|);
            && r.error.None?
            && At(r.settings, k) == OrElse(Highest(dirs, file, k), At(m.settings, k))
            && r.used == OrElse(First(dirs, d => There(file, d), 0), m.used)
  {
    if dirs != [] {
      hide First, Highest, Merge, Reversed;
      var d, rest := dirs[0], dirs[1..];
      assert dirs == [d] + rest && d in dirs;
      MergeIsHighest(m, rest, file, k);
      MergeLast(m, d, rest, file);
      HighestStep(d, rest, file, k);
      FirstThere(d, rest, file);
    } else {
      assert First(dirs, d => Defines(file, d, k), 0) == None;
    }
  }

  // ----- Read and Path -----

  /** What `Read` gives without merging, starting from given defaults; no configuration at all when the
      first file cannot be read. */
  function ReadFirst(o: Options, w: World, defaults: map<string, string>): Outcome {
    match First(Dirs(o), d => There(w.config, d), 0)
    case None => Outcome(defaults, None, if o.mustExist && Dirs(o) != [] then Some(NotExist) else None)
    case Some(d) =>
      if w.config(d).Settings? then Outcome(defaults + w.config(d).values, Some(d), None)
      else Outcome(map[], None, Some(Unreadable(d)))
  }

  function ReadMerged(o: Options, w: World, defaults: map<string, string>): Outcome {
    var dirs := Reversed(Dirs(o));
    var r := Merge(Outcome(defaults, None, None), dirs, w.config, |dirs|);
    if r.error.None? && r.used.None? && o.mustExist then r.(error := Some(NotExist)) else r
  }

  /** All defaults when merging: internal ones, then those of the directories, lowest priority first. */
  function MergedDefaults(o: Options, w: World, internal: map<string, string>): Outcome {
    var dirs := Reversed(Dirs(o));
    Merge(Outcome(internal, None, None), dirs, w.defaults, |dirs|)
  }

  predicate Opens(f: File) {
    f.Malformed? || f.Settings?
  }

  /** `Path` with `MustExist`: the directory of the file it returns. */
  function PathOf(o: Options, w: World): Option<string> {
    First(if o.merge then Reversed(Dirs(o)) else Dirs(o), d => Opens(w.config(d)), 0)
  }

  method SearchDirs(o: Options) returns (dirs: seq<string>)
    ensures dirs == if o.merge then Reversed(Dirs(o)) else Dirs(o)
  {
    hide Reversed;
    dirs := o.explicit;
    if o.working.Some? {
      dirs := dirs + [o.working.value];
    }
    assert dirs == o.explicit + Listed(o.working);
    if o.user.Some? {
      dirs := dirs + [o.user.value];
    }
    assert dirs == o.explicit + Listed(o.working) + Listed(o.user);
    if o.system.Some? {
      dirs := dirs + [o.system.value];
    }
    assert dirs == Dirs(o);
    if o.merge {
      dirs := Reversed(dirs);
    }
  }

  method MergeFiles(start: map<string, string>, dirs: seq<string>, file: string -> File) returns (r: Outcome)
    ensures r == Merge(Outcome(start, None, None), dirs, file, |dirs|)
  {
    r := Outcome(start, None, None);
    ghost var m := r;
    for i := 0 to |dirs|
      invariant r == Merge(m, dirs, file, i) && r.error.None?
    {
      match file(dirs[i])
      case Missing =>
      case Settings(values) => r := r.(settings := r.settings + values, used := Some(dirs[i]));
      case _ =>
        r := r.(error := Some(Unreadable(dirs[i])));
        Stopped(m, dirs, file, i + 1, |dirs|);
        return;
    }
  }

  lemma {:induction false} Stopped(m: Outcome, dirs: seq<string>, file: string -> File, i: nat, n: nat)
    requires i <= n <= |dirs| && Merge(m, dirs, file, i).error.Some?
    ensures Merge(m, dirs, file, n) == Merge(m, dirs, file, i)
  {
    if i < n {
      Stopped(m, dirs, file, i, n - 1);
    }
  }

  /** `defaults` are the settings merged before the search. */
  method Read(o: Options, w: World, defaults: map<string, string>) returns (r: Outcome)
    ensures r == if o.merge then ReadMerged(o, w, defaults) else ReadFirst(o, w, defaults)
  {
    hide Dirs;
    var dirs := SearchDirs(o);
    if o.merge {
      r := MergeFiles(defaults, dirs, w.config);
      if r.error.None? && r.used.None? && o.mustExist {
        r := r.(error := Some(NotExist));
      }
      return;
    }
    var err := None;
    for i := 0 to |dirs|
      invariant First(dirs, d => There(w.config, d), 0) == First(dirs, d => There(w.config, d), i)
      invariant err == if i == 0 then None else Some(NotExist)
    {
      match w.config(dirs[i])
      case Missing => err := Some(NotExist);
      case Settings(values) => return Outcome(defaults + values, Some(dirs[i]), None);
      case _ => return Outcome(map[], None, Some(Unreadable(dirs[i])));
    }
    r := Outcome(defaults, None, if o.mustExist then err else None);
  }

  method Path(o: Options, w: World) returns (p: Option<string>)
    ensures p == PathOf(o, w)
  {
    var dirs := SearchDirs(o);
    for i := 0 to |dirs|
      invariant First(dirs, d => Opens(w.config(d)), 0) == First(dirs, d => Opens(w.config(d)), i)
    {
      if Opens(w.config(dirs[i])) {
        return Some(dirs[i]);
      }
    }
    p := None;
  }

  // ----- results -----

  /** Merging all, the value of a key is that of the highest-priority configuration file that defines it,
      else of the highest-priority defaults file, else the internal default. */
  lemma Precedence(o: Options, w: World, internal: map<string, string>, k: string)
    requires forall d | d in Dirs(o) :: Readable(w.config(d)) && Readable(w.defaults(d))
    ensures var r := ReadMerged(o, w, MergedDefaults(o, w, internal).settings);
            && At(r.settings, k) ==
                 OrElse(Highest(Dirs(o), w.config, k), OrElse(Highest(Dirs(o), w.defaults, k), At(internal, k)))
            && r.used == First(Dirs(o), d => There(w.config, d), 0)
            && (r.error.Some? <==> o.mustExist && r.used.None?)
  {
    hide Highest, First, Dirs;
    var defaults := MergedDefaults(o, w, internal).settings;
    MergeIsHighest(Outcome(internal, None, None), Dirs(o), w.defaults, k);
    MergeIsHighest(Outcome(defaults, None, None), Dirs(o), w.config, k);
  }

  /** Without merging, the file `Read` loads is the file `Path` returns; they differ only where `Read`
      fails on a file that cannot be opened, which `Path` passes over. */
  lemma ReadIsPath(o: Options, w: World, defaults: map<string, string>)
    requires !o.merge
    ensures var r, p := ReadFirst(o, w, defaults), PathOf(o, w);
            && (r.error == None || r.error == Some(NotExist) ==> p == r.used)
            && (forall d | r.error == Some(Unreadable(d)) :: p == Some(d) <==> w.config(d).Malformed?)
  {
    FirstBoth(Dirs(o), w, 0);
  }

  lemma {:induction false} FirstBoth(dirs: seq<string>, w: World, i: nat)
    ensures var a, b := First(dirs, d => There(w.config, d), i), First(dirs, d => Opens(w.config(d)), i);
            && (a == None ==> b == None)
            && (a.Some? ==> !w.config(a.value).Missing? && (Opens(w.config(a.value)) ==> b == a))
            && (b.Some? ==> Opens(w.config(b.value)))
    decreases |dirs| - i
  {
    if i < |dirs| {
      FirstBoth(dirs, w, i + 1);
    }
  }

  predicate HasFile(w: World, dir: string) {
    w.config(dir).Settings?
  }

  lemma FirstSettings(dirs: seq<string>, w: World)
    requires forall d | d in dirs :: Readable(w.config(d))
    ensures First(dirs, d => There(w.config, d), 0) == First(dirs, d => HasFile(w, d), 0)
    ensures First(dirs, d => Opens(w.config(d)), 0) == First(dirs, d => HasFile(w, d), 0)
  {
    SameFirst(dirs, d => There(w.config, d), d => HasFile(w, d), 0);
    SameFirst(dirs, d => Opens(w.config(d)), d => HasFile(w, d), 0);
  }

  lemma {:induction false} SameFirst(dirs: seq<string>, p: string -> bool, q: string -> bool, i: nat)
    requires forall d | d in dirs :: p(d) == q(d)
    ensures First(dirs, p, i) == First(dirs, q, i)
    decreases |dirs| - i
  {
    if i < |dirs| {
      SameFirst(dirs, p, q, i + 1);
    }
  }

  lemma {:induction false} FirstAt(dirs: seq<string>, p: string -> bool, i: nat, n: nat)
    requires i <= n < |dirs| && p(dirs[n]) && forall k | i <= k < n :: !p(dirs[k])
    ensures First(dirs, p, i) == Some(dirs[n])
    decreases n - i
  {
    if i < n {
      FirstAt(dirs, p, i + 1, n);
    }
  }

  lemma {:induction false} LowestMatch(dirs: seq<string>, p: string -> bool, i: nat) returns (n: nat)
    requires i < |dirs| && exists k | i <= k < |dirs| :: p(dirs[k])
    ensures i <= n < |dirs| && p(dirs[n]) && forall k | i <= k < n :: !p(dirs[k])
    decreases |dirs| - i
  {
    n := i;
    if !p(dirs[i]) {
      n := LowestMatch(dirs, p, i + 1);
    }
  }

  /** The first match from either end. */
  lemma Ends(dirs: seq<string>, p: string -> bool, m: nat) returns (i: nat, l: nat)
    requires m < |dirs| && p(dirs[m])
    ensures i <= l < |dirs| && p(dirs[i]) && p(dirs[l])
    ensures (forall k | 0 <= k < i :: !p(dirs[k])) && forall k | l < k < |dirs| :: !p(dirs[k])
    ensures First(dirs, p, 0) == Some(dirs[i]) && First(Reversed(dirs), p, 0) == Some(dirs[l])
  {
    hide First;
    var back, n := Reversed(dirs), |dirs|;
    i := LowestMatch(dirs, p, 0);
    FirstAt(dirs, p, 0, i);
    assert back[n - 1 - m] == dirs[m];
    var j := LowestMatch(back, p, 0);
    FirstAt(back, p, 0, j);
    l := n - 1 - j;
    assert back[j] == dirs[l];
    forall k | l < k < n ensures !p(dirs[k]) {
      assert back[n - 1 - k] == dirs[k];
    }
  }

  /** It is the same from both ends exactly when there is at most one match. */
  lemma FirstBackwards(dirs: seq<string>, p: string -> bool)
    requires forall a, b | 0 <= a < b < |dirs| :: dirs[a] != dirs[b]
    ensures First(Reversed(dirs), p, 0) == First(dirs, p, 0) <==>
              forall i, j | 0 <= i < j < |dirs| :: !(p(dirs[i]) && p(dirs[j]))
  {
    hide First, Reversed;
    if m: nat :| m < |dirs| && p(dirs[m]) {
      var i, l := Ends(dirs, p, m);
    } else {
      FirstIs(dirs, p, 0);
      FirstIs(Reversed(dirs), p, 0);
      forall j | 0 <= j < |dirs| ensures !p(Reversed(dirs)[j]) {
        assert Reversed(dirs)[j] == dirs[|dirs| - 1 - j];
      }
    }
  }

  /** When merging, `Path` searches lowest priority first: with all files readable and the directories distinct,
      it returns the file in use exactly when at most one directory has a file. */
  lemma PathWhenMergingIff(o: Options, w: World, defaults: map<string, string>)
    requires o.merge && (forall d | d in Dirs(o) :: Readable(w.config(d)))
    requires forall a, b | 0 <= a < b < |Dirs(o)| :: Dirs(o)[a] != Dirs(o)[b]
    ensures PathOf(o, w) == ReadMerged(o, w, defaults).used <==>
              forall i, j | 0 <= i < j < |Dirs(o)| :: !(HasFile(w, Dirs(o)[i]) && HasFile(w, Dirs(o)[j]))
  {
    hide First, Highest, Dirs, Merge, There;
    var dirs := Dirs(o);
    MergeIsHighest(Outcome(defaults, None, None), dirs, w.config, "");
    FirstSettings(dirs, w);
    forall d | d in Reversed(dirs) ensures d in dirs {
      var i :| 0 <= i < |dirs| && Reversed(dirs)[i] == d;
      assert dirs[|dirs| - 1 - i] == d;
    }
    FirstSettings(Reversed(dirs), w);
    FirstBackwards(dirs, d => HasFile(w, d));
  }

  // ----- what the comments of `Read` promise and it does not do -----

  /** Without merging no configuration object is returned exactly when the first file that is there cannot be
      read: the settings are then not even the defaults. */
  lemma NothingReadIff(o: Options, w: World, defaults: map<string, string>, k: string)
    requires !o.merge && k in defaults
    ensures var r, first := ReadFirst(o, w, defaults), First(Dirs(o), d => There(w.config, d), 0);
            (k !in r.settings <==> first.Some? && !w.config(first.value).Settings?)
            && (r.error.Some? && r.error.value.Unreadable? <==> first.Some? && !w.config(first.value).Settings?)
  {
    hide Dirs;
    FirstBoth(Dirs(o), w, 0);
  }

  /** A required file that no directory has is reported as missing, when merging always and without merging exactly
      when there are directories to search. */
  lemma MissingReportedIff(o: Options, w: World, defaults: map<string, string>)
    requires o.mustExist && forall d | d in Dirs(o) :: w.config(d).Missing?
    ensures ReadMerged(o, w, defaults).error == Some(NotExist)
    ensures ReadFirst(o, w, defaults).error == Some(NotExist) <==> Dirs(o) != []
    ensures Dirs(o) == [] ==> ReadFirst(o, w, defaults).error == None
  {
    hide Dirs, Highest;
    MergeIsHighest(Outcome(defaults, None, None), Dirs(o), w.config, "");
    FirstIs(Dirs(o), d => There(w.config, d), 0);
  }
}
