/** Schema migration: `updateSchema` of gdna/cmd/db.go.

    The database is a version number and the updates that were committed to it. A run may fail at any
    statement, and the process may die between any two; the next run starts from what the database
    holds. In particular a committed update and the version that records it are two statements. */
module Schema {

  /** An entry under `db.schema-updates`: whether its check and its update query are non-empty. */
  datatype Update = Update(check: bool, update: bool)

  /** The configured updates, and those the database already had when it was created. */
  datatype Setup = Setup(updates: map<int, Update>, base: set<int>)

  /** Where a run is: between runs, looking at update i, in its transaction, or about to record it. */
  datatype Place = Idle(completed: bool) | AtUpdate(i: int) | AtCommit(i: int) | AtBump(i: int)

  /** `flag` is the process's `db.updated` setting. */
  datatype State = State(version: int, log: seq<int>, place: Place, flag: bool)

  /** Proceed with the next statement, fail at it with an error, or lose the process. */
  datatype Event = Proceed | Fail | Crash

  predicate Present(in_: Setup, s: State, i: int) {
    i in in_.base || i in s.log
  }

  /** A check reports exactly whether its update is missing; without one the update is taken to be. */
  predicate Required(in_: Setup, s: State, i: int)
    requires i in in_.updates
  {
    in_.updates[i].check ==> !Present(in_, s, i)
  }

  function Step(in_: Setup, s: State, e: Event): State {
    if e != Proceed then
      // an open transaction is rolled back
      s.(place := if s.place.Idle? then s.place else Idle(false), flag := if e == Crash then false else s.flag)
    else match s.place
      case Idle(_) => s.(place := AtUpdate(s.version + 1))
      case AtUpdate(i) =>
        if i !in in_.updates then s.(place := Idle(true))
        else if !in_.updates[i].update then s.(place := Idle(false))
        else if Required(in_, s, i) then s.(place := AtCommit(i))
        else s.(place := AtBump(i))
      case AtCommit(i) => s.(place := AtBump(i), log := s.log + [i], flag := true)
      case AtBump(i) => s.(place := AtUpdate(i + 1), version := i)
  }

  function Run(in_: Setup, s: State, es: seq<Event>): State {
    if es == [] then s else Step(in_, Run(in_, s, es[..|es| - 1]), es[|es| - 1])
  }

  lemma RunAppend(in_: Setup, s: State, es: seq<Event>, e: Event)
    ensures Run(in_, s, es + [e]) == Step(in_, Run(in_, s, es), e)
  {
    assert (es + [e])[..|es|] == es;
  }

  predicate Start(s: State) {
    s.place.Idle? && s.log == []
  }

  /** Update i lies in the contiguous range of configured, non-empty updates above version v. */
  ghost predicate Reached(in_: Setup, v: int, i: int) {
    v < i && forall j | v < j <= i :: j in in_.updates && in_.updates[j].update
  }

  predicate Checked(in_: Setup, i: int) {
    i in in_.updates && in_.updates[i].check
  }

  // ----- in every run -----

  predicate NonDecreasing(log: seq<int>) {
    forall a, b | 0 <= a < b < |log| :: log[a] <= log[b]
  }

  predicate Increasing(log: seq<int>) {
    forall a, b | 0 <= a < b < |log| :: log[a] < log[b]
  }

  /** The update a run is at is the one after the recorded version. */
  predicate InStep(s: State) {
    s.place.Idle? || s.place.i == s.version + 1
  }

  /** What holds whatever is checked: updates are committed in order, none ahead of its turn, and every
      version passed is that of a configured update that is present. */
  ghost predicate Ordered(in_: Setup, s: State, v: int) {
    && InStep(s) && v <= s.version
    && NonDecreasing(s.log)
    && (forall x | x in s.log :: v < x <= s.version + 1 && Reached(in_, v, x))
    && (forall j | v < j <= s.version :: Reached(in_, v, j) && Present(in_, s, j))
    && (s.place.AtCommit? || s.place.AtBump? ==> Reached(in_, v, s.place.i))
    && (s.place.AtBump? ==> Present(in_, s, s.place.i))
    && (s.place == Idle(true) ==> s.version + 1 !in in_.updates)
  }

  lemma ReachedNext(in_: Setup, v: int, i: int)
    requires forall j | v < j < i :: Reached(in_, v, j)
    requires v < i && i in in_.updates && in_.updates[i].update
    ensures Reached(in_, v, i)
  {
    forall j | v < j <= i ensures j in in_.updates && in_.updates[j].update {
      assert j < i ==> Reached(in_, v, j);
    }
  }

  lemma OrderedStep(in_: Setup, s: State, v: int, e: Event)
    requires Ordered(in_, s, v)
    ensures Ordered(in_, Step(in_, s, e), v)
  {
    hide Reached;
    var t := Step(in_, s, e);
    forall j | v < j <= s.version ensures Present(in_, t, j) {
      assert Present(in_, s, j);
    }
    if e == Proceed && s.place.AtUpdate? && s.place.i in in_.updates && in_.updates[s.place.i].update {
      ReachedNext(in_, v, s.place.i);
    }
    if e == Proceed && s.place.AtCommit? {
      assert t.log[|s.log|] == s.place.i;
      forall a | 0 <= a < |s.log| ensures s.log[a] <= s.place.i {
        assert s.log[a] in s.log;
      }
    }
  }

  lemma OrderedStart(in_: Setup, s: State)
    requires Start(s) && s.place == Idle(false)
    ensures Ordered(in_, s, s.version)
  {
  }

  lemma {:induction false} RunOrdered(in_: Setup, s: State, es: seq<Event>)
    requires Start(s) && s.place == Idle(false)
    ensures Ordered(in_, Run(in_, s, es), s.version)
  {
    hide Ordered, Step;
    if es != [] {
      RunOrdered(in_, s, es[..|es| - 1]);
      OrderedStep(in_, Run(in_, s, es[..|es| - 1]), s.version, es[|es| - 1]);
    } else {
      OrderedStart(in_, s);
    }
  }

  lemma StepForward(in_: Setup, s: State, e: Event)
    requires InStep(s)
    ensures var t := Step(in_, s, e); InStep(t) && s.version <= t.version && s.log <= t.log
  {
  }

  /** However runs are cut and restarted: the version never decreases and nothing committed is lost. */
  lemma {:induction false} NeverBack(in_: Setup, s: State, es: seq<Event>, more: seq<Event>)
    requires Start(s)
    ensures InStep(Run(in_, s, es + more))
    ensures Run(in_, s, es).version <= Run(in_, s, es + more).version
    ensures Run(in_, s, es).log <= Run(in_, s, es + more).log
    decreases |es| + |more|
  {
    hide Step;
    if |es| + |more| == 0 {
      assert es + more == [];
    } else if more == [] {
      var init := es[..|es| - 1];
      assert es + more == es && init + [] == init;
      NeverBack(in_, s, init, []);
      StepForward(in_, Run(in_, s, init), es[|es| - 1]);
    } else {
      var init, e := more[..|more| - 1], more[|more| - 1];
      NeverBack(in_, s, es, init);
      assert es + more == es + init + [e];
      RunAppend(in_, s, es + init, e);
      StepForward(in_, Run(in_, s, es + init), e);
    }
  }

  /** A completed run leaves the last version of the contiguous configured range, with every update of
      the range present. */
  lemma CompletedRun(in_: Setup, s: State, es: seq<Event>)
    requires Start(s) && s.place == Idle(false)
    requires Run(in_, s, es).place == Idle(true)
    ensures var t := Run(in_, s, es);
            && (forall j | s.version < j <= t.version :: Reached(in_, s.version, j) && Present(in_, t, j))
            && t.version + 1 !in in_.updates
  {
    RunOrdered(in_, s, es);
  }

  // ----- at most once -----

  /** Nothing is committed twice, nor again when the database had it from the start. */
  ghost predicate AtMostOnce(in_: Setup, s: State) {
    Increasing(s.log) && forall x | x in s.log :: x !in in_.base
  }

  /** In the transaction of an update that is missing. */
  predicate Missing(in_: Setup, s: State) {
    s.place.AtCommit? ==> !Present(in_, s, s.place.i)
  }

  lemma OnceStep(in_: Setup, s: State, v: int, e: Event)
    requires forall i | Reached(in_, v, i) :: Checked(in_, i)
    requires Ordered(in_, s, v) && AtMostOnce(in_, s) && Missing(in_, s)
    ensures AtMostOnce(in_, Step(in_, s, e)) && Missing(in_, Step(in_, s, e))
  {
    hide Reached;
    OrderedStep(in_, s, v, e);
    var t := Step(in_, s, e);
    if e == Proceed && s.place.AtCommit? {
      forall k | 0 <= k < |s.log| ensures s.log[k] < s.place.i {
        assert s.log[k] in s.log;
      }
      assert t.log == s.log + [s.place.i];
    }
  }

  lemma {:induction false} RunOnce(in_: Setup, s: State, es: seq<Event>)
    requires Start(s) && s.place == Idle(false)
    requires forall i | Reached(in_, s.version, i) :: Checked(in_, i)
    ensures AtMostOnce(in_, Run(in_, s, es)) && Missing(in_, Run(in_, s, es))
  {
    if es != [] {
      hide Ordered, Step, AtMostOnce, Missing, Reached;
      var init := es[..|es| - 1];
      RunOnce(in_, s, init);
      RunOrdered(in_, s, init);
      OnceStep(in_, Run(in_, s, init), s.version, es[|es| - 1]);
    } else {
      assert Run(in_, s, es) == s;
    }
  }

  /** The database lacks the update, or nothing tells that it has it. */
  predicate Due(in_: Setup, i: int) {
    !(Checked(in_, i) && i in in_.base)
  }

  lemma StepsAt(in_: Setup, t: State, i: int)
    ensures t.place == AtUpdate(i) && i in in_.updates && in_.updates[i].update ==>
              Step(in_, t, Proceed) == t.(place := if Required(in_, t, i) then AtCommit(i) else AtBump(i))
    ensures t.place == AtCommit(i) ==> Step(in_, t, Proceed) == t.(place := AtBump(i), log := t.log + [i], flag := true)
    ensures t.place == AtBump(i) ==> Step(in_, t, Proceed) == t.(place := AtUpdate(i + 1), version := i)
    ensures Step(in_, t, Crash) == t.(place := if t.place.Idle? then t.place else Idle(false), flag := false)
    ensures t.place.Idle? ==> Step(in_, t, Proceed) == t.(place := AtUpdate(t.version + 1))
  {
  }

  /** One uncut turn of the loop. */
  lemma TurnTo(in_: Setup, s: State, way: seq<Event>, i: int) returns (es: seq<Event>)
    requires Run(in_, s, way).place == AtUpdate(i) && i in in_.updates && in_.updates[i].update
    ensures var t, u := Run(in_, s, way), Run(in_, s, es);
            && u.place == AtUpdate(i + 1) && u.version == i
            && u.log == (if Required(in_, t, i) then t.log + [i] else t.log)
  {
    hide Step, Run, Required;
    var t := Run(in_, s, way);
    es := way + [Proceed];
    RunAppend(in_, s, way, Proceed);
    StepsAt(in_, t, i);
    if Required(in_, t, i) {
      RunAppend(in_, s, es, Proceed);
      StepsAt(in_, Run(in_, s, es), i);
      es := es + [Proceed];
    }
    RunAppend(in_, s, es, Proceed);
    StepsAt(in_, Run(in_, s, es), i);
    es := es + [Proceed];
  }

  /** Events that take a run from the start to update i, applying everything that is due on the way. */
  lemma {:induction false} WayTo(in_: Setup, s: State, i: int) returns (es: seq<Event>)
    requires Start(s) && s.version < i
    requires i > s.version + 1 ==> Reached(in_, s.version, i - 1)
    ensures var t := Run(in_, s, es);
            && t.place == AtUpdate(i) && t.version == i - 1
            && forall j | s.version < j < i && Due(in_, j) :: j in t.log
    decreases i - s.version
  {
    hide Step;
    if i == s.version + 1 {
      es := [Proceed];
      assert Run(in_, s, [Proceed][..0]) == s;
      StepsAt(in_, s, i);
    } else {
      var way := WayTo(in_, s, i - 1);
      var t := Run(in_, s, way);
      es := TurnTo(in_, s, way, i - 1);
      assert Due(in_, i - 1) && !Required(in_, t, i - 1) ==> i - 1 in t.log;
      forall j | s.version < j < i && Due(in_, j) ensures j in Run(in_, s, es).log {
        assert j < i - 1 ==> j in t.log;
      }
    }
  }

  /** The process dies after the commit of update i; the next run is back at it. */
  lemma CommittedAndLost(in_: Setup, s: State, way: seq<Event>, i: int) returns (es: seq<Event>)
    requires Run(in_, s, way).place == AtUpdate(i) && Run(in_, s, way).version == i - 1
    requires i in in_.updates && in_.updates[i].update && Required(in_, Run(in_, s, way), i)
    ensures var t, u := Run(in_, s, way), Run(in_, s, es);
            u.place == AtUpdate(i) && u.version == i - 1 && u.log == t.log + [i] && !u.flag
  {
    hide Step, Run, Required;
    var b := way + [Proceed];
    var c := b + [Proceed];
    var d := c + [Crash];
    es := d + [Proceed];
    RunAppend(in_, s, way, Proceed);
    StepsAt(in_, Run(in_, s, way), i);
    RunAppend(in_, s, b, Proceed);
    StepsAt(in_, Run(in_, s, b), i);
    RunAppend(in_, s, c, Crash);
    StepsAt(in_, Run(in_, s, c), i);
    RunAppend(in_, s, d, Proceed);
    StepsAt(in_, Run(in_, s, d), i);
  }

  /** An update without a check is applied twice when the process dies before its version is recorded. */
  lemma AppliedTwice(in_: Setup, s: State, i: int) returns (es: seq<Event>)
    requires Start(s) && Reached(in_, s.version, i) && !Checked(in_, i)
    ensures !AtMostOnce(in_, Run(in_, s, es))
  {
    hide Step, Run;
    var a := WayTo(in_, s, i);
    var b := CommittedAndLost(in_, s, a, i);
    es := TurnTo(in_, s, b, i);
    var log := Run(in_, s, a).log;
    assert Run(in_, s, es).log == log + [i] + [i];
    assert (log + [i] + [i])[|log|] == (log + [i] + [i])[|log| + 1];
  }

  /** Over all runs, however cut, updates are applied in strictly increasing order and at most once exactly
      when every update that runs can reach has a check. */
  lemma AtMostOnceIff(in_: Setup, s: State)
    requires Start(s) && s.place == Idle(false)
    ensures (forall es :: AtMostOnce(in_, Run(in_, s, es))) <==> (forall i | Reached(in_, s.version, i) :: Checked(in_, i))
  {
    hide AtMostOnce, Checked, Reached;
    if forall i | Reached(in_, s.version, i) :: Checked(in_, i) {
      forall es: seq<Event> ensures AtMostOnce(in_, Run(in_, s, es)) {
        RunOnce(in_, s, es);
      }
    } else {
      var i :| Reached(in_, s.version, i) && !Checked(in_, i);
      var es := AppliedTwice(in_, s, i);
    }
  }

  // ----- the flag -----

  /** While the process lives, `db.updated` is set exactly when it has committed an update. */
  lemma {:induction false} FlagIff(in_: Setup, s: State, es: seq<Event>)
    requires Crash !in es && !s.flag
    ensures Run(in_, s, es).flag <==> Run(in_, s, es).log != s.log
    ensures |Run(in_, s, es).log| >= |s.log|
  {
    if es != [] {
      assert es == es[..|es| - 1] + [es[|es| - 1]];
      FlagIff(in_, s, es[..|es| - 1]);
    }
  }

  lemma {:induction false} RunConcat(in_: Setup, s: State, a: seq<Event>, b: seq<Event>)
    ensures Run(in_, s, a + b) == Run(in_, Run(in_, s, a), b)
    decreases |b|
  {
    if b == [] {
      assert a + b == a;
    } else {
      var init, e := b[..|b| - 1], b[|b| - 1];
      RunConcat(in_, s, a, init);
      assert a + b == a + init + [e];
      RunAppend(in_, s, a + init, e);
    }
  }

  /** In any run, after its last crash, the flag is set exactly when an update has been committed since. */
  lemma FlagAfterCrashIff(in_: Setup, s: State, a: seq<Event>, b: seq<Event>)
    requires Crash !in b
    ensures Run(in_, s, a + [Crash] + b).flag <==>
              Run(in_, s, a + [Crash] + b).log != Run(in_, s, a + [Crash]).log
  {
    RunAppend(in_, s, a, Crash);
    RunConcat(in_, s, a + [Crash], b);
    FlagIff(in_, Run(in_, s, a + [Crash]), b);
  }

  /** The run completes with its last event. */
  ghost predicate Completes(in_: Setup, s: State, es: seq<Event>) {
    es != [] && es[|es| - 1] == Proceed && Run(in_, s, es).place == Idle(true)
  }

  /** Where the contiguous range of usable updates ends. */
  lemma {:induction false} RangeEnd(in_: Setup, v: int, i: int) returns (t: int)
    requires v < i && forall j | v < j < i :: Usable(in_.updates, j)
    ensures v <= t && !Usable(in_.updates, t + 1) && forall j | v < j <= t :: Usable(in_.updates, j)
    decreases AtOrAbove(in_.updates, i)
  {
    if Usable(in_.updates, i) {
      FewerAbove(in_.updates, i);
      t := RangeEnd(in_, v, i + 1);
    } else {
      t := i - 1;
    }
  }

  /** A migration that applies an update, loses its process at the very end, and completes in the next run. */
  lemma FlagLost(in_: Setup, s: State, i: int) returns (es: seq<Event>)
    requires Start(s) && Reached(in_, s.version, i) && Due(in_, i) && !Blocked(in_.updates, s.version)
    ensures Completes(in_, s, es) && Run(in_, s, es).log != [] && !Run(in_, s, es).flag
  {
    hide Step, Run, Blocked;
    var v := s.version;
    var t := RangeEnd(in_, v, v + 1);
    assert i <= t by {
      assert v < t + 1 <= i ==> Usable(in_.updates, t + 1);
    }
    if t + 1 in in_.updates {
      IsBlocked(in_.updates, v, t + 1);
    }
    if t > v {
      UsableReached(in_, v, t);
    }
    var a := WayTo(in_, s, t + 1);
    assert i in Run(in_, s, a).log;
    es := a + [Crash] + [Proceed] + [Proceed];
    RunAppend(in_, s, a, Crash);
    RunAppend(in_, s, a + [Crash], Proceed);
    RunAppend(in_, s, a + [Crash] + [Proceed], Proceed);
    LastSteps(in_, Run(in_, s, a), t + 1);
  }

  lemma UsableReached(in_: Setup, v: int, t: int)
    requires v < t && forall j | v < j <= t :: Usable(in_.updates, j)
    ensures Reached(in_, v, t)
  {
    forall j | v < j <= t ensures j in in_.updates && in_.updates[j].update {
      assert Usable(in_.updates, j);
    }
  }

  lemma LastSteps(in_: Setup, t: State, i: int)
    requires t.place == AtUpdate(i) && t.version == i - 1 && i !in in_.updates
    ensures var u := Step(in_, Step(in_, Step(in_, t, Crash), Proceed), Proceed);
            u.place == Idle(true) && u.log == t.log && !u.flag
  {
  }

  lemma NotCompleted(in_: Setup, s: State, es: seq<Event>)
    requires Start(s) && s.place == Idle(false) && Blocked(in_.updates, s.version)
    ensures Run(in_, s, es).place != Idle(true)
  {
    hide Run, Ordered, Blocked;
    if Run(in_, s, es).place == Idle(true) {
      CompletedRun(in_, s, es);
      var v, t := s.version, Run(in_, s, es).version;
      RunOrdered(in_, s, es);
      OrderedUp(in_, Run(in_, s, es), v);
      forall j | v < j < t + 1 ensures Usable(in_.updates, j) {
        assert Reached(in_, v, j);
      }
      NotBlocked(in_.updates, v, t + 1);
    }
  }

  lemma OrderedUp(in_: Setup, s: State, v: int)
    requires Ordered(in_, s, v)
    ensures v <= s.version && forall x | x in s.log :: Reached(in_, v, x)
  {
  }

  lemma NothingAdded(in_: Setup, q: State, v: int, e: Event)
    requires q.log == [] && Ordered(in_, q, v) && Missing(in_, q)
    requires forall i | Reached(in_, v, i) :: !Due(in_, i)
    ensures Step(in_, q, e).log == []
  {
    hide Reached;
  }

  lemma {:induction false} NothingDue(in_: Setup, s: State, es: seq<Event>)
    requires Start(s) && s.place == Idle(false)
    requires forall i | Reached(in_, s.version, i) :: !Due(in_, i)
    ensures Run(in_, s, es).log == []
  {
    hide Reached, Ordered, Missing, AtMostOnce, Step;
    if es != [] {
      var init := es[..|es| - 1];
      NothingDue(in_, s, init);
      RunOnce(in_, s, init);
      RunOrdered(in_, s, init);
      NothingAdded(in_, Run(in_, s, init), s.version, es[|es| - 1]);
    }
  }

  /** Over all runs, however cut: every completed migration that applied something leaves the flag set exactly
      when none can complete or nothing that can be reached is due. Otherwise a crash loses the reload that the
      flag asks for. */
  lemma FlagKeptIff(in_: Setup, s: State)
    requires Start(s) && s.place == Idle(false)
    ensures (forall es | Completes(in_, s, es) && Run(in_, s, es).log != [] :: Run(in_, s, es).flag) <==>
              Blocked(in_.updates, s.version) || (forall i | Reached(in_, s.version, i) :: !Due(in_, i))
  {
    hide Run, Reached, Blocked, Due;
    if Blocked(in_.updates, s.version) {
      forall es: seq<Event> ensures !Completes(in_, s, es) {
        NotCompleted(in_, s, es);
      }
    } else if i :| Reached(in_, s.version, i) && Due(in_, i) {
      var es := FlagLost(in_, s, i);
    } else {
      forall es: seq<Event> ensures Run(in_, s, es).log == [] {
        NothingDue(in_, s, es);
      }
    }
  }

  // ----- the code -----

  /** The events so far, none of them a crash, lead from `s` to `t`. */
  ghost predicate Reaches(in_: Setup, s: State, es: seq<Event>, t: State) {
    Run(in_, s, es) == t && Crash !in es
  }

  lemma Move(in_: Setup, s: State, es: seq<Event>, t: State, e: Event)
    requires Reaches(in_, s, es, t) && e != Crash
    ensures Reaches(in_, s, es + [e], Step(in_, t, e))
  {
    RunAppend(in_, s, es, e);
  }

  lemma Starts(in_: Setup, s: State)
    requires s.place.Idle?
    ensures Reaches(in_, s, [Proceed], s.(place := AtUpdate(s.version + 1)))
  {
    Move(in_, s, [], s, Proceed);
    assert [] + [Proceed] == [Proceed];
  }

  lemma Ends(in_: Setup, s: State, es: seq<Event>, t: State)
    requires Reaches(in_, s, es, t) && t.place.AtUpdate? && !Usable(in_.updates, t.place.i)
    ensures Reaches(in_, s, es + [Proceed], t.(place := Idle(t.place.i !in in_.updates)))
  {
    hide Reaches;
    Move(in_, s, es, t, Proceed);
  }

  lemma Looks(in_: Setup, s: State, es: seq<Event>, t: State)
    requires Reaches(in_, s, es, t) && t.place.AtUpdate? && Usable(in_.updates, t.place.i)
    ensures Reaches(in_, s, es + [Proceed],
                    t.(place := if Required(in_, t, t.place.i) then AtCommit(t.place.i) else AtBump(t.place.i)))
  {
    hide Reaches;
    Move(in_, s, es, t, Proceed);
  }

  lemma Commits(in_: Setup, s: State, es: seq<Event>, t: State)
    requires Reaches(in_, s, es, t) && t.place.AtCommit?
    ensures Reaches(in_, s, es + [Proceed], t.(place := AtBump(t.place.i), log := t.log + [t.place.i], flag := true))
  {
    hide Reaches;
    Move(in_, s, es, t, Proceed);
  }

  lemma Bumps(in_: Setup, s: State, es: seq<Event>, t: State)
    requires Reaches(in_, s, es, t) && t.place.AtBump?
    ensures Reaches(in_, s, es + [Proceed], t.(place := AtUpdate(t.place.i + 1), version := t.place.i))
  {
    hide Reaches;
    Move(in_, s, es, t, Proceed);
  }

  lemma Fails(in_: Setup, s: State, es: seq<Event>, t: State)
    requires Reaches(in_, s, es, t) && !t.place.Idle?
    ensures Reaches(in_, s, es + [Fail], t.(place := Idle(false)))
  {
    hide Reaches;
    Move(in_, s, es, t, Fail);
  }

  /** The contiguous range of updates ends at one without an update query. */
  ghost predicate Blocked(updates: map<int, Update>, v: int) {
    exists i :: Stuck(updates, v, i)
  }

  predicate Usable(updates: map<int, Update>, i: int) {
    i in updates && updates[i].update
  }

  ghost predicate Stuck(updates: map<int, Update>, v: int, i: int) {
    v < i && i in updates && !updates[i].update && forall j | v < j < i :: Usable(updates, j)
  }

  function AtOrAbove(updates: map<int, Update>, i: int): set<int> {
    set j | j in updates && i <= j
  }

  lemma FewerAbove(updates: map<int, Update>, i: int)
    requires i in updates
    ensures AtOrAbove(updates, i + 1) < AtOrAbove(updates, i)
  {
    assert i in AtOrAbove(updates, i) && i !in AtOrAbove(updates, i + 1);
  }

  /** The database connection and the process's flag. `answers` says which of the statements sent to the
      database succeed. */
  class Database {
    const base: set<int>
    const answers: nat -> bool
    var calls: nat
    var version: int
    var log: seq<int>
    var flag: bool

    constructor (base: set<int>, answers: nat -> bool, version: int)
      ensures this.base == base && this.answers == answers && this.version == version
      ensures log == [] && !flag && calls == 0
    {
      this.base, this.answers, this.version := base, answers, version;
      log, flag, calls := [], false, 0;
    }

    method Try() returns (ok: bool)
      modifies this`calls
      ensures ok == answers(old(calls)) && calls == old(calls) + 1
    {
      ok := answers(calls);
      calls := calls + 1;
    }

    /** All statements sent since `calls` was `from` have succeeded. */
    predicate Answered(from: nat)
      reads this
    {
      forall n | from <= n < calls :: answers(n)
    }

    function Now(place: Place): State
      reads this
    {
      State(version, log, place, flag)
    }

    /** Begin, execute, commit, as far as the statements succeed. */
    method Transact() returns (ok: bool)
      modifies this`calls
      ensures calls > old(calls) && (ok <==> Answered(old(calls)))
    {
      ok := Try();
      if ok {
        ok := Try();
      }
      if ok {
        ok := Try();
      }
    }

    /** One update: its check, its transaction when it is required, the version. */
    method Apply(i: int, check: bool, ghost in_: Setup, ghost s: State, ghost es: seq<Event>)
      returns (done: bool, ghost es': seq<Event>)
      requires in_.base == base && i in in_.updates && in_.updates[i] == Update(check, true)
      requires Reaches(in_, s, es, Now(AtUpdate(i)))
      modifies this`calls, this`version, this`log, this`flag
      ensures Reaches(in_, s, es', Now(if done then AtUpdate(i + 1) else Idle(false)))
      ensures calls > old(calls) && version == if done then i else old(version)
      ensures done <==> Answered(old(calls))
    {
      hide Reaches, Step, Run;
      done, es' := false, es;
      var required := true;
      if check {
        var checked := Try();
        if !checked {
          Fails(in_, s, es', Now(AtUpdate(i)));
          es' := es' + [Fail];
          return;
        }
        required := !(i in base || i in log);
      }
      Looks(in_, s, es', Now(AtUpdate(i)));
      es' := es' + [Proceed];
      if required {
        var ok := Transact();
        if !ok {
          Fails(in_, s, es', Now(AtCommit(i)));
          es' := es' + [Fail];
          return;
        }
        Commits(in_, s, es', Now(AtCommit(i)));
        es' := es' + [Proceed];
        log := log + [i];
        flag := true;
      }
      var bumped := Try();
      if !bumped {
        Fails(in_, s, es', Now(AtBump(i)));
        es' := es' + [Fail];
        return;
      }
      Bumps(in_, s, es', Now(AtBump(i)));
      es' := es' + [Proceed];
      version := i;
      done := true;
    }

    /** A run of the code is a run of the steps above. It fails exactly when some statement that it sends fails or the
        contiguous range has an update without a query. */
    method UpdateSchema(updates: map<int, Update>) returns (err: bool, ghost es: seq<Event>)
      modifies this`calls, this`version, this`log, this`flag
      ensures Reaches(Setup(updates, base), old(Now(Idle(false))), es, Now(Idle(!err)))
      ensures calls > old(calls)
      ensures err <==> !Answered(old(calls)) || Blocked(updates, old(version))
    {
      ghost var in_, s := Setup(updates, base), Now(Idle(false));
      es := [];
      err := true;
      assert Reaches(in_, s, [], s);
      hide Reaches, Blocked;
      var read := Try();
      if !read {
        return;
      }
      Starts(in_, s);
      es := [Proceed];
      var i := version + 1;
      while true
        invariant i == version + 1 && err && calls > old(calls) && old(version) <= version && Answered(old(calls))
        invariant Reaches(in_, s, es, Now(AtUpdate(i)))
        invariant forall j | old(version) < j < i :: Usable(updates, j)
        decreases AtOrAbove(updates, i)
      {
        if i !in updates {
          Ends(in_, s, es, Now(AtUpdate(i)));
          NotBlocked(updates, old(version), i);
          return false, es + [Proceed];
        }
        if !updates[i].update {
          Ends(in_, s, es, Now(AtUpdate(i)));
          IsBlocked(updates, old(version), i);
          return true, es + [Proceed];
        }
        var done;
        done, es := Apply(i, updates[i].check, in_, s, es);
        if !done {
          return;
        }
        FewerAbove(updates, i);
        i := i + 1;
      }
    }
  }

  lemma NotBlocked(updates: map<int, Update>, v: int, i: int)
    requires v < i && i !in updates && forall j | v < j < i :: Usable(updates, j)
    ensures !Blocked(updates, v)
  {
    forall k ensures !Stuck(updates, v, k) {
      assert k > i ==> !Usable(updates, i);
      assert v < k < i ==> Usable(updates, k);
    }
  }

  lemma IsBlocked(updates: map<int, Update>, v: int, i: int)
    requires v < i && i in updates && !updates[i].update && forall j | v < j < i :: Usable(updates, j)
    ensures Blocked(updates, v)
  {
    assert Stuck(updates, v, i);
  }
}
