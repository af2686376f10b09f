/** Saving a configuration file: `Write` of pkg/config/save.go.

    Any number of processes, each with any number of writers, save to one target on one host. A writer
    takes the next value of its process's counter, writes a temporary file of its own and renames it
    over the target. Every file operation may fail and every process may die between any two. */
module Save {
  import opened Optional

  // ----- temporary names -----

  function Digit(d: nat): char
    requires d < 10
  {
    ('0' as int + d) as char
  }

  function Decimal(n: nat): (s: string)
    ensures |s| > 0 && '.' !in s
  {
    if n < 10 then [Digit(n)] else Decimal(n / 10) + [Digit(n % 10)]
  }

  lemma {:induction false} DecimalInjective(m: nat, n: nat)
    requires Decimal(m) == Decimal(n)
    ensures m == n
  {
    var a, b := Decimal(m), Decimal(n);
    assert a[|a| - 1] == b[|b| - 1];
    if m >= 10 && n >= 10 {
      assert a[..|a| - 1] == Decimal(m / 10) && b[..|b| - 1] == Decimal(n / 10);
      DecimalInjective(m / 10, n / 10);
    }
  }

  lemma FirstDot(a: string, b: string)
    requires '.' !in a
    ensures var s := a + "." + b; s[|a|] == '.' && forall k | 0 <= k < |a| :: s[k] != '.'
  {
    var s := a + "." + b;
    forall k | 0 <= k < |a| ensures s[k] != '.' {
      assert s[k] == a[k];
    }
  }

  /** Texts whose first part has no dot split at the first dot in one way only. */
  lemma DotSplits(a: string, b: string, c: string, d: string)
    requires '.' !in a && '.' !in c
    requires a + "." + b == c + "." + d
    ensures a == c && b == d
  {
    var s, t := a + "." + b, c + "." + d;
    FirstDot(a, b);
    FirstDot(c, d);
    assert |a| == |c|;
    assert a == s[..|a|] && c == t[..|c|];
    assert b == s[|a| + 1..] && d == t[|c| + 1..];
  }

  datatype Id = Id(pid: nat, n: nat)

  /** A target with its extension (empty, or a dot and what follows it). */
  datatype Target = Target(path: string, ext: string)

  function TempName(t: Target, id: Id): string {
    t.path + "." + (Decimal(id.pid) + "." + Decimal(id.n)) + t.ext
  }

  lemma TempNamesDiffer(t: Target, a: Id, b: Id)
    ensures TempName(t, a) != t.path
    ensures TempName(t, a) == TempName(t, b) ==> a == b
  {
    var x, y := Decimal(a.pid) + "." + Decimal(a.n), Decimal(b.pid) + "." + Decimal(b.n);
    var k := |t.path| + 1;
    assert TempName(t, a)[k..k + |x|] == x;
    assert TempName(t, b)[k..k + |y|] == y;
    if TempName(t, a) == TempName(t, b) {
      assert |x| == |y|;
      DotSplits(Decimal(a.pid), Decimal(a.n), Decimal(b.pid), Decimal(b.n));
      DecimalInjective(a.pid, b.pid);
      DecimalInjective(a.n, b.n);
    }
  }

  /** The number that decimal digits spell. */
  function Spelled(s: string): int {
    if s == "" then 0 else 10 * Spelled(s[..|s| - 1]) + (s[|s| - 1] as int - '0' as int)
  }

  predicate Digits(s: string) {
    s != "" && (forall i | 0 <= i < |s| :: '0' <= s[i] <= '9') && (|s| > 1 ==> s[0] != '0')
  }

  lemma {:induction false} DecimalSpells(n: nat)
    ensures Digits(Decimal(n)) && Spelled(Decimal(n)) == n
    ensures n > 0 ==> Decimal(n)[0] != '0'
  {
    var s := Decimal(n);
    if n < 10 {
      assert s[..|s| - 1] == "";
    } else {
      DecimalSpells(n / 10);
      assert s[..|s| - 1] == Decimal(n / 10);
    }
  }

  /** A temporary name is the path, the process id, the count and the extension, the numbers in decimal digits without
      leading zeros. */
  lemma TempNameSpells(t: Target, id: Id) returns (p: string, n: string)
    ensures TempName(t, id) == t.path + ("." + p + "." + n) + t.ext
    ensures Digits(p) && Spelled(p) == id.pid && Digits(n) && Spelled(n) == id.n
  {
    hide Digits, Spelled;
    p, n := Decimal(id.pid), Decimal(id.n);
    DecimalSpells(id.pid);
    DecimalSpells(id.n);
    assert t.path + "." + (p + "." + n) == t.path + ("." + p + "." + n);
  }

  // ----- the transition system -----

  /** How far a writer is: named its file, written some of it, written all of it, or failed to rename it. */
  datatype Place = Named | Writing(k: nat) | Written | Stuck

  datatype Writer = Writer(content: string, place: Place)

  /** What became of a writer that returned: whether its caller was told of an error, and whether its file was
      renamed over the target. */
  datatype Finish = Finish(content: string, error: bool, renamed: bool)

  /** `counters` holds the live processes, `finished` the writers that have returned, in order. */
  datatype State = State(files: map<string, string>, counters: map<nat, nat>, writers: map<Id, Writer>,
                         finished: seq<Finish>)

  datatype Event =
    | Spawn(pid: nat)
    | Die(pid: nat)
    | Begin(pid: nat, content: string)
    | Open(id: Id)
    | Put(id: Id, upTo: nat)
    | Close(id: Id)
    | Rename(id: Id, ok: bool)
    | Remove(id: Id, ok: bool)
    | GiveUp(id: Id)

  function At(s: State, id: Id, place: Place): State
    requires id in s.writers
  {
    s.(writers := s.writers[id := s.writers[id].(place := place)])
  }

  function Gone(s: State, id: Id): State {
    s.(writers := s.writers - {id})
  }

  function Returned(s: State, id: Id, error: bool, renamed: bool): State
    requires id in s.writers
  {
    Gone(s, id).(finished := s.finished + [Finish(s.writers[id].content, error, renamed)])
  }

  function StepBegin(s: State, pid: nat, content: string): State {
    if pid !in s.counters then s
    else
      var n := s.counters[pid] + 1;
      s.(counters := s.counters[pid := n], writers := s.writers[Id(pid, n) := Writer(content, Named)])
  }

  function StepDie(s: State, pid: nat): State {
    s.(counters := s.counters - {pid}, writers := map id | id in s.writers && id.pid != pid :: s.writers[id])
  }

  /** A write appends to whatever the file then holds. */
  function StepPut(t: Target, s: State, id: Id, upTo: nat): State
    requires id in s.writers
  {
    var w, name := s.writers[id], TempName(t, id);
    if !w.place.Writing? || name !in s.files || !(w.place.k <= upTo <= |w.content|) then s
    else At(s, id, Writing(upTo)).(files := s.files[name := s.files[name] + w.content[w.place.k..upTo]])
  }

  function StepRename(t: Target, s: State, id: Id, ok: bool): State
    requires id in s.writers
  {
    var w, name := s.writers[id], TempName(t, id);
    if w.place != Written || name !in s.files then s
    else if !ok then At(s, id, Stuck)
    else Returned(s, id, false, true).(files := (s.files - {name})[t.path := s.files[name]])
  }

  function StepRemove(t: Target, s: State, id: Id, ok: bool): State
    requires id in s.writers
  {
    if s.writers[id].place != Stuck then s
    else if !ok then Returned(s, id, true, false)
    // the error of the removal replaces that of the rename
    else Returned(s, id, false, false).(files := s.files - {TempName(t, id)})
  }

  /** One event; one that is not possible in the state leaves it as it is. */
  function Step(t: Target, s: State, e: Event): State {
    match e
    case Spawn(pid) => if pid in s.counters then s else s.(counters := s.counters[pid := 0])
    case Die(pid) => StepDie(s, pid)
    case Begin(pid, content) => StepBegin(s, pid, content)
    case Open(id) =>
      if id !in s.writers || s.writers[id].place != Named then s
      else At(s, id, Writing(0)).(files := s.files[TempName(t, id) := ""])
    case Put(id, upTo) => if id !in s.writers then s else StepPut(t, s, id, upTo)
    case Close(id) =>
      if id !in s.writers || s.writers[id].place != Writing(|s.writers[id].content|) then s else At(s, id, Written)
    case Rename(id, ok) => if id !in s.writers then s else StepRename(t, s, id, ok)
    case Remove(id, ok) => if id !in s.writers then s else StepRemove(t, s, id, ok)
    case GiveUp(id) =>
      if id !in s.writers || !(s.writers[id].place.Named? || s.writers[id].place.Writing?) then s
      else Returned(s, id, true, false)
  }

  function Run(t: Target, s: State, es: seq<Event>): State {
    if es == [] then s else Step(t, Run(t, s, es[..|es| - 1]), es[|es| - 1])
  }

  // ----- the invariant -----

  function Read(files: map<string, string>, name: string): Option<string> {
    if name in files then Some(files[name]) else None
  }

  predicate WriterOk(t: Target, s: State, id: Id)
    requires id in s.writers
  {
    var w, file := s.writers[id], Read(s.files, TempName(t, id));
    && id.pid in s.counters && 1 <= id.n <= s.counters[id.pid]
    && match w.place
       case Named => true
       case Writing(k) => k <= |w.content| && file == Some(w.content[..k])
       case Written => file == Some(w.content)
       case Stuck => file == Some(w.content)
  }

  /** The content that was renamed over the target last, if any was. */
  function LastSaved(fs: seq<Finish>): Option<string> {
    if fs == [] then None
    else if fs[|fs| - 1].renamed then Some(fs[|fs| - 1].content)
    else LastSaved(fs[..|fs| - 1])
  }

  lemma SavedAppend(fs: seq<Finish>, f: Finish)
    ensures LastSaved(fs + [f]) == if f.renamed then Some(f.content) else LastSaved(fs)
  {
    assert (fs + [f])[..|fs|] == fs;
  }

  /** The target is as it was, or the last content renamed over it, whole. */
  predicate TargetOk(t: Target, s: State, before: Option<string>) {
    var saved := LastSaved(s.finished);
    Read(s.files, t.path) == if saved == None then before else saved
  }

  ghost predicate Inv(t: Target, s: State, before: Option<string>) {
    && TargetOk(t, s, before)
    && (forall id | id in s.writers :: WriterOk(t, s, id))
  }

  /** Files may change only for one writer and at the target: the others keep what they rely on. */
  lemma OthersKeep(t: Target, s: State, s': State, id: Id)
    requires forall other | other in s.writers :: WriterOk(t, s, other)
    requires s'.counters == s.counters
    requires forall other | other in s'.writers && other != id :: other in s.writers && s'.writers[other] == s.writers[other]
    requires forall name | name != t.path && name != TempName(t, id) :: Read(s'.files, name) == Read(s.files, name)
    ensures forall other | other in s'.writers && other != id :: WriterOk(t, s', other)
  {
    hide TempName;
    forall other | other in s'.writers && other != id
      ensures WriterOk(t, s', other)
    {
      TempNamesDiffer(t, other, id);
    }
  }

  lemma InvOpen(t: Target, s: State, before: Option<string>, id: Id)
    requires Inv(t, s, before)
    ensures Inv(t, Step(t, s, Open(id)), before)
  {
    hide TempName, LastSaved;
    TempNamesDiffer(t, id, id);
    OthersKeep(t, s, Step(t, s, Open(id)), id);
  }

  lemma InvPut(t: Target, s: State, before: Option<string>, id: Id, upTo: nat)
    requires Inv(t, s, before)
    ensures Inv(t, Step(t, s, Put(id, upTo)), before)
  {
    hide TempName, LastSaved;
    TempNamesDiffer(t, id, id);
    var s' := Step(t, s, Put(id, upTo));
    if s' != s {
      var w := s.writers[id];
      assert WriterOk(t, s, id);
      assert w.content[..w.place.k] + w.content[w.place.k..upTo] == w.content[..upTo];
      OthersKeep(t, s, s', id);
    }
  }

  lemma InvClose(t: Target, s: State, before: Option<string>, id: Id)
    requires Inv(t, s, before)
    ensures Inv(t, Step(t, s, Close(id)), before)
  {
    hide TempName, LastSaved;
    var s' := Step(t, s, Close(id));
    if s' != s {
      var w := s.writers[id];
      assert WriterOk(t, s, id);
      assert w.content[..|w.content|] == w.content;
      OthersKeep(t, s, s', id);
    }
  }

  lemma InvRename(t: Target, s: State, before: Option<string>, id: Id, ok: bool)
    requires Inv(t, s, before)
    ensures Inv(t, Step(t, s, Rename(id, ok)), before)
  {
    hide TempName, LastSaved;
    TempNamesDiffer(t, id, id);
    var s' := Step(t, s, Rename(id, ok));
    if s' != s {
      assert WriterOk(t, s, id);
      SavedAppend(s.finished, Finish(s.writers[id].content, false, true));
      OthersKeep(t, s, s', id);
    }
  }

  lemma InvRemove(t: Target, s: State, before: Option<string>, id: Id, ok: bool)
    requires Inv(t, s, before)
    ensures Inv(t, Step(t, s, Remove(id, ok)), before)
  {
    hide TempName, LastSaved;
    TempNamesDiffer(t, id, id);
    var s' := Step(t, s, Remove(id, ok));
    if s' != s {
      SavedAppend(s.finished, Finish(s.writers[id].content, !ok, false));
      OthersKeep(t, s, s', id);
    }
  }

  lemma InvGiveUp(t: Target, s: State, before: Option<string>, id: Id)
    requires Inv(t, s, before)
    ensures Inv(t, Step(t, s, GiveUp(id)), before)
  {
    hide TempName, LastSaved;
    if Step(t, s, GiveUp(id)) != s {
      SavedAppend(s.finished, Finish(s.writers[id].content, true, false));
    }
  }

  lemma InvStep(t: Target, s: State, before: Option<string>, e: Event)
    requires Inv(t, s, before)
    ensures Inv(t, Step(t, s, e), before)
  {
    match e
    case Open(id) => InvOpen(t, s, before, id);
    case Put(id, upTo) => InvPut(t, s, before, id, upTo);
    case Close(id) => InvClose(t, s, before, id);
    case Rename(id, ok) => InvRename(t, s, before, id, ok);
    case Remove(id, ok) => InvRemove(t, s, before, id, ok);
    case Spawn(_) =>
    case Die(_) =>
    case Begin(_, _) =>
    case GiveUp(id) => InvGiveUp(t, s, before, id);
  }

  /** No processes yet, any files: also temporary files left behind by earlier processes. */
  predicate Start(s: State) {
    s.counters == map[] && s.writers == map[] && s.finished == []
  }

  lemma {:induction false} RunInv(t: Target, s: State, es: seq<Event>)
    requires Start(s)
    ensures Inv(t, Run(t, s, es), Read(s.files, t.path))
  {
    if es != [] {
      hide Step, Inv;
      RunInv(t, s, es[..|es| - 1]);
      InvStep(t, Run(t, s, es[..|es| - 1]), Read(s.files, t.path), es[|es| - 1]);
    }
  }

  /** Some writer was asked to save `content`. */
  ghost predicate Asked(es: seq<Event>, content: string) {
    exists pid :: Begin(pid, content) in es
  }

  /** Some writer has saved `content`, or is about to. */
  ghost predicate Carries(s: State, content: string) {
    || (exists f | f in s.finished :: f.content == content)
    || (exists id | id in s.writers :: s.writers[id].content == content)
  }

  lemma ContentStep(t: Target, s: State, e: Event, content: string)
    requires Carries(Step(t, s, e), content)
    ensures Carries(s, content) || (e.Begin? && e.content == content)
  {
    hide TempName;
  }

  lemma {:induction false} OnlyAsked(t: Target, s: State, es: seq<Event>, content: string)
    requires Start(s)
    ensures var r := Run(t, s, es);
            Carries(r, content) ==> Asked(es, content)
  {
    if es != [] {
      var init, e := es[..|es| - 1], es[|es| - 1];
      OnlyAsked(t, s, init, content);
      assert es == init + [e];
      var q, r := Run(t, s, init), Run(t, s, es);
      if Carries(r, content) {
        ContentStep(t, q, e, content);
      }
      if pid :| Begin(pid, content) in init {
        assert Begin(pid, content) in es;
      }
      if e.Begin? && e.content == content {
        assert Begin(e.pid, content) in es;
      }
    }
  }

  lemma {:induction false} SavedFinished(fs: seq<Finish>)
    requires LastSaved(fs).Some?
    ensures exists f | f in fs :: f.content == LastSaved(fs).value
  {
    if !fs[|fs| - 1].renamed {
      SavedFinished(fs[..|fs| - 1]);
    }
  }

  /** At every moment of every interleaving the target is as it was before, or holds the complete contents
      of a writer; the temporary names of live writers differ from one another and from the target. */
  lemma TargetIsWhole(t: Target, s: State, es: seq<Event>)
    requires Start(s)
    ensures var r := Run(t, s, es);
            && (|| Read(r.files, t.path) == Read(s.files, t.path)
                || (t.path in r.files && Asked(es, r.files[t.path])))
            && (forall a, b | a in r.writers && b in r.writers && TempName(t, a) == TempName(t, b) :: a == b)
            && (forall a | a in r.writers :: TempName(t, a) != t.path)
  {
    hide Step, Run, TempName, Asked;
    var r := Run(t, s, es);
    RunInv(t, s, es);
    if LastSaved(r.finished).Some? {
      SavedFinished(r.finished);
      OnlyAsked(t, s, es, LastSaved(r.finished).value);
    }
    forall a, b | a in r.writers && b in r.writers
      ensures TempName(t, a) != t.path && (TempName(t, a) == TempName(t, b) ==> a == b)
    {
      TempNamesDiffer(t, a, b);
    }
  }

  /** A process comes with its counter at zero; when it dies its writers stop where they are, their files stay as they
      are, and no other writer notices. */
  lemma ComesAndGoes(t: Target, s: State, pid: nat)
    ensures var r := Step(t, s, Spawn(pid));
            pid in r.counters && (pid !in s.counters ==> r.counters[pid] == 0)
            && r.files == s.files && r.writers == s.writers && r.finished == s.finished
    ensures var r := Step(t, s, Die(pid));
            && r.files == s.files && r.finished == s.finished && pid !in r.counters
            && (forall id :: id in r.writers <==> id in s.writers && id.pid != pid)
            && (forall id | id in r.writers :: r.writers[id] == s.writers[id])
            && (forall other | other != pid :: other in r.counters <==> other in s.counters)
  {
  }

  /** No other file is ever touched than the target and temporary ones. */
  lemma {:induction false} OthersUntouched(t: Target, s: State, es: seq<Event>, name: string)
    requires name != t.path && forall id :: TempName(t, id) != name
    ensures Read(Run(t, s, es).files, name) == Read(s.files, name)
  {
    if es != [] {
      hide Step, TempName;
      OthersUntouched(t, s, es[..|es| - 1], name);
      StepUntouched(t, Run(t, s, es[..|es| - 1]), es[|es| - 1], name);
    }
  }

  lemma StepUntouched(t: Target, s: State, e: Event, name: string)
    requires name != t.path && forall id :: TempName(t, id) != name
    ensures Read(Step(t, s, e).files, name) == Read(s.files, name)
  {
    hide TempName;
  }

  // ----- what the caller is told -----

  /** Every writer whose file was renamed had its complete content in the target at some moment. */
  lemma {:induction false} SavedWasThere(t: Target, s: State, es: seq<Event>, f: Finish)
    requires Start(s) && f in Run(t, s, es).finished && f.renamed
    ensures exists n | 0 <= n <= |es| :: Read(Run(t, s, es[..n]).files, t.path) == Some(f.content)
  {
    hide Step, Inv;
    var init, e := es[..|es| - 1], es[|es| - 1];
    var q, r := Run(t, s, init), Run(t, s, es);
    if f in q.finished {
      SavedWasThere(t, s, init, f);
      var n :| 0 <= n <= |init| && Read(Run(t, s, init[..n]).files, t.path) == Some(f.content);
      assert init[..n] == es[..n];
    } else {
      RunInv(t, s, es);
      OneMore(t, q, e);
      assert r.finished == q.finished + [f];
      SavedAppend(q.finished, f);
      NowThere(t, r, Read(s.files, t.path), f);
      assert es[..|es|] == es;
    }
  }

  lemma OneMore(t: Target, q: State, e: Event)
    ensures var r := Step(t, q, e);
            r.finished == q.finished || (|r.finished| == |q.finished| + 1 && r.finished[..|q.finished|] == q.finished)
  {
  }

  lemma NowThere(t: Target, r: State, before: Option<string>, f: Finish)
    requires Inv(t, r, before) && LastSaved(r.finished) == Some(f.content)
    ensures Read(r.files, t.path) == Some(f.content)
  {
  }

  /** The event at `a` is a rename that is tried and fails. */
  predicate FailsToRename(t: Target, s: State, es: seq<Event>, a: nat, id: Id) {
    && a < |es| && es[a] == Rename(id, false)
    && var q := Run(t, s, es[..a]);
       id in q.writers && q.writers[id].place == Written && TempName(t, id) in q.files
  }

  /** The event at `b` removes the temporary file of a writer that could not rename it. */
  predicate Removes(t: Target, s: State, es: seq<Event>, b: nat, id: Id) {
    && b < |es| && es[b] == Remove(id, true)
    && var q := Run(t, s, es[..b]);
       id in q.writers && q.writers[id].place == Stuck
  }

  lemma LastEvent(es: seq<Event>, a: nat)
    requires 0 < |es| && a < |es| - 1
    ensures es[..|es| - 1][..a] == es[..a] && es[..|es| - 1][a] == es[a]
  {
  }

  /** A writer that could not rename its file once tried to. */
  lemma {:induction false} StuckHow(t: Target, s: State, es: seq<Event>, id: Id) returns (a: nat)
    requires Start(s) && id in Run(t, s, es).writers && Run(t, s, es).writers[id].place == Stuck
    ensures FailsToRename(t, s, es, a, id)
  {
    hide Step, TempName;
    var n := |es| - 1;
    var init := es[..n];
    StuckStep(t, Run(t, s, init), es[n], id);
    if es[n] == Rename(id, false) && Run(t, s, init).writers[id].place == Written {
      a := n;
    } else {
      a := StuckHow(t, s, init, id);
      LastEvent(es, a);
    }
  }

  lemma StuckStep(t: Target, q: State, e: Event, id: Id)
    requires id in Step(t, q, e).writers && Step(t, q, e).writers[id].place == Stuck
    ensures id in q.writers
    ensures q.writers[id].place == Stuck || (e == Rename(id, false) && q.writers[id].place == Written && TempName(t, id) in q.files)
  {
    hide TempName;
  }

  predicate ToldFalsely(f: Finish) {
    !f.error && !f.renamed
  }

  lemma ToldStep(t: Target, q: State, e: Event)
    ensures var r := Step(t, q, e);
            (exists f | f in r.finished :: ToldFalsely(f)) <==>
              || (exists f | f in q.finished :: ToldFalsely(f))
              || (e.Remove? && e.ok && e.id in q.writers && q.writers[e.id].place == Stuck)
  {
    hide TempName;
    OneMore(t, q, e);
    var r := Step(t, q, e);
    if r.finished != q.finished {
      var f := r.finished[|q.finished|];
      assert r.finished == q.finished + [f];
      assert f in r.finished;
    }
  }

  /** Someone is told falsely exactly when some file was removed after its rename had failed. */
  lemma {:induction false} ToldIff(t: Target, s: State, es: seq<Event>)
    requires Start(s)
    ensures (exists f | f in Run(t, s, es).finished :: ToldFalsely(f)) <==>
              exists b, id | 0 <= b < |es| :: Removes(t, s, es, b, id)
  {
    hide Step, ToldFalsely;
    if es != [] {
      var n := |es| - 1;
      var init := es[..n];
      ToldIff(t, s, init);
      ToldStep(t, Run(t, s, init), es[n]);
      if b, id :| 0 <= b < |init| && Removes(t, s, init, b, id) {
        LastEvent(es, b);
        assert Removes(t, s, es, b, id);
      }
      if b, id :| 0 <= b < |es| && Removes(t, s, es, b, id) {
        if b < n {
          LastEvent(es, b);
          assert Removes(t, s, init, b, id);
        }
      }
      if es[n].Remove? && Removes(t, s, es, n, es[n].id) {
        assert 0 <= n < |es|;
      }
    }
  }

  /** In every run, every writer whose caller was told of no error has saved its content exactly when no rename
      that failed was followed by the removal of the file that was to be renamed. */
  lemma NoErrorMeansSavedIff(t: Target, s: State, es: seq<Event>)
    requires Start(s)
    ensures (forall f | f in Run(t, s, es).finished && !f.error :: f.renamed) <==>
              !exists a, b, id | 0 <= a < b < |es| :: FailsToRename(t, s, es, a, id) && Removes(t, s, es, b, id)
  {
    hide FailsToRename, Run, Step;
    ToldIff(t, s, es);
    if b, id :| 0 <= b < |es| && Removes(t, s, es, b, id) {
      var a := StuckHow(t, s, es[..b], id);
      Earlier(t, s, es, a, b, id);
    }
    if f :| f in Run(t, s, es).finished && !f.error && !f.renamed {
      assert ToldFalsely(f);
    }
  }

  lemma Earlier(t: Target, s: State, es: seq<Event>, a: nat, b: nat, id: Id)
    requires b <= |es| && FailsToRename(t, s, es[..b], a, id)
    ensures FailsToRename(t, s, es, a, id) && a < b
  {
    assert es[..b][..a] == es[..a];
  }

  /** A failed rename with a removable temporary file: the caller is told that all is well, the target
      is as it was. */
  lemma NilWithoutSave(t: Target, s: State, id: Id)
    requires id in s.writers && s.writers[id].place == Written && TempName(t, id) in s.files
    ensures var r := Run(t, s, [Rename(id, false), Remove(id, true)]);
            && r.finished == s.finished + [Finish(s.writers[id].content, false, false)]
            && Read(r.files, t.path) == Read(s.files, t.path)
  {
    TempNamesDiffer(t, id, id);
    hide TempName;
    assert [Rename(id, false), Remove(id, true)][..1] == [Rename(id, false)];
    assert [Rename(id, false)][..0] == [];
    assert Run(t, s, [Rename(id, false)]) == Step(t, s, Rename(id, false));
  }

  // ----- the code -----

  /** The events lead from `s` to `r`. */
  ghost predicate Reaches(t: Target, s: State, es: seq<Event>, r: State) {
    Run(t, s, es) == r
  }

  lemma Move(t: Target, s: State, es: seq<Event>, r: State, e: Event)
    requires Reaches(t, s, es, r)
    ensures Reaches(t, s, es + [e], Step(t, r, e))
  {
    assert (es + [e])[..|es|] == es;
  }

  /** A process with at most the writer of its last count. */
  function Solo(pid: nat, n: nat, files: map<string, string>, w: Option<Writer>, finished: seq<Finish>): State {
    var counters: map<nat, nat> := map[pid := n];
    State(files, counters, if w.None? then map[] else map[Id(pid, n) := w.value], finished)
  }

  lemma SoloBegin(t: Target, s: State, pid: nat, n: nat, files: map<string, string>, content: string)
    requires s == Solo(pid, n, files, None, [])
    ensures Reaches(t, s, [Begin(pid, content)], Solo(pid, n + 1, files, Some(Writer(content, Named)), []))
  {
    hide TempName;
    Move(t, s, [], s, Begin(pid, content));
    assert [] + [Begin(pid, content)] == [Begin(pid, content)];
  }

  lemma SoloOpen(t: Target, s: State, es: seq<Event>, pid: nat, n: nat, files: map<string, string>, content: string)
    requires Reaches(t, s, es, Solo(pid, n, files, Some(Writer(content, Named)), []))
    ensures Reaches(t, s, es + [Open(Id(pid, n))],
                    Solo(pid, n, files[TempName(t, Id(pid, n)) := ""], Some(Writer(content, Writing(0))), []))
  {
    hide TempName, Reaches;
    assert map[Id(pid, n) := Writer(content, Named)][Id(pid, n) := Writer(content, Writing(0))] == map[Id(pid, n) := Writer(content, Writing(0))];
    Move(t, s, es, Solo(pid, n, files, Some(Writer(content, Named)), []), Open(Id(pid, n)));
  }

  lemma SoloPut(t: Target, s: State, es: seq<Event>, pid: nat, n: nat, files: map<string, string>, content: string, k: nat)
    requires k <= |content| && TempName(t, Id(pid, n)) in files
    requires Reaches(t, s, es, Solo(pid, n, files, Some(Writer(content, Writing(0))), []))
    ensures var name := TempName(t, Id(pid, n));
            Reaches(t, s, es + [Put(Id(pid, n), k)],
                    Solo(pid, n, files[name := files[name] + content[..k]], Some(Writer(content, Writing(k))), []))
  {
    hide TempName, Reaches;
    assert map[Id(pid, n) := Writer(content, Writing(0))][Id(pid, n) := Writer(content, Writing(k))] == map[Id(pid, n) := Writer(content, Writing(k))];
    assert content[0..k] == content[..k];
    Move(t, s, es, Solo(pid, n, files, Some(Writer(content, Writing(0))), []), Put(Id(pid, n), k));
  }

  lemma SoloClose(t: Target, s: State, es: seq<Event>, pid: nat, n: nat, files: map<string, string>, content: string)
    requires Reaches(t, s, es, Solo(pid, n, files, Some(Writer(content, Writing(|content|))), []))
    ensures Reaches(t, s, es + [Close(Id(pid, n))], Solo(pid, n, files, Some(Writer(content, Written)), []))
  {
    hide TempName, Reaches;
    assert map[Id(pid, n) := Writer(content, Writing(|content|))][Id(pid, n) := Writer(content, Written)] == map[Id(pid, n) := Writer(content, Written)];
    Move(t, s, es, Solo(pid, n, files, Some(Writer(content, Writing(|content|))), []), Close(Id(pid, n)));
  }

  lemma SoloGiveUp(t: Target, s: State, es: seq<Event>, pid: nat, n: nat, files: map<string, string>, w: Writer)
    requires w.place.Named? || w.place.Writing?
    requires Reaches(t, s, es, Solo(pid, n, files, Some(w), []))
    ensures Reaches(t, s, es + [GiveUp(Id(pid, n))], Solo(pid, n, files, None, [Finish(w.content, true, false)]))
  {
    hide TempName, Reaches;
    assert map[Id(pid, n) := w] - {Id(pid, n)} == map[];
    assert [] + [Finish(w.content, true, false)] == [Finish(w.content, true, false)];
    Move(t, s, es, Solo(pid, n, files, Some(w), []), GiveUp(Id(pid, n)));
  }

  lemma SoloRename(t: Target, s: State, es: seq<Event>, pid: nat, n: nat, files: map<string, string>, content: string, ok: bool)
    requires TempName(t, Id(pid, n)) in files
    requires Reaches(t, s, es, Solo(pid, n, files, Some(Writer(content, Written)), []))
    ensures var name := TempName(t, Id(pid, n));
            Reaches(t, s, es + [Rename(Id(pid, n), ok)],
                    if ok then Solo(pid, n, (files - {name})[t.path := files[name]], None, [Finish(content, false, true)])
                    else Solo(pid, n, files, Some(Writer(content, Stuck)), []))
  {
    hide TempName, Reaches;
    assert map[Id(pid, n) := Writer(content, Written)][Id(pid, n) := Writer(content, Stuck)] == map[Id(pid, n) := Writer(content, Stuck)];
    assert map[Id(pid, n) := Writer(content, Written)] - {Id(pid, n)} == map[];
    Move(t, s, es, Solo(pid, n, files, Some(Writer(content, Written)), []), Rename(Id(pid, n), ok));
    assert [] + [Finish(content, false, true)] == [Finish(content, false, true)];
  }

  lemma SoloRemove(t: Target, s: State, es: seq<Event>, pid: nat, n: nat, files: map<string, string>, content: string, ok: bool)
    requires Reaches(t, s, es, Solo(pid, n, files, Some(Writer(content, Stuck)), []))
    ensures Reaches(t, s, es + [Remove(Id(pid, n), ok)],
                    Solo(pid, n, if ok then files - {TempName(t, Id(pid, n))} else files, None, [Finish(content, !ok, false)]))
  {
    hide TempName, Reaches;
    assert map[Id(pid, n) := Writer(content, Stuck)] - {Id(pid, n)} == map[];
    assert [] + [Finish(content, !ok, false)] == [Finish(content, !ok, false)];
    Move(t, s, es, Solo(pid, n, files, Some(Writer(content, Stuck)), []), Remove(Id(pid, n), ok));
  }

  /** One process with its counter, alone on its disk. */
  class Process {
    const pid: nat
    var counter: nat
    var files: map<string, string>

    constructor (pid: nat, files: map<string, string>)
      ensures this.pid == pid && this.files == files && counter == 0
    {
      this.pid, this.files, counter := pid, files, 0;
    }

    ghost function Now(finished: seq<Finish>): State
      reads this
    {
      Solo(pid, counter, files, None, finished)
    }

    /** `accepts` is how much of the content the disk takes, nothing if the file cannot be opened;
        `renames` and `removes` say whether these calls succeed. The code takes steps of the system above. */
    method Write(t: Target, content: string, accepts: Option<nat>, renames: bool, removes: bool)
      returns (err: bool, ghost es: seq<Event>)
      modifies this`counter, this`files
      ensures Reaches(t, old(Now([])), es, Now([Finish(content, err, !err && renames)]))
      ensures err <==> accepts == None || accepts.value < |content| || (!renames && !removes)
      ensures Read(files, t.path) == if !err && renames then Some(content) else old(Read(files, t.path))
      ensures counter == old(counter) + 1
      ensures forall name | name != t.path && name != TempName(t, Id(pid, counter)) :: Read(files, name) == old(Read(files, name))
      ensures !err ==> TempName(t, Id(pid, counter)) !in files
    {
      hide Reaches, TempName, Solo;
      ghost var s := Now([]);
      SoloBegin(t, s, pid, counter, files, content);
      counter := counter + 1;
      var name := TempName(t, Id(pid, counter));
      TempNamesDiffer(t, Id(pid, counter), Id(pid, counter));
      es := [Begin(pid, content)];
      if accepts == None {
        SoloGiveUp(t, s, es, pid, counter, files, Writer(content, Named));
        return true, es + [GiveUp(Id(pid, counter))];
      }
      SoloOpen(t, s, es, pid, counter, files, content);
      es := es + [Open(Id(pid, counter))];
      files := files[name := ""];
      var k := if accepts.value < |content| then accepts.value else |content|;
      SoloPut(t, s, es, pid, counter, files, content, k);
      es := es + [Put(Id(pid, counter), k)];
      files := files[name := files[name] + content[..k]];
      if k < |content| {
        SoloGiveUp(t, s, es, pid, counter, files, Writer(content, Writing(k)));
        return true, es + [GiveUp(Id(pid, counter))];
      }
      assert content[..k] == content && "" + content == content;
      SoloClose(t, s, es, pid, counter, files, content);
      es := es + [Close(Id(pid, counter))];
      SoloRename(t, s, es, pid, counter, files, content, renames);
      es := es + [Rename(Id(pid, counter), renames)];
      err := !renames;
      if renames {
        files := (files - {name})[t.path := files[name]];
      } else {
        SoloRemove(t, s, es, pid, counter, files, content, removes);
        es := es + [Remove(Id(pid, counter), removes)];
        err := !removes;
        if removes {
          files := files - {name};
        }
      }
    }
  }
}
