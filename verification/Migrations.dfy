/**
 * The migration runner as a transition system: any number of runners on one database, an
 * advisory lock held by a session, and queries that may fail, take effect unseen, or be the
 * last thing a runner does.
 */
module Migrations {
  import opened Prelude

  /** A file of the migrations directory; control: it holds an order of transaction control at top level. */
  datatype File = File(name: string, checksum: nat, transactional: bool, control: bool)

  /** schema_migrations, and the executions of files committed so far, in order. */
  datatype Db = Db(history: map<string, nat>, ran: seq<File>)

  datatype Stage = Between | Begun | Executed | Recorded
  datatype Phase =
    | Waiting
    | Locked
    | Applying(pending: seq<File>, k: nat, stage: Stage)
    | Leaving(ok: bool)
    | Finished(ok: bool)
    | Dead

  /** mark is the number of executions committed when the runner got the lock. */
  datatype Runner = Runner(files: seq<File>, phase: Phase, mark: nat)

  datatype Sys = Sys(db: Db, lock: Option<nat>, runners: map<nat, Runner>)

  datatype Event =
    | Connect(r: nat, files: seq<File>)
    | Acquire(r: nat)
    | ReadHistory(r: nat)
    | Begin(r: nat)
    | Execute(r: nat, ok: bool, effective: bool)
    | Record(r: nat, ok: bool, effective: bool)
    | Commit(r: nat, ok: bool, effective: bool)
    | Fail(r: nat)
    | Unlock(r: nat)
    | Die(r: nat)

  // The order of Array.prototype.sort on strings.
  predicate Less(a: string, b: string) {
    if b == "" then false
    else if a == "" then true
    else a[0] < b[0] || (a[0] == b[0] && Less(a[1..], b[1..]))
  }

  predicate Sorted(files: seq<File>) {
    forall i, j :: 0 <= i < j < |files| ==> Less(files[i].name, files[j].name)
  }

  function Pending(files: seq<File>, history: map<string, nat>): seq<File> {
    if files == [] then []
    else (if files[0].name in history then [] else [files[0]]) + Pending(files[1..], history)
  }

  predicate Refused(pending: seq<File>) {
    exists i :: 0 <= i < |pending| && pending[i].control
  }

  function SetPhase(s: Sys, r: nat, p: Phase): Sys
    requires r in s.runners
  {
    s.(runners := s.runners[r := s.runners[r].(phase := p)])
  }

  function PhaseOf(s: Sys, r: nat): Phase {
    if r in s.runners then s.runners[r].phase else Dead
  }

  /** The file the runner is at. */
  function Current(s: Sys, r: nat): Option<File> {
    var p := PhaseOf(s, r);
    if p.Applying? && p.k < |p.pending| then Some(p.pending[p.k]) else None
  }

  predicate AtStage(s: Sys, r: nat, transactional: bool, stage: Stage) {
    Current(s, r).Some? && Current(s, r).value.transactional == transactional && PhaseOf(s, r).stage == stage
  }

  predicate Enabled(s: Sys, e: Event) {
    match e
    case Connect(r, files) => r !in s.runners && Sorted(files)
    case Acquire(r) => PhaseOf(s, r).Waiting? && s.lock.None?
    case ReadHistory(r) => PhaseOf(s, r).Locked?
    case Begin(r) => AtStage(s, r, true, Between)
    case Execute(r, ok, effective) =>
      (AtStage(s, r, true, Begun) && !effective) || (AtStage(s, r, false, Between) && (ok ==> effective))
    case Record(r, ok, effective) =>
      && (ok || effective ==> Current(s, r).Some? && Current(s, r).value.name !in s.db.history)
      && ((AtStage(s, r, true, Executed) && !effective) || (AtStage(s, r, false, Executed) && (ok ==> effective)))
    case Commit(r, ok, effective) => AtStage(s, r, true, Recorded) && (ok ==> effective)
    case Fail(r) => PhaseOf(s, r).Waiting? || PhaseOf(s, r).Locked? || PhaseOf(s, r).Applying?
    case Unlock(r) => PhaseOf(s, r).Leaving?
    case Die(r) => r in s.runners && !PhaseOf(s, r).Finished? && !PhaseOf(s, r).Dead?
  }

  function Release(s: Sys, r: nat): Sys {
    if s.lock == Some(r) then s.(lock := None) else s
  }

  /** The next pending file, or the end. */
  function Advance(p: Phase): Phase
    requires p.Applying?
  {
    if p.k + 1 < |p.pending| then p.(k := p.k + 1, stage := Between) else Leaving(true)
  }

  function Ran(db: Db, f: File): Db {
    db.(ran := db.ran + [f])
  }

  function Recording(db: Db, f: File): Db {
    db.(history := db.history[f.name := f.checksum])
  }

  function Next(s: Sys, e: Event): Sys
    requires Enabled(s, e)
  {
    match e
    case Connect(r, files) => s.(runners := s.runners[r := Runner(files, Waiting, 0)])
    case Acquire(r) => s.(lock := Some(r),
          runners := s.runners[r := s.runners[r].(phase := Locked, mark := |s.db.ran|)])
    case ReadHistory(r) =>
      var pending := Pending(s.runners[r].files, s.db.history);
      if Refused(pending) then SetPhase(s, r, Leaving(false))
      else if pending == [] then SetPhase(s, r, Leaving(true))
      else SetPhase(s, r, Applying(pending, 0, Between))
    case Begin(r) => SetPhase(s, r, PhaseOf(s, r).(stage := Begun))
    case Execute(r, ok, effective) =>
      var t := if effective then s.(db := Ran(s.db, Current(s, r).value)) else s;
      SetPhase(t, r, if ok then PhaseOf(s, r).(stage := Executed) else Leaving(false))
    case Record(r, ok, effective) =>
      var t := if effective then s.(db := Recording(s.db, Current(s, r).value)) else s;
      SetPhase(t, r, if !ok then Leaving(false)
                     else if Current(s, r).value.transactional then PhaseOf(s, r).(stage := Recorded)
                     else Advance(PhaseOf(s, r)))
    case Commit(r, ok, effective) =>
      var f := Current(s, r).value;
      var t := if effective then s.(db := Recording(Ran(s.db, f), f)) else s;
      SetPhase(t, r, if ok then Advance(PhaseOf(s, r)) else Leaving(false))
    case Fail(r) => if PhaseOf(s, r).Waiting? then SetPhase(s, r, Finished(false)) else SetPhase(s, r, Leaving(false))
    case Unlock(r) => Release(SetPhase(s, r, Finished(PhaseOf(s, r).ok)), r)
    case Die(r) => Release(SetPhase(s, r, Dead), r)
  }

  function Exec(s: Sys, es: seq<Event>): Option<Sys> {
    if es == [] then Some(s)
    else match Exec(s, es[..|es| - 1])
      case None => None
      case Some(t) => if Enabled(t, es[|es| - 1]) then Some(Next(t, es[|es| - 1])) else None
  }

  // ----- Order of names

  lemma {:induction false} LessTransitive(a: string, b: string, c: string)
    requires Less(a, b) && Less(b, c)
    ensures Less(a, c)
  {
    if a != "" && a[0] == b[0] == c[0] {
      LessTransitive(a[1..], b[1..], c[1..]);
    }
  }

  /** The first place where two texts differ, and the smaller character there; a text comes after its heads. */
  ghost predicate Precedes(a: string, b: string, k: nat) {
    && k <= |a| && k < |b| && a[..k] == b[..k]
    && (k < |a| ==> a[k] < b[k])
  }

  lemma SameFirst(a: string, b: string, k: nat)
    requires Precedes(a, b, k) && k > 0
    ensures a != "" && b != "" && a[0] == b[0] && Precedes(a[1..], b[1..], k - 1)
  {
    assert a[..k][0] == a[0] && b[..k][0] == b[0];
    assert a[1..][..k - 1] == a[..k][1..] && b[1..][..k - 1] == b[..k][1..];
  }

  /** Texts are ordered by the first character in which they differ, the smaller one first. */
  lemma {:induction false} LessIsByFirstDifference(a: string, b: string)
    ensures Less(a, b) <==> exists k: nat :: Precedes(a, b, k)
  {
    forall k: nat | Precedes(a, b, k) && k > 0
      ensures a != "" && b != "" && a[0] == b[0] && Precedes(a[1..], b[1..], k - 1)
    {
      SameFirst(a, b, k);
    }
    if a != "" && b != "" && a[0] == b[0] {
      LessIsByFirstDifference(a[1..], b[1..]);
      assert a == [a[0]] + a[1..] && b == [b[0]] + b[1..];
      if k: nat :| Precedes(a[1..], b[1..], k) {
        assert a[..k + 1] == [a[0]] + a[1..][..k] && b[..k + 1] == [b[0]] + b[1..][..k];
        assert Precedes(a, b, k + 1);
      }
    } else if Less(a, b) {
      assert Precedes(a, b, 0);
    }
  }

  lemma {:induction false} LessIrreflexive(a: string)
    ensures !Less(a, a)
  {
    if a != "" {
      LessIrreflexive(a[1..]);
    }
  }

  lemma SortedCons(f: File, rest: seq<File>)
    requires Sorted(rest) && forall g :: g in rest ==> Less(f.name, g.name)
    ensures Sorted([f] + rest)
  {
    var p := [f] + rest;
    assert p[0] == f && p[1..] == rest;
    forall j | 0 < j < |p| ensures Less(p[0].name, p[j].name) {
      assert p[j] == rest[j - 1] && p[j] in rest;
    }
    hide Less;
  }

  lemma SortedHead(files: seq<File>)
    requires Sorted(files) && files != []
    ensures Sorted(files[1..]) && forall g :: g in files[1..] ==> Less(files[0].name, g.name)
  {
    hide Less;
  }

  /** The pending files are the files without history, in the same order. */
  lemma {:induction false} PendingFiles(files: seq<File>, history: map<string, nat>)
    requires Sorted(files)
    ensures Sorted(Pending(files, history))
    ensures forall f :: f in Pending(files, history) <==> f in files && f.name !in history
  {
    if files != [] {
      var rest := Pending(files[1..], history);
      SortedHead(files);
      PendingFiles(files[1..], history);
      if files[0].name !in history {
        SortedCons(files[0], rest);
      }
      hide Sorted, Less;
      assert files == [files[0]] + files[1..];
    }
  }

  // ----- Invariants

  predicate Holding(p: Phase) {
    p.Locked? || p.Applying? || p.Leaving?
  }

  /** Only the runner that holds the lock is past the wait. */
  ghost predicate Exclusive(s: Sys) {
    && (s.lock.Some? ==> s.lock.value in s.runners)
    && forall r :: r in s.runners ==> (Holding(s.runners[r].phase) <==> s.lock == Some(r))
  }

  /** What the runner at work knows: the files before k are recorded, the others are not. */
  ghost predicate Progress(db: Db, runner: Runner) {
    && (runner.phase.Locked? ==> runner.mark == |db.ran|)
    && (runner.phase.Applying? ==> Working(db, runner))
  }

  ghost predicate Working(db: Db, runner: Runner)
    requires runner.phase.Applying?
  {
      var p := runner.phase;
      && p.k < |p.pending| && Sorted(p.pending) && !Refused(p.pending)
      && (forall i :: 0 <= i < p.k ==> p.pending[i].name in db.history)
      && (forall i :: p.k <= i < |p.pending| ==> p.pending[i].name !in db.history)
      && (forall f :: f in runner.files ==> f in p.pending || f.name in db.history)
      && (forall i :: 0 <= i < |p.pending| ==> p.pending[i] in runner.files)
      && (p.stage.Recorded? || p.stage.Begun? ==> p.pending[p.k].transactional)
      && runner.mark <= |db.ran|
      && db.ran[runner.mark..] ==
         p.pending[..p.k] + (if p.stage.Executed? && !p.pending[p.k].transactional then [p.pending[p.k]] else [])
  }

  ghost predicate Complete(db: Db, runner: Runner) {
    runner.phase == Leaving(true) || runner.phase == Finished(true) ==>
      forall f :: f in runner.files ==> f.name in db.history
  }

  ghost predicate Orderly(s: Sys) {
    Exclusive(s) && forall r :: r in s.runners ==>
      Sorted(s.runners[r].files) && Progress(s.db, s.runners[r]) && Complete(s.db, s.runners[r])
  }

  /** Against the history at the start: committed transactional files and recorded files correspond, each once. */
  ghost predicate ExactlyOnce(base: map<string, nat>, db: Db) {
    && (forall n :: n in base ==> n in db.history && db.history[n] == base[n])
    && (forall i :: 0 <= i < |db.ran| && db.ran[i].transactional ==>
          db.ran[i].name !in base && db.ran[i].name in db.history && db.history[db.ran[i].name] == db.ran[i].checksum)
    && (forall i, j :: 0 <= i < j < |db.ran| && db.ran[i].transactional && db.ran[j].transactional ==>
          db.ran[i].name != db.ran[j].name)
    && (forall n :: n in db.history && n !in base ==> exists i :: 0 <= i < |db.ran| && db.ran[i].name == n)
  }

  // ----- Every step keeps them

  function Actor(e: Event): nat {
    e.r
  }

  /** A step changes its own runner only, and the history only grows. */
  lemma OnlyActorMoves(s: Sys, e: Event)
    requires Enabled(s, e)
    ensures var t := Next(s, e);
            && t.runners.Keys == s.runners.Keys + {Actor(e)}
            && (forall q :: q in s.runners && q != Actor(e) ==> t.runners[q] == s.runners[q])
  {
  }

  lemma HistoryGrows(s: Sys, e: Event)
    requires Enabled(s, e) && Orderly(s)
    ensures forall n :: n in s.db.history ==> n in Next(s, e).db.history && Next(s, e).db.history[n] == s.db.history[n]
    ensures s.db.ran <= Next(s, e).db.ran
  {
  }

  lemma ExclusiveKept(s: Sys, e: Event)
    requires Enabled(s, e) && Orderly(s)
    ensures Exclusive(Next(s, e))
  {
    OnlyActorMoves(s, e);
  }

  lemma DistinctNames(files: seq<File>)
    requires Sorted(files)
    ensures forall i, j :: 0 <= i < j < |files| ==> files[i].name != files[j].name
  {
    forall i, j | 0 <= i < j < |files| ensures files[i].name != files[j].name {
      LessIrreflexive(files[i].name);
    }
  }

  /** Recording the file at k moves the border between recorded and pending past it. */
  lemma RecordedProgress(db: Db, runner: Runner, db': Db)
    requires Progress(db, runner) && runner.phase.Applying?
    requires var f := runner.phase.pending[runner.phase.k];
             db'.history == db.history[f.name := f.checksum] && runner.mark <= |db'.ran| &&
             db'.ran[runner.mark..] == runner.phase.pending[..runner.phase.k] + [f]
    ensures var next := runner.(phase := Advance(runner.phase)); Progress(db', next) && Complete(db', next)
  {
    var p := runner.phase;
    DistinctNames(p.pending);
    assert p.pending[..p.k + 1] == p.pending[..p.k] + [p.pending[p.k]];
    if p.k + 1 == |p.pending| {
      forall f | f in runner.files ensures f.name in db'.history {
        if f in p.pending {
          var i :| 0 <= i < |p.pending| && p.pending[i] == f;
        }
      }
    }
  }

  lemma ReadProgress(db: Db, runner: Runner, phase: Phase)
    requires Sorted(runner.files) && runner.mark == |db.ran|
    requires var pending := Pending(runner.files, db.history);
             phase == if Refused(pending) then Leaving(false)
                      else if pending == [] then Leaving(true) else Applying(pending, 0, Between)
    ensures Progress(db, runner.(phase := phase)) && Complete(db, runner.(phase := phase))
  {
    PendingFiles(runner.files, db.history);
  }

  ghost predicate Progressed(s: Sys, r: nat) {
    r in s.runners && Progress(s.db, s.runners[r]) && Complete(s.db, s.runners[r])
  }

  lemma CommitProgress(s: Sys, r: nat, ok: bool, effective: bool)
    requires Enabled(s, Commit(r, ok, effective)) && Orderly(s)
    ensures Progressed(Next(s, Commit(r, ok, effective)), r)
  {
    if ok {
      var runner, t := s.runners[r], Next(s, Commit(r, ok, effective));
      assert t.db.ran[runner.mark..] == s.db.ran[runner.mark..] + [Current(s, r).value];
      RecordedProgress(s.db, runner, t.db);
      hide Progress, Complete, Recording, Ran, Exclusive;
    }
  }

  lemma RecordProgress(s: Sys, r: nat, ok: bool, effective: bool)
    requires Enabled(s, Record(r, ok, effective)) && Orderly(s)
    ensures Progressed(Next(s, Record(r, ok, effective)), r)
  {
    if ok && effective {
      RecordedProgress(s.db, s.runners[r], Next(s, Record(r, ok, effective)).db);
    }
  }

  lemma ExecuteProgress(s: Sys, r: nat, ok: bool, effective: bool)
    requires Enabled(s, Execute(r, ok, effective)) && Orderly(s)
    ensures Progressed(Next(s, Execute(r, ok, effective)), r)
  {
    if ok && effective {
      var runner := s.runners[r];
      assert Next(s, Execute(r, ok, effective)).db.ran[runner.mark..] ==
             s.db.ran[runner.mark..] + [Current(s, r).value];
    }
  }

  /** The steps that touch neither the history nor the files that ran. */
  lemma QuietProgress(s: Sys, e: Event)
    requires Enabled(s, e) && Orderly(s) && !e.ReadHistory? && !e.Commit? && !e.Record? && !e.Execute?
    ensures Progressed(Next(s, e), Actor(e))
  {
  }

  lemma ActorProgress(s: Sys, e: Event)
    requires Enabled(s, e) && Orderly(s)
    ensures Progressed(Next(s, e), Actor(e))
  {
    match e
    case ReadHistory(r) => ReadProgress(s.db, s.runners[r], Next(s, e).runners[r].phase);
    case Commit(r, ok, effective) => CommitProgress(s, r, ok, effective);
    case Record(r, ok, effective) => RecordProgress(s, r, ok, effective);
    case Execute(r, ok, effective) => ExecuteProgress(s, r, ok, effective);
    case _ =>
      QuietProgress(s, e);
      hide Progressed, Orderly, Next, Enabled;
  }

  lemma OrderlyKept(s: Sys, e: Event)
    requires Enabled(s, e) && Orderly(s)
    ensures Orderly(Next(s, e))
  {
    OnlyActorMoves(s, e);
    HistoryGrows(s, e);
    ExclusiveKept(s, e);
    ActorProgress(s, e);
  }

  lemma ExactlyOnceKept(base: map<string, nat>, s: Sys, e: Event)
    requires Enabled(s, e) && Orderly(s) && ExactlyOnce(base, s.db)
    ensures ExactlyOnce(base, Next(s, e).db)
  {
    var t := Next(s, e);
    HistoryGrows(s, e);
    match e
    case Commit(r, ok, effective) =>
      if effective {
        assert t.db.ran[|s.db.ran|] == Current(s, r).value;
      }
    case Record(r, ok, effective) =>
      if effective {
        var runner := s.runners[r];
        assert s.db.ran[runner.mark..][runner.phase.k] == Current(s, r).value;
        assert s.db.ran[runner.mark + runner.phase.k] == Current(s, r).value;
      }
    case _ =>
  }

  // ----- Over whole runs

  ghost predicate Fresh(s: Sys) {
    s.runners == map[] && s.lock.None? && s.db.ran == []
  }

  /**
   * Any number of runners, crashes, failed queries and commits whose answer is lost: recorded
   * entries never change, every transactional file committed is recorded with the checksum it
   * was committed with, none is committed twice or was there before, and everything recorded ran.
   */
  lemma {:induction false} RunsExactlyOnce(s0: Sys, es: seq<Event>)
    requires Fresh(s0) && Exec(s0, es).Some?
    ensures Orderly(Exec(s0, es).value) && ExactlyOnce(s0.db.history, Exec(s0, es).value.db)
  {
    if es != [] {
      var init, e := es[..|es| - 1], es[|es| - 1];
      RunsExactlyOnce(s0, init);
      OrderlyKept(Exec(s0, init).value, e);
      ExactlyOnceKept(s0.db.history, Exec(s0, init).value, e);
    }
  }

  /** Where every file is transactional, what was committed and what was recorded are the same names. */
  lemma CommittedIsRecorded(s0: Sys, es: seq<Event>)
    requires Fresh(s0) && Exec(s0, es).Some?
    requires var ran := Exec(s0, es).value.db.ran; forall i :: 0 <= i < |ran| ==> ran[i].transactional
    ensures var db := Exec(s0, es).value.db;
            (set i | 0 <= i < |db.ran| :: db.ran[i].name) == db.history.Keys - s0.db.history.Keys
  {
    RunsExactlyOnce(s0, es);
  }

  /** A file that is recorded is not executed again, whatever became of its text. */
  lemma RecordedNeverReplayed(s0: Sys, es: seq<Event>, e: Event)
    requires Fresh(s0) && Exec(s0, es).Some? && Enabled(Exec(s0, es).value, e)
    ensures var s := Exec(s0, es).value; var t := Next(s, e);
            t.db.ran == s.db.ran
            || exists f :: t.db.ran == s.db.ran + [f] && f.name !in s.db.history
                           && s.lock == Some(Actor(e)) && Actor(e) in s.runners && f in s.runners[Actor(e)].files
  {
    RunsExactlyOnce(s0, es);
    ExecutesPending(Exec(s0, es).value, e);
  }

  lemma ExecutesPending(s: Sys, e: Event)
    requires Orderly(s) && Enabled(s, e)
    ensures var t := Next(s, e);
            t.db.ran == s.db.ran
            || exists f :: t.db.ran == s.db.ran + [f] && f.name !in s.db.history
                           && s.lock == Some(Actor(e)) && Actor(e) in s.runners && f in s.runners[Actor(e)].files
  {
    if (e.Execute? || e.Commit?) && e.effective {
      assert Next(s, e).db.ran == s.db.ran + [Current(s, Actor(e)).value];
    }
  }

  /** The runner at work has committed the head of its sorted list of pending files, and nobody anything else. */
  lemma CommittedInOrder(s0: Sys, es: seq<Event>, r: nat)
    requires Fresh(s0) && Exec(s0, es).Some? && AtStage(Exec(s0, es).value, r, true, Between)
    ensures var s := Exec(s0, es).value; var p := s.runners[r].phase;
            && Sorted(p.pending) && s.runners[r].mark <= |s.db.ran| && s.db.ran[s.runners[r].mark..] == p.pending[..p.k]
            && forall q :: q in s.runners && q != r ==> !Holding(s.runners[q].phase)
  {
    RunsExactlyOnce(s0, es);
  }

  /** An order of transaction control in one pending file stops the run before it executes anything. */
  lemma RefusedBeforeAnything(s0: Sys, es: seq<Event>, r: nat)
    requires Fresh(s0) && Exec(s0, es).Some? && Enabled(Exec(s0, es).value, ReadHistory(r))
    ensures var s := Exec(s0, es).value; var t := Next(s, ReadHistory(r));
            (exists f :: f in s.runners[r].files && f.control && f.name !in s.db.history)
            <==> t.runners[r].phase == Leaving(false)
    ensures var s := Exec(s0, es).value; var t := Next(s, ReadHistory(r));
            t.db == s.db && |t.db.ran| == t.runners[r].mark
  {
    RunsExactlyOnce(s0, es);
    var s := Exec(s0, es).value;
    PendingFiles(s.runners[r].files, s.db.history);
    var p := Pending(s.runners[r].files, s.db.history);
    if f :| f in s.runners[r].files && f.control && f.name !in s.db.history {
      assert f in p;
    }
  }

  /** A run that ended well leaves every one of its files recorded, then and ever after. */
  lemma FinishedMeansRecorded(s0: Sys, es: seq<Event>, r: nat)
    requires Fresh(s0) && Exec(s0, es).Some? && PhaseOf(Exec(s0, es).value, r) == Finished(true)
    ensures forall f :: f in Exec(s0, es).value.runners[r].files ==> f.name in Exec(s0, es).value.db.history
  {
    RunsExactlyOnce(s0, es);
  }
}
