/**
 * The runner as the API runs it at start-up, one query after the other, while the other
 * runners go on. sys is the database and the sessions, log what happened to them.
 */
module MigrationRunner {
  import opened Prelude
  import opened Migrations
  import opened MigrationNames
  import SqlGrammar
  import SqlLexer

  /** The database with a file executed and recorded. */
  function After(db: Db, f: File): Db {
    Recording(Ran(db, f), f)
  }

  predicate Failing(e: Event) {
    e.Fail? || ((e.Execute? || e.Record? || e.Commit?) && !e.ok)
  }

  class Runner {
    const id: nat
    var sys: Sys
    ghost var log: seq<Event>
    ghost const start: Sys

    constructor (id: nat, world: Sys)
      requires Fresh(world)
      ensures Valid() && sys == start == world && this.id == id && log == []
    {
      this.id, sys, start, log := id, world, world, [];
    }

    ghost predicate Valid()
      reads this
    {
      Fresh(start) && Exec(start, log) == Some(sys) && Orderly(sys) && ExactlyOnce(start.db.history, sys.db)
    }

    /** The runner holds the lock, in the given phase. */
    ghost predicate At(phase: Phase)
      reads this
    {
      Valid() && Holding(phase) && PhaseOf(sys, id) == phase && sys.lock == Some(id)
    }

    /** Since the event at n, a query of this runner failed, or its answer was lost. */
    ghost predicate Troubled(n: nat)
      reads `log
    {
      exists i :: n <= i < |log| && Actor(log[i]) == id && Failing(log[i])
    }

    ghost function Files(): seq<File>
      reads this
    {
      if id in sys.runners then sys.runners[id].files else []
    }

    method Happen(e: Event)
      requires Valid() && Enabled(sys, e)
      modifies `sys, `log
      ensures Valid() && log == old(log) + [e] && sys == Next(old(sys), e)
    {
      OrderlyKept(sys, e);
      ExactlyOnceKept(start.db.history, sys, e);
      sys, log := Next(sys, e), log + [e];
      assert log[..|log| - 1] == old(log);
    }

    /** Any number of steps of the other runners. They do not touch what the holder of the lock relies on. */
    method Others()
      requires Valid()
      modifies `sys, `log
      ensures Valid() && old(log) <= log && (id in old(sys).runners <==> id in sys.runners)
      ensures id in sys.runners ==> sys.runners[id] == old(sys).runners[id]
      ensures old(sys).lock == Some(id) ==> sys.lock == Some(id) && sys.db == old(sys).db
    {
      var n: nat := *;
      while n > 0
        invariant Valid() && old(log) <= log && (id in old(sys).runners <==> id in sys.runners)
        invariant id in sys.runners ==> sys.runners[id] == old(sys).runners[id]
        invariant old(sys).lock == Some(id) ==> sys.lock == Some(id) && sys.db == old(sys).db
      {
        var e: Event := *;
        if Actor(e) != id && Enabled(sys, e) {
          OthersFrame(sys, e, id);
          Happen(e);
        }
        n := n - 1;
      }
    }

    /** A query the phase allows to be answered or to fail. */
    method Query(e: Event) returns (ok: bool)
      requires Valid() && Actor(e) == id && !e.Die? && Enabled(sys, e) && sys.lock == Some(id)
      requires PhaseOf(sys, id).Locked? || PhaseOf(sys, id).Applying?
      modifies `sys, `log
      ensures Valid() && old(log) <= log && Files() == old(Files())
      ensures if ok then sys.db == Next(old(sys), e).db && PhaseOf(sys, id) == PhaseOf(Next(old(sys), e), id)
              && sys.lock == Some(id)
              else At(Leaving(false)) && sys.db == old(sys).db && Troubled(|old(log)|)
    {
      hide Orderly, ExactlyOnce, Exec, Fresh;
      Others();
      ok := *;
      if ok {
        Happen(e);
      } else {
        Happen(Fail(id));
        assert log[|log| - 1] == Fail(id);
      }
    }

    /**
     * The whole run: the names applied, or nothing if it threw, and that only if a query of its own failed or
     * a file that is not recorded has an order of transaction control.
     */
    method RunMigrations(files: seq<File>) returns (applied: Option<seq<string>>)
      requires Valid() && Sorted(files) && id !in sys.runners
      modifies `sys, `log
      ensures Valid() && old(log) <= log && PhaseOf(sys, id) == Finished(applied.Some?)
      ensures applied.Some? ==> forall f :: f in files ==> f.name in sys.db.history
      ensures applied.None? ==>
                Troubled(|old(log)|) || exists f :: f in files && f.control && f.name !in sys.db.history
    {
      hide Orderly, ExactlyOnce, Exec, Fresh;
      Happen(Connect(id, files));
      var locked := WaitForLock();
      if !locked {
        return None;
      }
      ghost var history := sys.db.history;
      applied := ApplyPending(files);
      RefusedFile(files, history);
      ghost var before := log;
      Others();
      Happen(Unlock(id));
      assert forall i :: 0 <= i < |before| ==> log[i] == before[i];
      FinishedRecorded(sys, id);
    }

    method WaitForLock() returns (ok: bool)
      requires Valid() && PhaseOf(sys, id).Waiting?
      modifies `sys, `log
      ensures Valid() && old(log) <= log && Files() == old(Files())
      ensures if ok then At(Locked) else PhaseOf(sys, id) == Finished(false) && Troubled(|old(log)|)
    {
      hide Orderly, ExactlyOnce, Exec, Fresh;
      Others();
      ok := *;
      ok := ok && sys.lock.None?;
      Happen(if ok then Acquire(id) else Fail(id));
      assert !ok ==> log[|log| - 1] == Fail(id);
    }

    method ApplyPending(files: seq<File>) returns (applied: Option<seq<string>>)
      requires At(Locked) && Files() == files
      modifies `sys, `log
      ensures Valid() && old(log) <= log && Files() == old(Files()) && At(Leaving(applied.Some?))
      ensures applied.Some? ==> applied.value == Names(Pending(files, old(sys).db.history))
      ensures applied.None? ==>
                || Troubled(|old(log)|)
                || (Refused(Pending(files, old(sys).db.history)) && sys.db == old(sys).db)
      ensures Refused(Pending(files, old(sys).db.history)) ==> applied.None?
    {
      hide Orderly, ExactlyOnce, Exec, Fresh;
      var pending := Pending(files, sys.db.history);
      var ok := Query(ReadHistory(id));
      if !ok {
        return None;
      }
      for i := 0 to |pending|
        invariant forall j :: 0 <= j < i ==> !pending[j].control
      {
        if pending[i].control {
          return None;
        }
      }
      var i := 0;
      while i < |pending|
        invariant 0 <= i <= |pending| && old(log) <= log && Files() == files
        invariant if i < |pending| then At(Applying(pending, i, Between)) else At(Leaving(true))
      {
        ok := ApplyFile(pending, i);
        if !ok {
          return None;
        }
        i := i + 1;
      }
      return Some(Names(pending));
    }

    method ApplyFile(pending: seq<File>, i: nat) returns (ok: bool)
      requires i < |pending| && At(Applying(pending, i, Between))
      modifies `sys, `log
      ensures Valid() && old(log) <= log && Files() == old(Files())
      ensures if ok then At(Advance(Applying(pending, i, Between))) else At(Leaving(false)) && Troubled(|old(log)|)
    {
      hide Orderly, ExactlyOnce, Exec, Fresh;
      if pending[i].transactional {
        ok := ApplyInTransaction(pending, i);
      } else {
        ok := ApplyAsIs(pending, i);
      }
    }

    /** Both the execution of the file and its record, or neither; both too if only the answer to the commit is lost. */
    method ApplyInTransaction(pending: seq<File>, i: nat) returns (ok: bool)
      requires i < |pending| && At(Applying(pending, i, Between)) && pending[i].transactional
      modifies `sys, `log
      ensures Valid() && old(log) <= log && Files() == old(Files())
      ensures if ok then At(Advance(Applying(pending, i, Between))) else At(Leaving(false)) && Troubled(|old(log)|)
      ensures sys.db == After(old(sys).db, pending[i]) || (!ok && sys.db == old(sys).db)
    {
      PendingNotRecorded(sys, id);
      hide Orderly, ExactlyOnce, Exec, Fresh;
      hide Enabled, Next, AtStage;
      TransactionSteps(sys, id, pending, i);
      ok := InTransaction(Begin(id), Applying(pending, i, Begun));
      if !ok {
        return;
      }
      ok := ExecuteAndCommit(pending, i);
    }

    method ExecuteAndCommit(pending: seq<File>, i: nat) returns (ok: bool)
      requires i < |pending| && At(Applying(pending, i, Begun)) && pending[i].transactional
      requires pending[i].name !in sys.db.history
      modifies `sys, `log
      ensures Valid() && old(log) <= log && Files() == old(Files())
      ensures if ok then At(Advance(Applying(pending, i, Between))) else At(Leaving(false)) && Troubled(|old(log)|)
      ensures sys.db == After(old(sys).db, pending[i]) || (!ok && sys.db == old(sys).db)
    {
      hide Orderly, ExactlyOnce, Exec, Fresh, Enabled, Next, AtStage;
      TransactionSteps(sys, id, pending, i);
      ok := InTransaction(Execute(id, true, false), Applying(pending, i, Executed));
      if !ok {
        return;
      }
      ok := RecordAndCommit(pending, i);
    }

    method RecordAndCommit(pending: seq<File>, i: nat) returns (ok: bool)
      requires i < |pending| && At(Applying(pending, i, Executed)) && pending[i].transactional
      requires pending[i].name !in sys.db.history
      modifies `sys, `log
      ensures Valid() && old(log) <= log && Files() == old(Files())
      ensures if ok then At(Advance(Applying(pending, i, Between))) else At(Leaving(false)) && Troubled(|old(log)|)
      ensures sys.db == After(old(sys).db, pending[i]) || (!ok && sys.db == old(sys).db)
    {
      hide Orderly, ExactlyOnce, Exec, Fresh, Enabled, Next, AtStage;
      TransactionSteps(sys, id, pending, i);
      ok := InTransaction(Record(id, true, false), Applying(pending, i, Recorded));
      if !ok {
        return;
      }
      TransactionSteps(sys, id, pending, i);
      ok := AutoCommitted(Commit(id, true, true), Commit(id, false, true));
    }

    /** A query whose effect waits for the commit. */
    method InTransaction(e: Event, reached: Phase) returns (ok: bool)
      requires Valid() && Actor(e) == id && !e.Die? && Enabled(sys, e) && sys.lock == Some(id)
               && PhaseOf(sys, id).Applying?
      requires PhaseOf(Next(sys, e), id) == reached && Next(sys, e).db == sys.db && Holding(reached)
      modifies `sys, `log
      ensures Valid() && old(log) <= log && Files() == old(Files())
      ensures sys.db == old(sys).db && if ok then At(reached) else At(Leaving(false)) && Troubled(|old(log)|)
    {
      hide Orderly, ExactlyOnce, Exec, Fresh;
      ok := Query(e);
    }

    method ApplyAsIs(pending: seq<File>, i: nat) returns (ok: bool)
      requires i < |pending| && At(Applying(pending, i, Between)) && !pending[i].transactional
      modifies `sys, `log
      ensures Valid() && old(log) <= log && Files() == old(Files())
      ensures if ok then At(Advance(Applying(pending, i, Between))) else At(Leaving(false)) && Troubled(|old(log)|)
    {
      PendingNotRecorded(sys, id);
      hide Orderly, ExactlyOnce, Exec, Fresh;
      ok := AutoCommitted(Execute(id, true, true), Execute(id, false, true));
      if !ok {
        return;
      }
      ok := AutoCommitted(Record(id, true, true), Record(id, false, true));
    }

    /** A query with an effect of its own: done, failed, or done with its answer lost. */
    method AutoCommitted(done: Event, lost: Event) returns (ok: bool)
      requires Valid() && Actor(done) == Actor(lost) == id && !done.Die? && Enabled(sys, done) && Enabled(sys, lost)
      requires sys.lock == Some(id) && PhaseOf(sys, id).Applying?
      requires PhaseOf(Next(sys, lost), id) == Leaving(false) && Failing(lost)
      modifies `sys, `log
      ensures Valid() && old(log) <= log && Files() == old(Files())
      ensures if ok then sys.db == Next(old(sys), done).db && sys.lock == Some(id)
                         && PhaseOf(sys, id) == PhaseOf(Next(old(sys), done), id)
              else At(Leaving(false)) && (sys.db == old(sys).db || sys.db == Next(old(sys), lost).db)
                   && Troubled(|old(log)|)
    {
      hide Orderly, ExactlyOnce, Exec, Fresh;
      var vanishes: bool := *;
      if vanishes {
        Others();
        Happen(lost);
        assert log[|log| - 1] == lost;
        return false;
      }
      ok := Query(done);
    }
  }

  lemma RefusedFile(files: seq<File>, history: map<string, nat>)
    requires Sorted(files)
    ensures Refused(Pending(files, history)) <==> exists f :: f in files && f.control && f.name !in history
  {
    PendingFiles(files, history);
    var pending := Pending(files, history);
    if f :| f in files && f.control && f.name !in history {
      assert f in pending;
    }
  }

  /** A file as it is in the directory. */
  datatype Source = Source(name: string, sql: string, checksum: nat)

  /** What the runner keeps of a file: which ones it refuses is a matter of the plain parts of their text. */
  ghost predicate Describes(f: File, s: Source) {
    && f.name == s.name && f.checksum == s.checksum
    && (f.transactional <==> !SqlLexer.OptsOut(s.sql))
    && forall ts :: SqlGrammar.Lexes(s.sql, 0, ts, |s.sql|) ==>
         (!f.control <==> SqlLexer.FirstOrder(SqlGrammar.MaskAll(ts), None))
  }

  /** The files of a directory, listed in any order, whose name is that of a migration, sorted by name. */
  method ListMigrationFiles(sources: seq<Source>) returns (files: seq<File>)
    requires forall i, j :: 0 <= i < j < |sources| ==> sources[i].name != sources[j].name
    ensures Sorted(files)
    ensures forall f :: f in files ==> exists s :: s in sources && MigrationName(s.name) && Describes(f, s)
    ensures forall s :: s in sources && MigrationName(s.name) ==> exists f :: f in files && Describes(f, s)
  {
    files := [];
    for n := 0 to |sources|
      invariant Sorted(files)
      invariant forall f :: f in files ==> exists s :: s in sources[..n] && MigrationName(s.name) && Describes(f, s)
      invariant forall s :: s in sources[..n] && MigrationName(s.name) ==> exists f :: f in files && Describes(f, s)
    {
      var s := sources[n];
      assert sources[..n + 1] == sources[..n] + [s];
      if MigrationName(s.name) {
        var f := Describe(s);
        NewName(sources, n, files);
        files := InsertSorted(files, f);
      }
    }
    assert sources[..|sources|] == sources;
  }

  lemma NewName(sources: seq<Source>, n: nat, files: seq<File>)
    requires n < |sources| && forall i, j :: 0 <= i < j < |sources| ==> sources[i].name != sources[j].name
    requires forall f :: f in files ==> exists s :: s in sources[..n] && MigrationName(s.name) && Describes(f, s)
    ensures forall f :: f in files ==> f.name != sources[n].name
  {
    forall f | f in files ensures f.name != sources[n].name {
      var s :| s in sources[..n] && MigrationName(s.name) && Describes(f, s);
    }
  }

  method Describe(s: Source) returns (f: File)
    ensures Describes(f, s)
  {
    var order := SqlLexer.FindTransactionControl(s.sql);
    var direct := SqlLexer.IsNoTransaction(s.sql);
    forall ts | SqlGrammar.Lexes(s.sql, 0, ts, |s.sql|)
      ensures order.None? <==> SqlLexer.FirstOrder(SqlGrammar.MaskAll(ts), None)
    {
      OrderOrNone(SqlGrammar.MaskAll(ts), order);
    }
    f := File(s.name, s.checksum, !direct, order.Some?);
  }

  /** The file takes its place among sorted ones. */
  method InsertSorted(files: seq<File>, f: File) returns (r: seq<File>)
    requires Sorted(files) && forall g :: g in files ==> g.name != f.name
    ensures Sorted(r) && forall g :: g in r <==> g in files || g == f
  {
    var i := 0;
    while i < |files| && Less(files[i].name, f.name)
      invariant 0 <= i <= |files| && forall j :: 0 <= j < i ==> Less(files[j].name, f.name)
    {
      i := i + 1;
    }
    r := files[..i] + [f] + files[i..];
    SortedAround(files, f, i);
    assert files == files[..i] + files[i..];
  }

  lemma SortedAround(files: seq<File>, f: File, i: nat)
    requires Sorted(files) && i <= |files| && forall g :: g in files ==> g.name != f.name
    requires forall j :: 0 <= j < i ==> Less(files[j].name, f.name)
    requires i < |files| ==> !Less(files[i].name, f.name)
    ensures Sorted(files[..i] + [f] + files[i..])
  {
    var r := files[..i] + [f] + files[i..];
    if i < |files| {
      LessTotal(files[i].name, f.name);
    }
    forall j | i < j < |files| ensures Less(f.name, files[j].name) {
      LessTransitive(f.name, files[i].name, files[j].name);
    }
    forall j, k | 0 <= j < k < |r| ensures Less(r[j].name, r[k].name) {
      assert r[j] == if j < i then files[j] else if j == i then f else files[j - 1];
      assert r[k] == if k < i then files[k] else if k == i then f else files[k - 1];
    }
  }

  lemma {:induction false} LessTotal(a: string, b: string)
    ensures a == b || Less(a, b) || Less(b, a)
  {
    if a != "" && b != "" && a[0] == b[0] {
      LessTotal(a[1..], b[1..]);
      assert a == [a[0]] + a[1..] && b == [b[0]] + b[1..];
    }
  }

  lemma OrderOrNone(text: string, order: Option<string>)
    requires SqlLexer.FirstOrder(text, order)
    ensures order.None? <==> SqlLexer.FirstOrder(text, None)
  {
  }

  lemma FinishedRecorded(s: Sys, r: nat)
    requires Orderly(s) && r in s.runners
    ensures s.runners[r].phase == Finished(true) ==> forall f :: f in s.runners[r].files ==> f.name in s.db.history
  {
    assert Complete(s.db, s.runners[r]);
  }

  lemma TransactionSteps(s: Sys, r: nat, pending: seq<File>, i: nat)
    requires i < |pending| && pending[i].transactional && pending[i].name !in s.db.history
    requires PhaseOf(s, r).Applying? && PhaseOf(s, r).pending == pending && PhaseOf(s, r).k == i
    ensures PhaseOf(s, r).stage.Between? ==>
              && Enabled(s, Begin(r))
              && Next(s, Begin(r)).db == s.db && PhaseOf(Next(s, Begin(r)), r) == Applying(pending, i, Begun)
    ensures PhaseOf(s, r).stage.Begun? ==>
              && Enabled(s, Execute(r, true, false))
              && Next(s, Execute(r, true, false)).db == s.db
              && PhaseOf(Next(s, Execute(r, true, false)), r) == Applying(pending, i, Executed)
    ensures PhaseOf(s, r).stage.Executed? ==>
              && Enabled(s, Record(r, true, false))
              && Next(s, Record(r, true, false)).db == s.db
              && PhaseOf(Next(s, Record(r, true, false)), r) == Applying(pending, i, Recorded)
    ensures PhaseOf(s, r).stage.Recorded? ==>
              && Enabled(s, Commit(r, true, true)) && Enabled(s, Commit(r, false, true))
              && PhaseOf(Next(s, Commit(r, false, true)), r) == Leaving(false)
              && Next(s, Commit(r, true, true)).db == After(s.db, pending[i]) == Next(s, Commit(r, false, true)).db
              && PhaseOf(Next(s, Commit(r, true, true)), r) == Advance(Applying(pending, i, Between))
  {
  }

  lemma PendingNotRecorded(s: Sys, r: nat)
    requires Orderly(s) && Current(s, r).Some?
    ensures Current(s, r).value.name !in s.db.history
  {
  }

  function Names(files: seq<File>): seq<string> {
    seq(|files|, i requires 0 <= i < |files| => files[i].name)
  }

  /** Without the lock a step changes neither the database nor the runner that has it. */
  lemma OthersFrame(s: Sys, e: Event, r: nat)
    requires Orderly(s) && Enabled(s, e) && Actor(e) != r
    ensures r in s.runners <==> r in Next(s, e).runners
    ensures r in s.runners ==> Next(s, e).runners[r] == s.runners[r]
    ensures s.lock == Some(r) ==> Next(s, e).lock == Some(r) && Next(s, e).db == s.db
  {
    OnlyActorMoves(s, e);
  }
}
