/**
 * The manager as its goroutines run it. sessions is the map the mutex protects; sys is the whole
 * registry, followed step by step, and log is the list of those steps. Between two critical
 * sections of a goroutine the others may take any number of theirs.
 */
module ConsoleManager {
  import opened Prelude
  import opened ConsoleMachine
  import opened ConsoleRegistry

  /** What a thread can rely on while others run: its own place, and that nothing done is undone. */
  ghost predicate Since(s: Sys, t: Sys, me: Thread) {
    && (me in s.threads ==> me in t.threads && t.threads[me] == s.threads[me])
    && s.ids <= t.ids && s.closed <= t.closed && s.ended.Keys <= t.ended.Keys
    && (me.Reader? ==> t.ids == s.ids && t.sessions.Keys <= s.sessions.Keys)
  }

  lemma SinceStep(s: Sys, t: Sys, me: Thread, e: Event)
    requires Since(s, t, me) && Enabled(t, e) && Actor(e) != me && Threads(t)
    requires me in s.threads
    ensures Since(s, Next(t, e), me)
  {
    assert InProgram(t, Reader);
    if !(e.Start? && me == Pump(t.threads[Reader].pty)) {
      OthersStay(t, e, me);
    }
  }

  lemma SinceSame(s: Sys, me: Thread)
    ensures Since(s, s, me)
  {
  }

  /** A session that is not in the map was taken out of it by someone: none was ever written over. */
  lemma NothingVanished(log: seq<Event>, sys: Sys)
    requires Exec(Connected(), log) == Some(sys) && Reader in sys.threads && sys.threads[Reader].Ready?
    ensures forall p: nat :: p < |sys.ids| ==> Listed(sys, p) || p in sys.ended
  {
    Reachable(log, sys);
    hide Threads, Map, Reserved, Exclusive, Explained;
  }

  lemma TakeEnds(s: Sys, t: Thread, id: Id)
    requires Inv(s) && Enabled(s, Take(t)) && s.threads[t].id == id
    ensures forall p: nat :: Registered(s, p) && s.ids[p] == id ==> p in Next(s, Take(t)).ended
  {
    InvKept(s, Take(t));
    forall p: nat | Registered(s, p) && s.ids[p] == id ensures p in Next(s, Take(t)).ended {
      Grows(s, Take(t), p);
      ListedAfter(s, Take(t), p);
    }
    hide Threads, Reserved, Exclusive, Explained;
  }

  lemma ClosedOnce(log: seq<Event>, sys: Sys, p: nat)
    requires Exec(Connected(), log) == Some(sys) && p in sys.closed
    ensures sys.closed[p] == 1
  {
    Reachable(log, sys);
    hide Threads, Map, Reserved, Exclusive, Explained;
  }

  lemma PumpIsRegistered(log: seq<Event>, sys: Sys, p: nat)
    requires Exec(Connected(), log) == Some(sys) && Pump(p) in sys.threads
    ensures Registered(sys, p)
  {
    Reachable(log, sys);
    assert InProgram(sys, Pump(p));
  }

  class Manager {
    var sessions: map<Id, nat>
    var sys: Sys
    ghost var log: seq<Event>

    constructor ()
      ensures Valid() && log == [] && sys == Connected()
    {
      sessions, sys, log := map[], Connected(), [];
    }

    ghost predicate Tracked()
      reads `sys, `log
    {
      Exec(Connected(), log) == Some(sys)
    }

    ghost predicate Valid()
      reads this
    {
      Tracked() && sessions == sys.sessions
    }

    // ----- The steps, and the other goroutines

    method Step(e: Event)
      requires Tracked() && Enabled(sys, e)
      modifies `sys, `log
      ensures Tracked() && log == old(log) + [e] && sys == Next(old(sys), e)
    {
      sys, log := Next(sys, e), log + [e];
      assert log[..|log| - 1] == old(log);
    }

    /** A new pseudo-terminal with its shell, if the system can give one. */
    method SpawnConsole() returns (ok: bool)
      requires Tracked() && Enabled(sys, Spawn(true))
      modifies `sys, `log
      ensures Tracked() && log == old(log) + [Spawn(ok)] && sys == Next(old(sys), Spawn(ok))
    {
      ok := *;
      Step(Spawn(ok));
    }

    method Others(me: Thread)
      requires Valid() && me in sys.threads
      modifies this
      ensures Valid() && Since(old(sys), sys, me)
    {
      hide Exec, Since;
      assert Since(sys, sys, me) by {
        SinceSame(sys, me);
      }
      var n: nat := *;
      while n > 0
        invariant Valid() && Since(old(sys), sys, me)
      {
        var e: Event := *;
        if Enabled(sys, e) && Actor(e) != me {
          Reachable(log, sys);
          SinceStep(old(sys), sys, me, e);
          Step(e);
          sessions := sys.sessions;
        }
        n := n - 1;
      }
    }

    // ----- The reader

    /** Opens a session under an id that has none, if the shell can be spawned. */
    method OpenSession(id: Id) returns (pty: Option<nat>)
      requires Valid() && Reader in sys.threads && sys.threads[Reader].Ready?
      modifies this
      ensures Valid() && Reader in sys.threads && sys.threads[Reader].Ready?
      ensures id in old(sessions) ==> pty.None?
      ensures pty.None? ==> id in old(sessions) || (log != [] && log[|log| - 1] == Spawn(false))
      ensures sys.ids == if pty.None? then old(sys.ids) else old(sys.ids) + [id]
      ensures pty.Some? ==> pty.value == |old(sys.ids)| && Registered(sys, pty.value)
      ensures forall p: nat :: p < |old(sys.ids)| ==> Listed(sys, p) || p in sys.ended
    {
      hide Exec;
      pty := OpenUnlessListed(id);
      NothingVanished(log, sys);
    }

    method OpenUnlessListed(id: Id) returns (pty: Option<nat>)
      requires Valid() && Reader in sys.threads && sys.threads[Reader].Ready?
      modifies this
      ensures Valid() && Reader in sys.threads && sys.threads[Reader].Ready?
      ensures id in old(sessions) ==> pty.None?
      ensures pty.None? ==> id in old(sessions) || (log != [] && log[|log| - 1] == Spawn(false))
      ensures sys.ids == if pty.None? then old(sys.ids) else old(sys.ids) + [id]
      ensures pty.Some? ==> pty.value == |old(sys.ids)| && Registered(sys, pty.value)
    {
      hide Exec;
      var listed := id in sessions;
      Step(OpenFrame(id));
      if listed {
        return None;
      }
      Others(Reader);
      var ok := SpawnConsole();
      if !ok {
        return None;
      }
      pty := Some(|sys.ids| - 1);
      RegisterSession(id, pty.value);
    }

    method RegisterSession(id: Id, pty: nat)
      requires Valid() && Reader in sys.threads && sys.threads[Reader] == Spawned(id, pty) && pty < |sys.ids|
      modifies this
      ensures Valid() && Reader in sys.threads && sys.threads[Reader].Ready?
      ensures sys.ids == old(sys.ids) && Registered(sys, pty)
    {
      hide Exec;
      Others(Reader);
      sessions := sessions[id := pty];
      Step(Register);
      Others(Reader);
      Step(Start);
    }

    method CloseSession(id: Id)
      requires Valid() && Reader in sys.threads && sys.threads[Reader].Ready?
      modifies this
      ensures Valid() && Reader in sys.threads && sys.threads[Reader].Ready? && id !in sessions
    {
      hide Exec;
      Step(CloseFrame(id));
      Others(Reader);
      var _ := RemoveSession(Reader, id, Serve);
    }

    /** Takes out whatever session has that id, and closes it outside the lock. */
    method RemoveSession(t: Thread, id: Id, k: Cont) returns (pty: Option<nat>)
      requires Valid() && t in sys.threads && sys.threads[t] == Removing(id, k)
      modifies this
      ensures Valid() && t in sys.threads && sys.threads[t] == After(k)
      ensures pty == if id in old(sessions) then Some(old(sessions)[id]) else None
      ensures pty.Some? ==> sys.closed[pty.value] == 1
      ensures t.Reader? ==> sessions.Keys <= old(sessions).Keys - {id}
      ensures forall p: nat :: Registered(old(sys), p) && old(sys).ids[p] == id ==> p in sys.ended
    {
      hide Exec, Inv, Registered;
      pty := if id in sessions then Some(sessions[id]) else None;
      if pty.Some? {
        sessions := sessions - {id};
      }
      Reachable(log, sys);
      TakeEnds(sys, t, id);
      Step(Take(t));
      if pty.None? {
        return;
      }
      Others(t);
      Step(Close(t));
      ClosedOnce(log, sys, pty.value);
    }

    /** The ids of the map, in any order. */
    method Ids() returns (ids: seq<Id>)
      ensures NoDup(ids) && Keys(ids) == sessions.Keys
    {
      ids := [];
      var left := sessions.Keys;
      while left != {}
        invariant NoDup(ids) && Keys(ids) + left == sessions.Keys && Keys(ids) !! left
        decreases |left|
      {
        var id :| id in left;
        forall i | 0 <= i < |ids| ensures ids[i] != id {
          assert ids[i] in Keys(ids);
        }
        assert Keys(ids + [id]) == Keys(ids) + {id};
        ids := ids + [id];
        left := left - {id};
      }
    }

    /** When the connection is over: every session found in the map is taken out and closed. */
    method CloseAll()
      requires Valid() && Reader in sys.threads && sys.threads[Reader].Ready?
      modifies this
      ensures Valid() && Reader in sys.threads && sys.threads[Reader].Done? && sessions == map[]
    {
      hide Exec;
      var ids := Ids();
      Step(Hangup(ids));
      var i := 0;
      while i < |ids|
        invariant 0 <= i <= |ids| && Valid() && Reader in sys.threads && sys.threads[Reader] == Ending(ids[i..])
      {
        assert ids[i..] == [ids[i]] + ids[i + 1..];
        CloseNext(ids[i], ids[i + 1..]);
        i := i + 1;
      }
      LastStep();
    }

    method CloseNext(id: Id, rest: seq<Id>)
      requires Valid() && Reader in sys.threads && sys.threads[Reader] == Ending([id] + rest)
      modifies this
      ensures Valid() && Reader in sys.threads && sys.threads[Reader] == Ending(rest)
    {
      hide Exec;
      Others(Reader);
      assert ([id] + rest)[1..] == rest;
      Step(Proceed);
      Others(Reader);
      var _ := RemoveSession(Reader, id, Finish(rest));
    }

    method LastStep()
      requires Valid() && Reader in sys.threads && sys.threads[Reader] == Ending([])
      modifies this
      ensures Valid() && Reader in sys.threads && sys.threads[Reader].Done? && sessions == map[]
    {
      Step(Proceed);
      Reachable(log, sys);
    }

    // ----- A pump

    /**
     * Streams what the shell prints, until the connection fails or the shell ends; then its session is out
     * of the map.
     */
    method PumpPTY(p: nat) returns (ended: bool)
      requires Valid() && Pump(p) in sys.threads && sys.threads[Pump(p)].Reading? && p < |sys.ids|
      modifies this
      ensures Valid() && Pump(p) in sys.threads && sys.threads[Pump(p)].Gone?
      ensures if ended then p in sys.ended else log != [] && log[|log| - 1] == WriteFailure(p)
    {
      hide Exec;
      var id := sys.ids[p];
      var chunks: nat := *;
      while chunks > 0
        invariant Valid() && Pump(p) in sys.threads && sys.threads[Pump(p)].Reading? && p < |sys.ids|
                  && sys.ids[p] == id
      {
        Others(Pump(p));
        var written: bool := *;
        if !written {
          Step(WriteFailure(p));
          return false;
        }
        chunks := chunks - 1;
      }
      Step(Eof(p));
      Others(Pump(p));
      PumpIsRegistered(log, sys, p);
      var _ := RemoveSession(Pump(p), id, Stop);
      return true;
    }

  }
}
