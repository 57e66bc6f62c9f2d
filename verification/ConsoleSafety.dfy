/** What holds of the console registry over every run of a connection. */
module ConsoleSafety {
  import opened Prelude
  import opened ConsoleMachine
  import opened ConsoleRegistry

  // ----- Nothing is leaked, nothing closed twice

  ghost predicate Held(s: Sys, p: nat) {
    exists t :: HeldBy(s, t, p)
  }

  /**
   * A registered session is in the map, or about to be closed by one thread, or was closed once; never two
   * of these.
   */
  lemma EverySessionAccounted(es: seq<Event>, s: Sys, p: nat)
    requires Exec(Connected(), es) == Some(s) && Registered(s, p)
    ensures Listed(s, p) ==> !Held(s, p) && p !in s.closed
    ensures Held(s, p) ==> p !in s.closed
    ensures !Listed(s, p) && !Held(s, p) ==> s.closed[p] == 1
    ensures s.closed[p] <= 1
    ensures forall t, u :: HeldBy(s, t, p) && HeldBy(s, u, p) ==> t == u
  {
    Reachable(es, s);
    hide HeldBy, Registered, Listed, Threads, Map, Reserved, Explained;
  }

  /** When closeAll is over the map is empty, for good; and when no pump is closing, every session was closed once. */
  lemma AfterCloseAllNothingIsOpen(es: seq<Event>, s: Sys, p: nat)
    requires Exec(Connected(), es) == Some(s) && Reader in s.threads && s.threads[Reader].Done? && Registered(s, p)
    ensures s.sessions == map[] && (Held(s, p) || s.closed[p] == 1)
  {
    EverySessionAccounted(es, s, p);
    Reachable(es, s);
  }

  // ----- closeAll ends

  /** The steps the reader has left at most once it has begun to close everything. */
  function Work(l: Local): nat {
    match l
    case Ending(rest) => 3 * |rest| + 1
    case Removing(_, Finish(rest)) => 3 * |rest| + 3
    case Holding(_, Finish(rest)) => 3 * |rest| + 2
    case _ => 0
  }

  predicate ClosingAll(l: Local) {
    match l
    case Ending(_) => true
    case Removing(_, Finish(_)) => true
    case Holding(_, Finish(_)) => true
    case Done => true
    case _ => false
  }

  function ReaderSteps(es: seq<Event>): nat {
    if es == [] then 0 else ReaderSteps(es[..|es| - 1]) + (if Actor(es[|es| - 1]) == Reader then 1 else 0)
  }

  /** Whatever the pumps do meanwhile, the reader needs at most three steps a session, and can always take the next. */
  lemma {:induction false} CloseAllEnds(s: Sys, es: seq<Event>, t: Sys)
    requires Reader in s.threads && ClosingAll(s.threads[Reader]) && Exec(s, es) == Some(t)
    ensures Reader in t.threads && ClosingAll(t.threads[Reader])
    ensures ReaderSteps(es) + Work(t.threads[Reader]) <= Work(s.threads[Reader])
    ensures t.threads[Reader].Done? || exists e :: Actor(e) == Reader && Enabled(t, e)
  {
    if es != [] {
      var u := Exec(s, es[..|es| - 1]).value;
      CloseAllEnds(s, es[..|es| - 1], u);
      WorkStep(u, es[|es| - 1]);
      hide Next;
    }
    NextReaderStep(t);
    hide Enabled, Work, ClosingAll;
  }

  lemma WorkStep(s: Sys, e: Event)
    requires Reader in s.threads && ClosingAll(s.threads[Reader]) && Enabled(s, e)
    ensures Reader in Next(s, e).threads && ClosingAll(Next(s, e).threads[Reader])
    ensures Work(Next(s, e).threads[Reader]) + (if Actor(e) == Reader then 1 else 0) <= Work(s.threads[Reader])
  {
    if Actor(e) != Reader {
      OthersStay(s, e, Reader);
      hide Next;
    }
  }

  lemma NextReaderStep(s: Sys)
    requires Reader in s.threads
    ensures ClosingAll(s.threads[Reader]) && !s.threads[Reader].Done? ==>
              exists e :: Actor(e) == Reader && Enabled(s, e)
  {
    assert s.threads[Reader].Ending? ==> Actor(Proceed) == Reader && Enabled(s, Proceed);
    assert s.threads[Reader].Removing? ==> Actor(Take(Reader)) == Reader && Enabled(s, Take(Reader));
    assert s.threads[Reader].Holding? ==> Actor(Close(Reader)) == Reader && Enabled(s, Close(Reader));
  }

  // ----- What ends a session

  /** If a pump ended the session of another pump, that one was opened later, under the same id. */
  lemma OnlyReuseEndsAnother(es: seq<Event>, s: Sys, p: nat)
    requires Exec(Connected(), es) == Some(s) && p in s.ended && s.ended[p].ByPump?
    ensures p < |s.ids| && s.ended[p].pump <= p && s.ids[s.ended[p].pump] == s.ids[p]
  {
    Reachable(es, s);
    hide Threads, Map, Reserved, Exclusive;
  }

  function Opened(es: seq<Event>): seq<Id> {
    if es == [] then []
    else Opened(es[..|es| - 1]) + (if es[|es| - 1].OpenFrame? then [es[|es| - 1].id] else [])
  }

  predicate Distinct(s: Sys, asked: seq<Id>) {
    && NoDup(s.ids) && Keys(s.ids) <= Keys(asked)
    && (Reader in s.threads && s.threads[Reader].Checked? ==>
         s.threads[Reader].id in asked && s.threads[Reader].id !in s.ids)
  }

  lemma DistinctStep(s: Sys, e: Event, asked: seq<Id>)
    requires Reader in s.threads && Distinct(s, asked) && Enabled(s, e)
    requires e.OpenFrame? ==> e.id !in asked
    ensures Distinct(Next(s, e), if e.OpenFrame? then asked + [e.id] else asked)
  {
    var s' := Next(s, e);
    forall id | id in s.ids ensures id in asked {
      assert id in Keys(s.ids);
    }
    if Actor(e) != Reader {
      OthersStay(s, e, Reader);
      assert s'.ids == s.ids;
      hide Next;
    } else if e.Spawn? && e.ok {
      assert s'.ids == s.ids + [s.threads[Reader].id];
      assert Keys(s'.ids) == Keys(s.ids) + {s.threads[Reader].id};
      hide Next;
    } else {
      assert s'.ids == s.ids;
      if e.OpenFrame? {
        assert e.id !in Keys(asked) && Keys(asked + [e.id]) == Keys(asked) + {e.id};
      }
    }
  }

  lemma {:induction false} DistinctIds(es: seq<Event>, s: Sys)
    requires Exec(Connected(), es) == Some(s) && NoDup(Opened(es))
    ensures Distinct(s, Opened(es))
  {
    if es != [] {
      var fs, e := es[..|es| - 1], es[|es| - 1];
      var t := Exec(Connected(), fs).value;
      assert Opened(fs) == Opened(es)[..|Opened(fs)|];
      DistinctIds(fs, t);
      Reachable(fs, t);
      if e.OpenFrame? {
        assert Opened(es)[|Opened(fs)|] == e.id;
        assert forall i :: 0 <= i < |Opened(fs)| ==> Opened(es)[i] == Opened(fs)[i];
      }
      DistinctStep(t, e, Opened(fs));
      hide Next, Enabled, Distinct;
    }
  }

  /** Each cause of an end was an event of the run. */
  ghost predicate Witnessed(es: seq<Event>, c: Cause) {
    match c
    case ByPump(a) => Eof(a) in es
    case ByFrame(id) => CloseFrame(id) in es
    case ByCloseAll => exists e :: e in es && e.Hangup?
  }

  ghost predicate AboutTo(es: seq<Event>, s: Sys, t: Thread) {
    t in s.threads ==> match s.threads[t]
      case Removing(id, k) => Witnessed(es, CauseOf(t, id, k))
      case Ending(_) => Witnessed(es, ByCloseAll)
      case Holding(_, Finish(_)) => Witnessed(es, ByCloseAll)
      case _ => true
  }

  ghost predicate Traced(es: seq<Event>, s: Sys) {
    (forall p: nat :: p in s.ended ==> Witnessed(es, s.ended[p])) && (forall t :: AboutTo(es, s, t))
  }

  lemma WitnessedLater(es: seq<Event>, e: Event, c: Cause)
    requires Witnessed(es, c)
    ensures Witnessed(es + [e], c)
  {
  }

  lemma AboutToStep(es: seq<Event>, s: Sys, e: Event, t: Thread)
    requires Threads(s) && Traced(es, s) && Enabled(s, e)
    ensures AboutTo(es + [e], Next(s, e), t)
  {
    assert AboutTo(es, s, t) && InProgram(s, t);
    assert e in es + [e];
    if t in s.threads {
      if s.threads[t].Removing? {
        WitnessedLater(es, e, CauseOf(t, s.threads[t].id, s.threads[t].k));
      } else if s.threads[t].Ending? || (s.threads[t].Holding? && s.threads[t].k.Finish?) {
        WitnessedLater(es, e, ByCloseAll);
      }
    }
    if t != Actor(e) && !(e.Start? && t == Pump(s.threads[Reader].pty)) {
      OthersStay(s, e, t);
      hide Next;
    }
  }

  lemma TracedStep(es: seq<Event>, s: Sys, e: Event)
    requires Threads(s) && Traced(es, s) && Enabled(s, e)
    ensures Traced(es + [e], Next(s, e))
  {
    forall t ensures AboutTo(es + [e], Next(s, e), t) {
      AboutToStep(es, s, e, t);
    }
    forall p: nat | p in s.ended ensures Witnessed(es + [e], s.ended[p]) {
      WitnessedLater(es, e, s.ended[p]);
    }
    if e.Take? {
      assert AboutTo(es, s, e.t);
      WitnessedLater(es, e, CauseOf(e.t, s.threads[e.t].id, s.threads[e.t].k));
    }
    hide Witnessed;
  }

  lemma {:induction false} CausesHappened(es: seq<Event>, s: Sys)
    requires Exec(Connected(), es) == Some(s)
    ensures Traced(es, s)
  {
    if es != [] {
      var fs, e := es[..|es| - 1], es[|es| - 1];
      var t := Exec(Connected(), fs).value;
      CausesHappened(fs, t);
      Reachable(fs, t);
      TracedStep(fs, t, e);
      assert es == fs + [e];
      hide Next, Enabled, Traced, Threads;
    }
  }

  lemma WhoEnded(s: Sys, p: nat)
    requires Inv(s) && Registered(s, p) && !Listed(s, p) && NoDup(s.ids)
    ensures p in s.ended && (s.ended[p] == ByPump(p) || s.ended[p] == ByFrame(s.ids[p]) || s.ended[p] == ByCloseAll)
  {
    assert p in s.ended;
    hide Threads, Map, Reserved, Exclusive, Accounted;
  }

  /**
   * If no id is opened twice, a session leaves the map only by its own shell's end, its own close frame,
   * or closeAll.
   */
  lemma EndsOfASession(es: seq<Event>, s: Sys, p: nat)
    requires Exec(Connected(), es) == Some(s) && NoDup(Opened(es)) && Registered(s, p) && !Listed(s, p)
    ensures Eof(p) in es || CloseFrame(s.ids[p]) in es || exists e :: e in es && e.Hangup?
  {
    Reachable(es, s);
    DistinctIds(es, s);
    CausesHappened(es, s);
    hide Inv, Exec, Listed, AboutTo;
    WhoEnded(s, p);
    assert Witnessed(es, s.ended[p]);
  }

  // ----- With ids opened twice, exactly

  /** A pump that may still take out the session that has its id. */
  predicate Threatens(s: Sys, a: nat, p: nat) {
    && a != p && a < |s.ids| && p < |s.ids| && s.ids[a] == s.ids[p] && Pump(a) in s.threads
    && (s.threads[Pump(a)].Reading? || s.threads[Pump(a)].Removing?)
  }

  /** No other pump of the same id has its removal before it. */
  ghost predicate Alone(s: Sys, p: nat) {
    forall a: nat :: !Threatens(s, a, p)
  }

  lemma StartedIsLatest(s: Sys, p: nat)
    requires Threads(s) && Map(s) && Listed(s, p) && s.threads[Reader].Starting?
    ensures s.threads[Reader].pty < |s.ids| && (s.ids[s.threads[Reader].pty] == s.ids[p] ==> s.threads[Reader].pty == p)
  {
    assert InProgram(s, Reader);
  }

  /** As long as a session is in the map no other pump can become a threat to it. */
  lemma ThreatsGoBack(s: Sys, e: Event, a: nat, p: nat)
    requires Threads(s) && Map(s) && Enabled(s, e) && Listed(s, p) && Threatens(Next(s, e), a, p)
    ensures Threatens(s, a, p)
  {
    assert InProgram(s, Reader) && InProgram(s, Pump(a)) && InProgram(s, Actor(e));
    hide Map, Threads;
    if e.Start? {
      StartedIsLatest(s, p);
    }
    if Pump(a) != Actor(e) && !(e.Start? && a == s.threads[Reader].pty) {
      OthersStay(s, e, Pump(a));
      IdsGrow(s, e);
      hide Next;
    }
  }

  lemma IdsGrow(s: Sys, e: Event)
    requires Enabled(s, e)
    ensures s.ids <= Next(s, e).ids && (|Next(s, e).ids| == |s.ids| || e.Spawn?)
  {
  }

  lemma AloneStep(s: Sys, e: Event, p: nat)
    requires Inv(s) && Enabled(s, e) && Listed(s, p) && Alone(s, p)
    ensures Alone(Next(s, e), p)
    ensures !Listed(Next(s, e), p) ==> p in Next(s, e).ended && !EndedByAnother(Next(s, e), p)
  {
    forall a: nat ensures !Threatens(Next(s, e), a, p) {
      if Threatens(Next(s, e), a, p) {
        ThreatsGoBack(s, e, a, p);
      }
    }
    ListedAfter(s, e, p);
    if e.Take? {
      assert InProgram(s, e.t);
      assert e.t.Pump? ==> !Threatens(s, e.t.pty, p);
    }
    hide Threads, Map, Reserved, Exclusive, Accounted, Explained;
  }

  ghost predicate EndedByAnother(s: Sys, p: nat) {
    p in s.ended && s.ended[p].ByPump? && s.ended[p].pump != p
  }

  /** What was the cause stays the cause. */
  lemma EndedStays(s: Sys, e: Event, p: nat)
    requires Inv(s) && Enabled(s, e) && p in s.ended
    ensures p in Next(s, e).ended && Next(s, e).ended[p] == s.ended[p]
  {
    assert !Listed(s, p) && Registered(s, p);
    hide Threads, Reserved, Exclusive, Explained;
  }

  lemma {:induction false} AloneIsSafe(s: Sys, es: seq<Event>, p: nat)
    requires Inv(s) && Listed(s, p) && Alone(s, p) && Exec(s, es).Some?
    ensures var t := Exec(s, es).value;
            Inv(t) && (if Listed(t, p) then Alone(t, p) else p in t.ended && !EndedByAnother(t, p))
  {
    hide Inv, Alone, Listed, Next, Enabled;
    if es != [] {
      var u, e := Exec(s, es[..|es| - 1]).value, es[|es| - 1];
      AloneIsSafe(s, es[..|es| - 1], p);
      InvKept(u, e);
      if Listed(u, p) {
        AloneStep(u, e, p);
      } else {
        EndedStays(u, e, p);
        StillUnlisted(Next(u, e), p);
      }
    }
  }

  lemma StillUnlisted(s: Sys, p: nat)
    requires Inv(s) && p in s.ended
    ensures !Listed(s, p)
  {
  }

  /** A pump with its removal before it can carry it out, whatever the other threads are at. */
  lemma ThreatCarriedOut(s: Sys, a: nat, p: nat) returns (es: seq<Event>, t: Sys)
    requires Inv(s) && Listed(s, p) && Threatens(s, a, p)
    ensures Exec(s, es) == Some(t) && p in t.ended && t.ended[p] == ByPump(a)
  {
    assert InProgram(s, Pump(a));
    es, t := [], s;
    assert Exec(s, es) == Some(t);
    if s.threads[Pump(a)].Reading? {
      assert Enabled(s, Eof(a));
      es, t := [Eof(a)], Next(s, Eof(a));
      assert es[..0] == [];
    }
    assert t.threads[Pump(a)] == Removing(s.ids[p], Stop) && t.sessions == s.sessions && Exec(s, es) == Some(t);
    TakenOut(s, es, t, a, p);
    var take := Take(Pump(a));
    assert (es + [take])[..|es|] == es;
    es, t := es + [take], Next(t, take);
  }

  lemma TakenOut(s: Sys, es: seq<Event>, t: Sys, a: nat, p: nat)
    requires p < |s.ids| && Pump(a) in t.threads && t.threads[Pump(a)] == Removing(s.ids[p], Stop)
    requires s.ids[p] in t.sessions && t.sessions[s.ids[p]] == p
    ensures Enabled(t, Take(Pump(a)))
    ensures var u := Next(t, Take(Pump(a))); p in u.ended && u.ended[p] == ByPump(a)
  {
  }

  /** Some course of events makes another pump end the session. */
  ghost predicate AtRisk(s: Sys, p: nat) {
    exists fs :: Exec(s, fs).Some? && EndedByAnother(Exec(s, fs).value, p)
  }

  lemma ThreatIsRisk(s: Sys, a: nat, p: nat)
    requires Inv(s) && Listed(s, p) && Threatens(s, a, p)
    ensures AtRisk(s, p)
  {
    hide Inv, Exec, Listed, EndedByAnother, Threatens;
    var fs, t := ThreatCarriedOut(s, a, p);
    OtherPump(s, t, a, p);
    assert Exec(s, fs).Some? && EndedByAnother(Exec(s, fs).value, p);
  }

  lemma AloneIsNoRisk(s: Sys, p: nat)
    requires Inv(s) && Listed(s, p) && Alone(s, p)
    ensures !AtRisk(s, p)
  {
    hide Inv, Exec, Listed, EndedByAnother, Alone;
    forall fs | Exec(s, fs).Some? ensures !EndedByAnother(Exec(s, fs).value, p) {
      var t := Exec(s, fs).value;
      AloneIsSafe(s, fs, p);
      if EndedByAnother(t, p) {
        ListedNotEnded(t, p);
      }
    }
  }

  /**
   * A session in the map can be ended by another pump if and only if a pump of the same id has not come to its
   * removal yet; opening an id again once its old pump is gone is harmless.
   */
  lemma EndedByAnotherIff(es: seq<Event>, s: Sys, p: nat)
    requires Exec(Connected(), es) == Some(s) && Listed(s, p)
    ensures AtRisk(s, p) <==> exists a: nat :: Threatens(s, a, p)
  {
    Reachable(es, s);
    hide Inv, Exec, Listed, Threatens, AtRisk;
    if a: nat :| Threatens(s, a, p) {
      ThreatIsRisk(s, a, p);
    } else {
      AloneIsNoRisk(s, p);
    }
  }

  lemma OtherPump(s: Sys, t: Sys, a: nat, p: nat)
    requires Threatens(s, a, p) && p in t.ended && t.ended[p] == ByPump(a)
    ensures EndedByAnother(t, p)
  {
  }

  lemma ListedNotEnded(s: Sys, p: nat)
    requires Inv(s) && EndedByAnother(s, p)
    ensures !Listed(s, p)
  {
  }

  // ----- With ids opened twice: a run

  lemma Extend(es: seq<Event>, s: Sys, e: Event) returns (fs: seq<Event>, t: Sys)
    requires Exec(Connected(), es) == Some(s) && Enabled(s, e)
    ensures fs == es + [e] && t == Next(s, e) && Exec(Connected(), fs) == Some(t)
  {
    fs, t := es + [e], Next(s, e);
    assert fs[..|fs| - 1] == es;
  }

  /** A session opened and its pump started. */
  lemma Opening(es: seq<Event>, s: Sys, id: Id) returns (fs: seq<Event>, t: Sys)
    requires Exec(Connected(), es) == Some(s) && Reader in s.threads && s.threads[Reader].Ready? && id !in s.sessions
    ensures Exec(Connected(), fs) == Some(t) && fs == es + [OpenFrame(id), Spawn(true), Register, Start]
    ensures t.sessions == s.sessions[id := |s.ids|] && t.ids == s.ids + [id]
    ensures t.closed == s.closed && t.ended == s.ended
    ensures t.threads == s.threads[Pump(|s.ids|) := Reading][Reader := Ready]
  {
    fs, t := Extend(es, s, OpenFrame(id));
    fs, t := Extend(fs, t, Spawn(true));
    fs, t := Extend(fs, t, Register);
    fs, t := Extend(fs, t, Start);
    assert s.threads[Pump(|s.ids|) := Reading][Reader := Ready] == t.threads;
  }

  /** A shell ends, and the frame that closes its session arrives before its pump has removed it. */
  lemma Racing(es: seq<Event>, s: Sys, id: Id) returns (fs: seq<Event>, t: Sys)
    requires Exec(Connected(), es) == Some(s) && s.ids == [id]
    requires s.threads == map[Reader := Ready, Pump(0) := Reading]
    ensures fs == es + [Eof(0), CloseFrame(id)] && Exec(Connected(), fs) == Some(t)
    ensures t == s.(threads := map[Reader := Removing(id, Serve), Pump(0) := Removing(id, Stop)])
  {
    fs, t := Extend(es, s, Eof(0));
    fs, t := Extend(fs, t, CloseFrame(id));
  }

  lemma ClosingByFrame(es: seq<Event>, s: Sys, id: Id) returns (fs: seq<Event>, t: Sys)
    requires Exec(Connected(), es) == Some(s) && s.ids == [id] && s.sessions == map[id := 0]
    requires s.threads == map[Reader := Removing(id, Serve), Pump(0) := Removing(id, Stop)]
    ensures fs == es + [Take(Reader), Close(Reader)] && Exec(Connected(), fs) == Some(t)
    ensures t.ids == [id] && t.sessions == map[] && t.threads == map[Reader := Ready, Pump(0) := Removing(id, Stop)]
  {
    fs, t := Extend(es, s, Take(Reader));
    fs, t := Extend(fs, t, Close(Reader));
  }

  lemma LateTake(es: seq<Event>, s: Sys, id: Id) returns (fs: seq<Event>, t: Sys)
    requires Exec(Connected(), es) == Some(s) && s.ids == [id, id] && s.sessions == map[id := 1]
    requires s.threads == map[Reader := Ready, Pump(0) := Removing(id, Stop), Pump(1) := Reading]
    ensures fs == es + [Take(Pump(0))] && Exec(Connected(), fs) == Some(t)
    ensures Registered(t, 1) && !Listed(t, 1) && 1 in t.ended && t.ended[1] == ByPump(0)
  {
    fs, t := Extend(es, s, Take(Pump(0)));
  }

  /**
   * The shell of a first session ends; before its pump removes it, the server closes it and opens another
   * under the same id; the old pump then takes the new session out, which nobody asked to close.
   */
  lemma ReusedIdEndsTheNewSession() returns (es: seq<Event>, s: Sys)
    ensures Exec(Connected(), es) == Some(s) && Registered(s, 1) && !Listed(s, 1)
    ensures 1 in s.ended && s.ended[1] == ByPump(0)
    ensures es == [OpenFrame("a"), Spawn(true), Register, Start, Eof(0), CloseFrame("a"), Take(Reader), Close(Reader),
                   OpenFrame("a"), Spawn(true), Register, Start, Take(Pump(0))]
  {
    hide Exec, Registered, Listed;
    assert Exec(Connected(), []) == Some(Connected()) by {
      NoStep();
    }
    es, s := Opening([], Connected(), "a");
    es, s := Racing(es, s, "a");
    es, s := ClosingByFrame(es, s, "a");
    es, s := Opening(es, s, "a");
    es, s := LateTake(es, s, "a");
  }

  lemma NoStep()
    ensures Exec(Connected(), []) == Some(Connected())
  {
  }
}
