/** What every interleaving keeps in the console registry, and how a session can end. */
module ConsoleRegistry {
  import opened Prelude
  import opened ConsoleMachine

  /** The session of this pseudo-terminal can be found under its id. */
  predicate Listed(s: Sys, p: nat) {
    p < |s.ids| && s.ids[p] in s.sessions && s.sessions[s.ids[p]] == p
  }

  predicate HeldBy(s: Sys, t: Thread, p: nat) {
    t in s.threads && s.threads[t].Holding? && s.threads[t].pty == p
  }

  predicate Registered(s: Sys, p: nat) {
    p < |s.ids| && !(Reader in s.threads && s.threads[Reader].Spawned? && s.threads[Reader].pty == p)
  }

  /** Each thread is at a point of its own program. */
  ghost predicate InProgram(s: Sys, t: Thread) {
    t in s.threads ==>
      var l := s.threads[t];
      match t
      case Reader =>
        && !l.Reading? && !l.Gone? && ((l.Removing? || l.Holding?) ==> !l.k.Stop?)
        && (l.Starting? ==> l.pty + 1 == |s.ids| && Pump(l.pty) !in s.threads)
      case Pump(p) =>
        && Registered(s, p)
        && (l.Reading? || l.Gone? || l == Removing(s.ids[p], Stop) || (l.Holding? && l.k == Stop))
  }

  ghost predicate Threads(s: Sys) {
    Reader in s.threads && forall t :: InProgram(s, t)
  }

  /** The map is keyed by the ids of its sessions, the latest one with each id. */
  ghost predicate Map(s: Sys) {
    && (forall id :: id in s.sessions ==> s.sessions[id] < |s.ids| && s.ids[s.sessions[id]] == id)
    && (forall p: nat :: Registered(s, p) && s.ids[p] in s.sessions ==> p <= s.sessions[s.ids[p]])
  }

  /** What the reader knows between its critical sections, since it alone adds sessions. */
  ghost predicate Reserved(s: Sys) {
    Reader in s.threads && match s.threads[Reader]
    case Checked(id) => id !in s.sessions
    case Spawned(id, p) => id !in s.sessions && |s.ids| == p + 1 && s.ids[p] == id && p !in s.closed && p !in s.ended
    case Ending(rest) => s.sessions.Keys <= Keys(rest)
    case Removing(id, Finish(rest)) => s.sessions.Keys <= Keys(rest) + {id}
    case Holding(_, Finish(rest)) => s.sessions.Keys <= Keys(rest)
    case Done => s.sessions == map[]
    case _ => true
  }

  /** A thread that holds a session holds it alone, and will be the one to close it. */
  ghost predicate Exclusive(s: Sys) {
    && (forall t, p: nat :: HeldBy(s, t, p) ==> p in s.ended && p !in s.closed)
    && (forall t, u, p: nat :: HeldBy(s, t, p) && HeldBy(s, u, p) ==> t == u)
  }

  /** A session is out of the map exactly if someone took it out, and is then held or closed once. */
  ghost predicate Accounted(s: Sys) {
    && (forall p: nat :: p in s.closed ==> p in s.ended && s.closed[p] == 1)
    && (forall p: nat :: p in s.ended <==> Registered(s, p) && !Listed(s, p))
    && (forall p: nat :: p in s.ended && p !in s.closed ==> exists t :: HeldBy(s, t, p))
  }

  /** A session taken out by its id had that id. */
  ghost predicate Explained(s: Sys) {
    forall p: nat :: p in s.ended && p < |s.ids| ==>
      match s.ended[p]
      case ByPump(a) => a <= p && s.ids[a] == s.ids[p]
      case ByFrame(id) => id == s.ids[p]
      case ByCloseAll => true
  }

  ghost predicate Inv(s: Sys) {
    Threads(s) && Map(s) && Reserved(s) && Exclusive(s) && Accounted(s) && Explained(s)
  }

  // ----- Kept by every step

  lemma Grows(s: Sys, e: Event, p: nat)
    requires Threads(s) && Reserved(s) && Enabled(s, e)
    ensures Registered(s, p) ==> Registered(Next(s, e), p) && Next(s, e).ids[p] == s.ids[p]
    ensures !e.Register? && Registered(Next(s, e), p) ==> Registered(s, p)
    ensures e.Register? && Registered(Next(s, e), p) ==> Registered(s, p) || p == s.threads[Reader].pty
  {
    assert InProgram(s, Reader);
  }

  /** A step moves its own thread only, but for the pump that is started. */
  lemma OthersStay(s: Sys, e: Event, t: Thread)
    requires Enabled(s, e) && t != Actor(e) && !(e.Start? && t == Pump(s.threads[Reader].pty))
    ensures (t in Next(s, e).threads <==> t in s.threads) && (t in s.threads ==> Next(s, e).threads[t] == s.threads[t])
  {
  }

  lemma LocalKept(s: Sys, e: Event, t: Thread)
    requires Threads(s) && Reserved(s) && Enabled(s, e)
    ensures InProgram(Next(s, e), t)
  {
    assert InProgram(s, t) && InProgram(s, Actor(e));
    if t.Pump? {
      Grows(s, e, t.pty);
    }
    if e.Register? {
      assert InProgram(s, Pump(s.threads[Reader].pty));
    } else if t != Actor(e) && !(e.Start? && t == Pump(s.threads[Reader].pty)) {
      OthersStay(s, e, t);
      if t.Reader? && s.threads[t].Starting? {
        OthersStay(s, e, Pump(s.threads[t].pty));
        Grows(s, e, s.threads[t].pty);
      }
      hide Next;
    }
  }

  lemma ThreadsKept(s: Sys, e: Event)
    requires Threads(s) && Reserved(s) && Enabled(s, e)
    ensures Threads(Next(s, e))
  {
    forall t ensures InProgram(Next(s, e), t) {
      LocalKept(s, e, t);
    }
    hide InProgram, Reserved;
  }

  lemma MapKept(s: Sys, e: Event)
    requires Threads(s) && Map(s) && Reserved(s) && Enabled(s, e)
    ensures Map(Next(s, e))
  {
    forall p: nat
      ensures Registered(Next(s, e), p) ==> Registered(s, p) || (e.Register? && p == s.threads[Reader].pty)
    {
      Grows(s, e, p);
    }
    hide Registered, InProgram;
  }

  lemma ReservedBySpawn(s: Sys, ok: bool)
    requires Threads(s) && Map(s) && Reserved(s) && Accounted(s) && Enabled(s, Spawn(ok))
    ensures Reserved(Next(s, Spawn(ok)))
  {
    assert |s.ids| !in s.closed && |s.ids| !in s.ended;
    hide Threads, Map, Accounted, Listed;
  }

  lemma ReservedByReader(s: Sys, e: Event)
    requires Threads(s) && Reserved(s) && Enabled(s, e) && Actor(e) == Reader && !e.Spawn?
    ensures Reserved(Next(s, e))
  {
    assert InProgram(s, Reader);
    var l := s.threads[Reader];
    if e.Proceed? && l.rest != [] {
      assert l.rest == [l.rest[0]] + l.rest[1..];
      assert Keys(l.rest) == Keys(l.rest[1..]) + {l.rest[0]};
    }
    hide InProgram, Threads;
  }

  lemma ReservedByPump(s: Sys, e: Event)
    requires Threads(s) && Map(s) && Reserved(s) && Exclusive(s) && Accounted(s) && Enabled(s, e) && Actor(e) != Reader
    ensures Reserved(Next(s, e))
  {
    assert e.Close? ==> HeldBy(s, Actor(e), s.threads[Actor(e)].pty);
    hide InProgram;
  }

  /** Who holds a session after a step: whoever held it, unless it was just closed, or who just took it out. */
  lemma Holders(s: Sys, e: Event, t: Thread, p: nat)
    requires Threads(s) && Enabled(s, e)
    ensures HeldBy(Next(s, e), t, p) <==>
              (HeldBy(s, t, p) && e != Close(t))
                  || (e == Take(t) && s.threads[t].id in s.sessions && s.sessions[s.threads[t].id] == p)
  {
    assert InProgram(s, t) && InProgram(s, Reader) && InProgram(s, Actor(e));
    if t != Actor(e) && !(e.Start? && t == Pump(s.threads[Reader].pty)) {
      OthersStay(s, e, t);
      hide Next;
    }
  }

  lemma HeldIsOpen(s: Sys, e: Event, t: Thread, p: nat)
    requires Threads(s) && Map(s) && Exclusive(s) && Accounted(s) && Enabled(s, e) && HeldBy(Next(s, e), t, p)
    ensures p in Next(s, e).ended && p !in Next(s, e).closed
  {
    Holders(s, e, t, p);
    if e.Take? && HeldBy(s, t, p) {
      assert p in s.ended && p !in s.closed;
    } else if e.Take? {
      assert Listed(s, p);
      assert p !in s.ended;
    } else if e.Close? {
      assert HeldBy(s, e.t, s.threads[e.t].pty);
    }
    hide Threads, Registered;
  }

  lemma ExclusiveKept(s: Sys, e: Event)
    requires Threads(s) && Map(s) && Exclusive(s) && Accounted(s) && Enabled(s, e)
    ensures Exclusive(Next(s, e))
  {
    var s' := Next(s, e);
    forall t, p: nat ensures HeldBy(s', t, p) ==> p in s'.ended && p !in s'.closed {
      if HeldBy(s', t, p) {
        HeldIsOpen(s, e, t, p);
      }
    }
    forall t, u, p: nat ensures HeldBy(s', t, p) && HeldBy(s', u, p) ==> t == u {
      Holders(s, e, t, p);
      Holders(s, e, u, p);
      if e.Take? && s.threads[e.t].id in s.sessions {
        assert Listed(s, s.sessions[s.threads[e.t].id]);
      }
    }
    hide HeldBy, Threads, Next;
  }

  /** A step takes a session out of the map only by recording it, and puts in only the one that is registered. */
  lemma ListedAfter(s: Sys, e: Event, p: nat)
    requires Threads(s) && Map(s) && Reserved(s) && Enabled(s, e)
    ensures var s' := Next(s, e);
            Listed(s', p) <==>
              || (Listed(s, p) && !(e.Take? && s.threads[e.t].id in s.sessions && s.sessions[s.threads[e.t].id] == p))
              || (e.Register? && p == s.threads[Reader].pty)
    ensures var s' := Next(s, e);
            p in s'.ended <==>
              p in s.ended || (e.Take? && s.threads[e.t].id in s.sessions && s.sessions[s.threads[e.t].id] == p)
  {
    assert InProgram(s, Reader);
    hide InProgram;
  }

  lemma EndedKept(s: Sys, e: Event, p: nat)
    requires Threads(s) && Map(s) && Reserved(s) && Accounted(s) && Enabled(s, e)
    ensures p in Next(s, e).ended <==> Registered(Next(s, e), p) && !Listed(Next(s, e), p)
  {
    Grows(s, e, p);
    ListedAfter(s, e, p);
    assert p in s.ended <==> Registered(s, p) && !Listed(s, p);
    if e.Take? && s.threads[e.t].id in s.sessions {
      assert Listed(s, s.sessions[s.threads[e.t].id]);
    }
    hide Threads, Registered, Next, Map;
  }

  lemma ClosedKept(s: Sys, e: Event, p: nat)
    requires Threads(s) && Map(s) && Exclusive(s) && Accounted(s) && Enabled(s, e)
    ensures p in Next(s, e).closed ==> p in Next(s, e).ended && Next(s, e).closed[p] == 1
    ensures p in Next(s, e).ended && p !in Next(s, e).closed ==> exists t :: HeldBy(Next(s, e), t, p)
  {
    var s' := Next(s, e);
    if e.Close? {
      assert HeldBy(s, e.t, s.threads[e.t].pty);
    }
    if p in s'.ended && p !in s'.closed {
      if p in s.ended {
        var t :| HeldBy(s, t, p);
        Holders(s, e, t, p);
      } else {
        Holders(s, e, e.t, p);
      }
    }
    hide HeldBy, Registered, Listed;
  }

  lemma AccountedKept(s: Sys, e: Event)
    requires Threads(s) && Map(s) && Reserved(s) && Exclusive(s) && Accounted(s) && Enabled(s, e)
    ensures Accounted(Next(s, e))
  {
    forall p: nat ensures p in Next(s, e).ended <==> Registered(Next(s, e), p) && !Listed(Next(s, e), p) {
      EndedKept(s, e, p);
    }
    forall p: nat
      ensures p in Next(s, e).closed ==> p in Next(s, e).ended && Next(s, e).closed[p] == 1
      ensures p in Next(s, e).ended && p !in Next(s, e).closed ==> exists t :: HeldBy(Next(s, e), t, p)
    {
      ClosedKept(s, e, p);
    }
    hide Next, HeldBy, Registered, Listed;
  }

  lemma ExplainedKept(s: Sys, e: Event)
    requires Threads(s) && Map(s) && Reserved(s) && Accounted(s) && Explained(s) && Enabled(s, e)
    ensures Explained(Next(s, e))
  {
    if e.Take? {
      assert InProgram(s, e.t);
      hide Reserved, HeldBy;
    } else {
      forall p: nat | p in s.ended ensures Registered(s, p) {
      }
      hide HeldBy, Listed;
    }
  }

  lemma InvKept(s: Sys, e: Event)
    requires Inv(s) && Enabled(s, e)
    ensures Inv(Next(s, e))
  {
    hide Threads, Map, Reserved, Exclusive, Accounted, Explained, Next, Enabled;
    ThreadsKept(s, e);
    MapKept(s, e);
    if e.Spawn? {
      ReservedBySpawn(s, e.ok);
    } else if Actor(e) == Reader {
      ReservedByReader(s, e);
    } else {
      ReservedByPump(s, e);
    }
    ExclusiveKept(s, e);
    AccountedKept(s, e);
    ExplainedKept(s, e);
  }

  lemma {:induction false} Reachable(es: seq<Event>, s: Sys)
    requires Exec(Connected(), es) == Some(s)
    ensures Inv(s)
  {
    if es == [] {
    } else {
      var t := Exec(Connected(), es[..|es| - 1]).value;
      Reachable(es[..|es| - 1], t);
      InvKept(t, es[|es| - 1]);
      hide Inv, Next;
    }
  }
}
