/** Server and machine agree on the account changed last if and only if that change is on record. */
module LapsExact {
  import opened Prelude
  import opened LapsMachine
  import opened LapsAlignment
  import opened LapsSafety

  /** The account whose password the run changed last, and that password. */
  datatype Change = Change(user: string, cred: nat)

  ghost function Latest(s0: Sys, es: seq<Event>): Option<Change>
    requires Exec(s0, es).Some?
  {
    if es == [] then None
    else
      var s, e := Exec(s0, es[..|es| - 1]).value, es[|es| - 1];
      if Changes(e) then Some(Change(s.cycle.user, s.pc.cred)) else Latest(s0, es[..|es| - 1])
  }

  /** The record, the row of the server and the account are one and the same, and they are those of the last change. */
  ghost predicate Agreement(s: Sys, latest: Option<Change>)
    requires s.mem.current.Some?
  {
    var c := s.mem.current.value;
    && InPlace(s.local, c.user, c.enc) && s.server == Some(Row(c.user, c.enc))
    && (latest.Some? ==> c.user == latest.value.user && c.enc == Cipher(latest.value.cred))
  }

  // ----- What each of the two states says of the last change

  ghost predicate Records(st: State, x: Change) {
    st.current.Some? && st.current.value.user == x.user && st.current.value.enc == Cipher(x.cred)
  }

  /** The state knows nothing of the last change, and the server does not have it once the state has no stash. */
  ghost predicate Misses(st: State, server: Option<Row>, x: Change) {
    && (st.current.Some? ==> st.current.value.enc != Cipher(x.cred))
    && (st.pending.None? ==> server != Some(Row(x.user, Cipher(x.cred))))
  }

  ghost predicate Applied(st: State, applied: set<nat>) {
    st.current.Some? && st.current.value.enc.Cipher? ==> st.current.value.enc.cred in applied
  }

  /** No agent older than the phases left its stash. */
  ghost predicate Modern(s: Sys) {
    && NotLegacy(s.mem.pending) && NotLegacy(s.disk.pending) && NotLegacy(Settled(s).pending)
    && !s.pc.FlushPost? && !s.pc.DropSave?
  }

  ghost predicate Knows(s: Sys, x: Change) {
    && x.cred in s.applied && x.user in s.local && s.local[x.user].password == x.cred
    && (if s.lostMem then Misses(Settled(s), s.server, x) else Records(s.mem, x))
    && (if s.lostDisk then Misses(s.disk, s.server, x) else Records(s.disk, x))
    && (s.lostMem ==> s.lostDisk)
    && (s.lostDisk && !s.lostMem ==> s.disk.pending.Some?)
  }

  ghost predicate Tracked(s: Sys, latest: Option<Change>) {
    && Modern(s) && Applied(s.mem, s.applied) && Applied(s.disk, s.applied)
    && match latest
       case None => !s.lostMem && !s.lostDisk
       case Some(x) => Knows(s, x)
  }

  ghost function After(s: Sys, e: Event, latest: Option<Change>): Option<Change>
    requires Enabled(s, e)
  {
    if Changes(e) then Some(Change(s.cycle.user, s.pc.cred)) else latest
  }

  // ----- Kept by every step

  lemma CrashTracked(s: Sys, latest: Option<Change>)
    requires Tracked(s, latest)
    ensures Tracked(Next(s, Crash), latest)
  {
  }

  lemma BeginTracked(s: Sys, c: Cycle, latest: Option<Change>)
    requires Tracked(s, latest) && s.pc.Idle?
    ensures Tracked(OnBegin(s, c), latest)
  {
    hide Backoff;
  }

  lemma ResyncTracked(s: Sys, reply: Reply, effective: bool, latest: Option<Change>)
    requires Inside(s) && Tracked(s, latest) && Enabled(s, Post(reply, effective)) && s.pc.ResyncPost?
    ensures Tracked(OnPost(s, reply, effective), latest)
  {
    hide Manageable, Backoff;
  }

  lemma RestoreTracked(s: Sys, reply: Reply, effective: bool, latest: Option<Change>)
    requires Inside(s) && Tracked(s, latest) && Enabled(s, Post(reply, effective)) && s.pc.RestorePost?
    ensures Tracked(OnPost(s, reply, effective), latest)
  {
    hide Manageable, Backoff;
  }

  lemma EscrowTracked(s: Sys, reply: Reply, effective: bool, latest: Option<Change>)
    requires Inside(s) && Tracked(s, latest) && Enabled(s, Post(reply, effective)) && s.pc.EscrowPost?
    ensures Tracked(OnPost(s, reply, effective), latest)
  {
    hide Manageable, Backoff;
  }

  lemma StashTracked(s: Sys, ok: bool, latest: Option<Change>)
    requires Inside(s) && Tracked(s, latest) && s.pc.StashSave?
    ensures Tracked(OnSave(s, ok), latest)
  {
    hide Manageable, Backoff, Vetted;
  }

  lemma PhaseTracked(s: Sys, ok: bool, latest: Option<Change>)
    requires Inside(s) && Tracked(s, latest) && s.pc.PhaseSave?
    ensures Tracked(OnSave(s, ok), latest)
  {
    hide Manageable, Backoff, Vetted;
  }

  lemma OtherSaveTracked(s: Sys, ok: bool, latest: Option<Change>)
    requires Inside(s) && Tracked(s, latest) && (s.pc.Idle? || s.pc.ResyncSave? || s.pc.LastSave?)
    ensures Tracked(OnSave(s, ok), latest)
  {
    hide Manageable, Backoff, Vetted;
  }

  lemma LookTracked(s: Sys, found: Option<Option<View>>, latest: Option<Change>)
    requires Tracked(s, latest) && s.pc.Looking?
    ensures Tracked(OnLook(s, found), latest)
  {
    hide Manageable, Backoff;
  }

  lemma GenerateTracked(s: Sys, cred: Option<nat>, latest: Option<Change>)
    requires Tracked(s, latest) && s.pc.Generating?
    ensures Tracked(OnGenerate(s, cred), latest)
  {
    hide Manageable, Backoff;
  }

  lemma ChangeTracked(s: Sys, e: Event, latest: Option<Change>)
    requires Inside(s) && Tracked(s, latest) && Enabled(s, e) && Changes(e)
    ensures Tracked(Next(s, e), After(s, e, latest))
  {
    hide Manageable, Backoff, Managed;
  }

  lemma NoChangeTracked(s: Sys, e: Event, latest: Option<Change>)
    requires Inside(s) && Tracked(s, latest) && Enabled(s, e) && e.Apply? && !e.changed
    ensures Tracked(Next(s, e), latest)
  {
    hide Manageable, Backoff, Managed;
  }

  lemma TrackedKept(s: Sys, e: Event, latest: Option<Change>)
    requires Inside(s) && Tracked(s, latest) && Enabled(s, e)
    ensures Tracked(Next(s, e), After(s, e, latest))
  {
    assert Modern(s);
    hide Inside, Tracked, OnBegin, OnPost, OnSave, OnLook, OnGenerate, OnApply;
    match e
    case Crash => CrashTracked(s, latest);
    case Begin(c) => BeginTracked(s, c, latest);
    case Post(reply, effective) =>
      match s.pc {
        case ResyncPost => ResyncTracked(s, reply, effective, latest);
        case RestorePost => RestoreTracked(s, reply, effective, latest);
        case _ => EscrowTracked(s, reply, effective, latest);
      }
    case Save(ok) =>
      match s.pc {
        case StashSave(_, _, _) => StashTracked(s, ok, latest);
        case PhaseSave(_, _) => PhaseTracked(s, ok, latest);
        case _ => OtherSaveTracked(s, ok, latest);
      }
    case Look(found) => LookTracked(s, found, latest);
    case Generate(cred) => GenerateTracked(s, cred, latest);
    case Apply(_, changed, _, _) =>
      if changed {
        ChangeTracked(s, e, latest);
      } else {
        NoChangeTracked(s, e, latest);
      }
  }

  lemma {:induction false} RunTracked(s0: Sys, es: seq<Event>)
    requires Inside(s0) && Tracked(s0, None) && Exec(s0, es).Some?
    ensures Tracked(Exec(s0, es).value, Latest(s0, es))
  {
    if es != [] {
      var init := es[..|es| - 1];
      RunTracked(s0, init);
      InsideRun(s0, init);
      TrackedKept(Exec(s0, init).value, es[|es| - 1], Latest(s0, init));
      hide Tracked, Next, Enabled;
    }
  }

  // ----- Main result

  /**
   * From a state at rest that agrees with the world, over every run: whenever the agent has a record and no
   * stash, the record, the server and the account changed last agree if and only if the last change of a
   * password was neither uncertain nor followed by a crash before a successful save.
   */
  lemma AgreementIffRecorded(s0: Sys, es: seq<Event>, t: Sys)
    requires Rested(s0) && NotLegacy(s0.mem.pending) && Applied(s0.mem, s0.applied) && Exec(s0, es) == Some(t)
    requires t.mem.pending.None? && t.mem.current.Some?
    ensures Agreement(t, Latest(s0, es)) <==> !Unrecorded(es)
  {
    RunTracked(s0, es);
    RunKept(s0, es);
    LostIffUnrecorded(s0, es);
    hide Unrecorded, Inside;
  }

  /**
   * While the last change is not on record, its password is in place and nothing the agent keeps or the
   * server has shows it.
   */
  lemma UnrecordedIsMissed(s0: Sys, es: seq<Event>, t: Sys)
    requires Rested(s0) && NotLegacy(s0.mem.pending) && Applied(s0.mem, s0.applied) && Exec(s0, es) == Some(t)
    requires Unrecorded(es) && t.pc.Idle?
    ensures Latest(s0, es).Some?
    ensures var x := Latest(s0, es).value;
            && x.user in t.local && t.local[x.user].password == x.cred
            && (t.mem.current.Some? ==> t.mem.current.value.enc != Cipher(x.cred))
            && (t.mem.pending.None? ==> t.server != Some(Row(x.user, Cipher(x.cred))))
  {
    RunTracked(s0, es);
    LostIffUnrecorded(s0, es);
    hide Unrecorded;
  }

  /**
   * At rest, whatever stash there is: the account changed last has the password of the record exactly if that
   * change is on record, and then the record names that account.
   */
  lemma RecordInPlaceIffRecorded(s0: Sys, es: seq<Event>, t: Sys)
    requires Rested(s0) && NotLegacy(s0.mem.pending) && Applied(s0.mem, s0.applied) && Exec(s0, es) == Some(t)
    requires t.pc.Idle? && t.mem.current.Some?
    ensures Latest(s0, es).None? ==> !Unrecorded(es)
    ensures Latest(s0, es).Some? ==>
              (InPlace(t.local, Latest(s0, es).value.user, t.mem.current.value.enc) <==> !Unrecorded(es))
    ensures Latest(s0, es).Some? && !Unrecorded(es) ==> t.mem.current.value.user == Latest(s0, es).value.user
  {
    RunTracked(s0, es);
    LostIffUnrecorded(s0, es);
    hide Unrecorded;
  }
}
