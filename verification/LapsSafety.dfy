/** Write-ahead discipline, healing, untouched accounts and the rate of the POSTs. */
module LapsSafety {
  import opened Prelude
  import opened LapsMachine
  import opened LapsAlignment

  lemma {:induction false} InsideRun(s0: Sys, es: seq<Event>)
    requires Inside(s0) && Exec(s0, es).Some?
    ensures Inside(Exec(s0, es).value)
  {
    if es != [] {
      InsideRun(s0, es[..|es| - 1]);
      InsideKept(Exec(s0, es[..|es| - 1]).value, es[|es| - 1]);
    }
  }

  // ----- What an event leaves alone

  ghost predicate SameWorld(s: Sys, t: Sys) {
    t.local == s.local && t.applied == s.applied && s.accepted <= t.accepted
  }

  ghost predicate PendingShrinks(p: Option<Stash>, q: Option<Stash>) {
    q == p || q.None? || (p.Some? && q == Some(p.value.(phase := Escrowed)))
  }

  lemma PostFrame(s: Sys, reply: Reply, effective: bool)
    requires Enabled(s, Post(reply, effective))
    ensures var t := OnPost(s, reply, effective);
            && SameWorld(s, t) && t.disk == s.disk && !t.pc.StashSave? && t.mem.managed == s.mem.managed
            && PendingShrinks(s.mem.pending, t.mem.pending)
  {
    hide Manageable, Backoff;
    match s.pc
    case FlushPost =>
    case ResyncPost =>
    case EscrowPost(_, _) =>
    case RestorePost =>
  }

  /** Deciding what to do next touches nothing but the failure count and its deadline. */
  lemma DecideFrame(s: Sys, force: bool)
    ensures var t := Decide(s, force);
            t == s.(pc := t.pc, mem := s.mem.(failures := t.mem.failures, retryAfter := t.mem.retryAfter)) &&
            (t.pc.StashSave? ==> s.pc.StashSave?)
    ensures var t := StartRotation(s);
            t == s.(pc := t.pc, mem := s.mem.(failures := t.mem.failures, retryAfter := t.mem.retryAfter)) &&
            (t.pc.StashSave? ==> s.pc.StashSave?)
  {
  }

  lemma SaveFrame(s: Sys, ok: bool)
    requires Enabled(s, Save(ok))
    ensures var t := OnSave(s, ok);
            && SameWorld(s, t) && t.disk == (if ok then s.mem else s.disk) && !t.pc.StashSave?
               && t.mem.managed == s.mem.managed
            && (t.mem.pending == s.mem.pending
                || (s.pc.StashSave? && t.mem.pending == s.pc.previous)
                || (s.pc.PhaseSave? && s.mem.pending.Some?
                   && t.mem.pending == Some(s.mem.pending.value.(phase := Prepared))))
  {
    DecideFrame(if ok then s.(disk := s.mem, lostDisk := s.lostMem) else s, true);
    hide Decide, StartRotation, Backoff;
  }

  lemma OtherFrame(s: Sys, e: Event)
    requires Enabled(s, e) && !e.Post? && !e.Save? && !e.Apply?
    ensures var t := Next(s, e);
            && SameWorld(s, t) && t.disk == s.disk
               && (t.mem.managed == s.mem.managed || t.mem.managed == s.disk.managed)
  {
    hide Manageable;
  }

  // ----- Write-ahead discipline

  ghost predicate NotTried(p: Option<Stash>, applied: set<nat>) {
    IsPhase(p, Prepared) && p.value.enc.Cipher? ==> p.value.enc.cred !in applied
  }

  ghost predicate Untried(s: Sys) {
    NotTried(s.disk.pending, s.applied) && NotTried(s.mem.pending, s.applied) && NotTried(Settled(s).pending, s.applied)
  }

  lemma UntriedKept(s: Sys, e: Event)
    requires Inside(s) && Untried(s) && Enabled(s, e)
    ensures Untried(Next(s, e))
  {
    hide Manageable, Backoff, OnBegin, OnPost, OnSave, OnApply;
    match e
    case Crash =>
    case Begin(c) => UntriedBegin(s, c);
    case Post(reply, effective) => UntriedPost(s, reply, effective);
    case Save(ok) => UntriedSave(s, ok);
    case Look(found) =>
    case Generate(cred) =>
    case Apply(outcome, changed, sid, printed) => UntriedApply(s, outcome, changed, sid, printed);
  }

  lemma UntriedBegin(s: Sys, c: Cycle)
    requires Untried(s) && s.pc.Idle?
    ensures Untried(OnBegin(s, c))
  {
    hide Backoff;
  }

  lemma UntriedApply(s: Sys, outcome: Outcome, changed: bool, sid: Sid, printed: bool)
    requires Inside(s) && Untried(s) && s.pc.Applying?
    ensures Untried(OnApply(s, outcome, changed, sid, printed))
  {
    hide Manageable, Backoff, Changed, Managed;
  }

  lemma UntriedPost(s: Sys, reply: Reply, effective: bool)
    requires Inside(s) && Untried(s) && Enabled(s, Post(reply, effective))
    ensures Untried(OnPost(s, reply, effective))
  {
    PostFrame(s, reply, effective);
    hide OnPost, Manageable;
  }

  lemma UntriedSave(s: Sys, ok: bool)
    requires Inside(s) && Untried(s) && Enabled(s, Save(ok))
    ensures Untried(OnSave(s, ok))
  {
    SaveFrame(s, ok);
    hide OnSave, Manageable;
  }

  /**
   * In every reachable state: when a password is about to be applied the server holds exactly
   * it, the disk records it as escrowed and it was never applied before; a password the disk
   * records as prepared was never applied.
   */
  lemma {:induction false} WrittenAhead(s0: Sys, es: seq<Event>)
    requires s0.pc.Idle? && Untried(s0) && Exec(s0, es).Some?
    ensures var t := Exec(s0, es).value;
            t.pc.Applying? ==>
              && t.server == Some(Row(t.cycle.user, Cipher(t.pc.cred)))
              && IsStash(t.disk.pending, t.cycle.user, t.pc.cred, Escrowed)
              && t.pc.cred in t.accepted && t.pc.cred !in t.applied
    ensures var t := Exec(s0, es).value; Untried(t) && NotTried(t.disk.pending, t.applied)
  {
    InsideRun(s0, es);
    if es != [] {
      var init := es[..|es| - 1];
      WrittenAhead(s0, init);
      InsideRun(s0, init);
      UntriedKept(Exec(s0, init).value, es[|es| - 1]);
    }
  }

  // ----- Healing

  /** Whatever state the agent was in, misaligned included, a cycle that sets the password aligns everything again. */
  lemma SettingHeals(s0: Sys, es: seq<Event>, outcome: Outcome, sid: Sid, printed: bool)
    requires s0.pc.Idle? && Exec(s0, es).Some? && (outcome.SetOk? || outcome.SetPartial?)
    requires Enabled(Exec(s0, es).value, Apply(outcome, true, sid, printed))
    ensures var t := Next(Exec(s0, es).value, Apply(outcome, true, sid, printed));
            && t.pc.LastSave? && t.mem.pending.None? && t.mem.current.Some? && !t.lostMem
            && (var c := t.mem.current.value;
                && t.server == Some(Row(c.user, c.enc)) && c.enc.Cipher?
                && c.user in t.local && t.local[c.user].password == c.enc.cred)
            && (var u := Next(t, Save(true)); u.pc.Idle? && u.disk == u.mem == t.mem && !u.lostDisk)
  {
    InsideRun(s0, es);
    HealingApply(Exec(s0, es).value, outcome, sid, printed);
  }

  lemma HealingApply(s: Sys, outcome: Outcome, sid: Sid, printed: bool)
    requires Inside(s) && Enabled(s, Apply(outcome, true, sid, printed)) && (outcome.SetOk? || outcome.SetPartial?)
    ensures var t := OnApply(s, outcome, true, sid, printed);
            var c := Record(s.cycle.user, Cipher(s.pc.cred), s.cycle.now);
            && t.pc.LastSave? && t.mem.pending.None? && t.mem.current == Some(c) && !t.lostMem
            && t.server == Some(Row(c.user, c.enc))
            && c.user in t.local && t.local[c.user].password == s.pc.cred
  {
    hide Manageable, Backoff;
  }

  /** Every password in place is one that was there before or one the server had accepted. */
  ghost predicate OnlyAccepted(before: map<string, Account>, s: Sys) {
    forall u :: u in s.local ==>
      (u in before && before[u].password == s.local[u].password) || s.local[u].password in s.accepted
  }

  lemma {:induction false} AcceptedFrom(before: map<string, Account>, s0: Sys, es: seq<Event>)
    requires s0.pc.Idle? && OnlyAccepted(before, s0) && Exec(s0, es).Some?
    ensures OnlyAccepted(before, Exec(s0, es).value)
  {
    if es != [] {
      var init := es[..|es| - 1];
      AcceptedFrom(before, s0, init);
      InsideRun(s0, init);
      AcceptedStep(before, Exec(s0, init).value, es[|es| - 1]);
    }
  }

  lemma PasswordsWereAccepted(s0: Sys, es: seq<Event>)
    requires s0.pc.Idle? && Exec(s0, es).Some?
    ensures OnlyAccepted(s0.local, Exec(s0, es).value)
  {
    AcceptedFrom(s0.local, s0, es);
  }

  lemma AcceptedStep(before: map<string, Account>, s: Sys, e: Event)
    requires Inside(s) && OnlyAccepted(before, s) && Enabled(s, e)
    ensures OnlyAccepted(before, Next(s, e))
  {
    match e
    case Post(reply, effective) => PostFrame(s, reply, effective);
    case Save(ok) => SaveFrame(s, ok);
    case Apply(outcome, changed, sid, printed) => AcceptedApply(before, s, outcome, changed, sid, printed);
    case _ => OtherFrame(s, e);
  }

  lemma AcceptedApply(before: map<string, Account>, s: Sys, outcome: Outcome, changed: bool, sid: Sid, printed: bool)
    requires Inside(s) && OnlyAccepted(before, s) && Enabled(s, Apply(outcome, changed, sid, printed))
    ensures OnlyAccepted(before, OnApply(s, outcome, changed, sid, printed))
  {
    hide Manageable;
  }

  // ----- Accounts the agent did not create

  ghost predicate DistinctSids(local: map<string, Account>) {
    forall u, v :: u in local && v in local && u != v ==> local[u].sid != local[v].sid
  }

  /** A name that many machines have an administrator under. */
  predicate Sensitive(user: string) {
    Lower(Trim(user)) in ["administrator", "administrateur", "admin", "root", "system"]
  }

  /** A name that is refused, or a SID that is no local one or that of a built-in account. */
  predicate Untouchable(user: string, sid: Sid) {
    Sensitive(user) || sid.OtherSid? || sid.rid < 1000
  }

  /** The agent set the account up, or its predecessors did: they left their description on it. */
  predicate Own(v: View, managed: seq<Sid>) {
    v.sid in managed || Trim(v.description) == "Opale recovery account (LAPS-rotated)"
  }

  lemma DescriptionIsTrimmed()
    ensures Trim(ACCOUNT_DESCRIPTION) == ACCOUNT_DESCRIPTION != ""
  {
    var d := ACCOUNT_DESCRIPTION;
    assert d[0] == 'O' && d[|d| - 1] == ')';
    assert TrimLeft(d) == d && TrimRight(d) == d;
  }

  /**
   * Where the account was looked at, the agent goes on exactly if the name is allowed and the account is
   * absent, or is a local one that is not built in and is its own. If it does not, a failure is counted and
   * nothing else changes.
   */
  lemma LookDecides(s: Sys, found: Option<Option<View>>)
    requires Enabled(s, Look(found))
    ensures Next(s, Look(found)).pc.Generating? <==>
              && found.Some? && !Sensitive(s.cycle.user)
              && (found.value.Some? ==>
                    !Untouchable(s.cycle.user, found.value.value.sid) && Own(found.value.value, s.mem.managed))
    ensures !Next(s, Look(found)).pc.Generating? ==>
              Next(s, Look(found)) == s.(mem := Fail(s.mem, s.cycle.now), pc := LastSave)
    ensures Next(s, Look(found)).pc.Generating? ==> Next(s, Look(found)) == s.(pc := Generating(found.value))
  {
    DescriptionIsTrimmed();
    hide Trim, Lower, Fail;
  }

  /** An account that is untouchable, or that neither memory nor disk nor its description says is the agent's. */
  ghost predicate Foreign(s: Sys, user: string) {
    && user in s.local
    && var v := View(s.local[user].sid, s.local[user].description);
       Untouchable(user, v.sid) || (!Own(v, s.mem.managed) && !Own(v, s.disk.managed))
  }

  ghost predicate Recorded(s: Sys, sid: Sid) {
    sid in s.mem.managed || sid in s.disk.managed
  }

  /** The account is as it was, and its SID is recorded only if it was. */
  ghost predicate LeftAlone(s: Sys, t: Sys, user: string) {
    && user in s.local && user in t.local && t.local[user] == s.local[user]
    && (Recorded(t, s.local[user].sid) ==> Recorded(s, s.local[user].sid))
  }

  lemma ForeignStep(s: Sys, e: Event, user: string)
    requires Inside(s) && DistinctSids(s.local) && Foreign(s, user) && Enabled(s, e)
    ensures var t := Next(s, e); Foreign(t, user) && LeftAlone(s, t, user) && DistinctSids(t.local)
  {
    match e
    case Post(reply, effective) => PostFrame(s, reply, effective);
    case Save(ok) => SaveFrame(s, ok);
    case Apply(outcome, changed, sid, printed) => ForeignApply(s, outcome, changed, sid, printed, user);
    case _ => OtherFrame(s, e);
  }

  /** An account that is about to be changed is not foreign. */
  lemma ForeignNotChosen(s: Sys, user: string, sid: Sid)
    requires Inside(s) && s.pc.Applying? && Foreign(s, user) && ChangePossible(s, s.pc.acct, sid)
    ensures s.cycle.user != user
  {
    DescriptionIsTrimmed();
    hide Trim, Lower;
  }

  lemma ApplyFrame(s: Sys, outcome: Outcome, changed: bool, sid: Sid, printed: bool)
    requires Enabled(s, Apply(outcome, changed, sid, printed))
    ensures var t := OnApply(s, outcome, changed, sid, printed);
            && t.disk == s.disk && t.local == (if changed then Changed(s, sid, s.pc.cred) else s.local)
            && (t.mem.managed == s.mem.managed
                || (changed && t.mem.managed == RecordSid(s.mem.managed, sid)))
  {
    hide Manageable, Backoff, Changed, RecordSid;
  }

  lemma ForeignApply(s: Sys, outcome: Outcome, changed: bool, sid: Sid, printed: bool, user: string)
    requires Inside(s) && DistinctSids(s.local) && Foreign(s, user) && Enabled(s, Apply(outcome, changed, sid, printed))
    ensures var t := OnApply(s, outcome, changed, sid, printed);
            Foreign(t, user) && LeftAlone(s, t, user) && DistinctSids(t.local)
  {
    ApplyFrame(s, outcome, changed, sid, printed);
    if changed {
      ForeignNotChosen(s, user, sid);
      hide OnApply, Manageable, Inside, Untouchable, Trim, OutcomeSound;
    } else {
      hide OnApply, Manageable, Inside, Untouchable, Trim, OutcomeSound, ChangePossible;
    }
  }

  /**
   * Over every run, the accounts that are somebody else's keep their passwords and are never recorded: those
   * with a refused name, a SID that is no local one or an RID below 1000, and those that neither the lists of
   * SIDs nor the description says are the agent's.
   */
  lemma {:induction false} ForeignAccountsUntouched(s0: Sys, es: seq<Event>, user: string)
    requires s0.pc.Idle? && DistinctSids(s0.local) && Foreign(s0, user) && Exec(s0, es).Some?
    ensures var t := Exec(s0, es).value; Foreign(t, user) && LeftAlone(s0, t, user) && DistinctSids(t.local)
  {
    if es != [] {
      var init := es[..|es| - 1];
      ForeignAccountsUntouched(s0, init, user);
      InsideRun(s0, init);
      ForeignStep(Exec(s0, init).value, es[|es| - 1], user);
      hide Foreign, Inside, Next, Enabled;
    }
  }

  /**
   * An account whose password was set is the agent's own from then on: its SID is recorded, unless the script
   * created it and did not print one, and then it has the description.
   */
  lemma SetAccountIsOwn(s: Sys, outcome: Outcome, sid: Sid, printed: bool)
    requires Inside(s) && Enabled(s, Apply(outcome, true, sid, printed)) && (outcome.SetOk? || outcome.SetPartial?)
    ensures var t := Next(s, Apply(outcome, true, sid, printed));
            && s.cycle.user in t.local && t.local[s.cycle.user].sid == sid
            && (printed || s.pc.acct.Some? ==> sid in t.mem.managed)
            && Own(View(sid, t.local[s.cycle.user].description), t.mem.managed)
  {
    DescriptionIsTrimmed();
    hide Manageable, Backoff, Trim, Inside;
  }

  /** No account with a sensitive name is ever created. */
  lemma {:induction false} BannedNamesNeverCreated(s0: Sys, es: seq<Event>, user: string)
    requires s0.pc.Idle? && user !in s0.local && Sensitive(user) && Exec(s0, es).Some?
    ensures user !in Exec(s0, es).value.local
  {
    if es != [] {
      var init, e := es[..|es| - 1], es[|es| - 1];
      BannedNamesNeverCreated(s0, init, user);
      InsideRun(s0, init);
      var s := Exec(s0, init).value;
      match e
      case Post(reply, effective) => PostFrame(s, reply, effective);
      case Save(ok) => SaveFrame(s, ok);
      case Apply(outcome, changed, sid, printed) => assert s.cycle.user != user;
      case _ => OtherFrame(s, e);
    }
  }

  // ----- Accounts under management

  ghost predicate Distinct(sids: seq<Sid>) {
    forall i, j :: 0 <= i < j < |sids| ==> sids[i] != sids[j]
  }

  /** A SID is known afterwards, the others as before and in the same order, none twice. */
  lemma RecordedOnce(managed: seq<Sid>, sid: Sid)
    ensures var r := RecordSid(managed, sid);
            && managed <= r && sid in r && |r| <= |managed| + 1 && (sid in managed ==> r == managed)
            && (Distinct(managed) ==> Distinct(r))
  {
  }

  ghost predicate Managing(s: Sys) {
    s.disk.managed <= s.mem.managed && Distinct(s.mem.managed)
  }

  lemma ManagingApply(s: Sys, outcome: Outcome, changed: bool, sid: Sid, printed: bool)
    requires Managing(s) && s.pc.Applying?
    ensures var t := OnApply(s, outcome, changed, sid, printed); Managing(t) && t.disk == s.disk
  {
    hide Manageable, Backoff, Changed, RecordSid;
    RecordedOnce(s.mem.managed, sid);
    if s.pc.acct.Some? {
      RecordedOnce(s.mem.managed, s.pc.acct.value.sid);
    }
  }

  lemma ManagingStep(s: Sys, e: Event)
    requires Managing(s) && Enabled(s, e)
    ensures Managing(Next(s, e)) && s.disk.managed <= Next(s, e).disk.managed
  {
    match e
    case Post(reply, effective) => PostFrame(s, reply, effective);
    case Save(ok) => SaveFrame(s, ok);
    case Apply(outcome, changed, sid, printed) => ManagingApply(s, outcome, changed, sid, printed);
    case Crash =>
      assert forall i, j :: 0 <= i < j < |s.disk.managed| ==>
            s.disk.managed[i] == s.mem.managed[i] && s.disk.managed[j] == s.mem.managed[j];
    case _ => ManagedKept(s, e);
  }

  lemma ManagedKept(s: Sys, e: Event)
    requires Enabled(s, e) && (e.Begin? || e.Look? || e.Generate?)
    ensures Next(s, e).mem.managed == s.mem.managed && Next(s, e).disk == s.disk
  {
    hide Manageable, Backoff;
  }

  /** Over every run: no SID is recorded twice, and what the disk records stays recorded, in order. */
  lemma {:induction false} ManagedOnlyGrows(s0: Sys, es: seq<Event>)
    requires Managing(s0) && Exec(s0, es).Some?
    ensures var t := Exec(s0, es).value; Managing(t) && s0.disk.managed <= t.disk.managed
  {
    if es != [] {
      var init := es[..|es| - 1];
      ManagedOnlyGrows(s0, init);
      ManagingStep(Exec(s0, init).value, es[|es| - 1]);
      hide Next, Enabled, Managing;
    }
  }

  // ----- Saves that a crash undoes

  /** After a crash the agent is at rest with whatever state.json holds then. */
  ghost function Restarted(s: Sys, st: State): Sys {
    s.(pc := Idle, mem := st, disk := st, posts := 0, done := false)
  }

  /**
   * Even if a crash brings back a state.json of any age, or any other, every password in place was there at
   * first or accepted by the server, and no account with a sensitive name was created.
   */
  lemma AcceptedAcrossAnyRestart(s0: Sys, es: seq<Event>, st: State, fs: seq<Event>, user: string)
    requires s0.pc.Idle? && Exec(s0, es).Some? && Exec(Restarted(Exec(s0, es).value, st), fs).Some?
    ensures OnlyAccepted(s0.local, Exec(Restarted(Exec(s0, es).value, st), fs).value)
    ensures user !in s0.local && Sensitive(user) ==>
              user !in Exec(Restarted(Exec(s0, es).value, st), fs).value.local
  {
    var s := Restarted(Exec(s0, es).value, st);
    PasswordsWereAccepted(s0, es);
    AcceptedFrom(s0.local, s, fs);
    if user !in s0.local && Sensitive(user) {
      BannedNamesNeverCreated(s0, es, user);
      BannedNamesNeverCreated(s, fs, user);
    }
  }
}
