/** When a rotation is due, what a cycle does about it, and what it leaves in memory, from the facts of the state. */
module LapsDecisions {
  import opened Prelude
  import opened LapsMachine
  import opened LapsAlignment
  import opened LapsSafety
  import LapsRate

  // ----- When a cycle acts

  /** The deadline of the backoff is ahead, by a day at most. */
  predicate Waiting(s: Sys, now: nat) {
    s.mem.retryAfter > now && s.mem.retryAfter - now <= 24 * 3600
  }

  /** The first step a rotation takes, if its cycle has c and nothing is to be given back to the server first. */
  predicate AtFirstStep(s: Sys, t: Sys, c: Cycle) {
    if c.user == "" then
      t.pc.LastSave? && t.mem == s.mem.(failures := s.mem.failures + 1, retryAfter := t.mem.retryAfter)
    else t.pc.Looking? && t.mem == s.mem
  }

  /** A prepared stash with a readable record: the server gets the recorded password back first. */
  predicate GivesBack(st: State) {
    st.pending.Some? && st.pending.value.phase.Prepared? && st.current.Some? && st.current.value.enc.Cipher?
  }

  /**
   * Without a legacy stash, a cycle acts exactly if it need not wait, there are accounts, and a rotation was
   * interrupted, none was ever done, or thirty days have passed since.
   */
  lemma ActsIff(s: Sys, c: Cycle)
    requires s.pc.Idle? && !IsPhase(s.mem.pending, Legacy)
    ensures var t := Next(s, Begin(c));
            !t.pc.Idle? <==>
              && !Waiting(s, c.now) && c.accounts
              && (s.mem.pending.Some? || s.mem.lastRotation == 0 || c.now - s.mem.lastRotation >= 30 * 24 * 3600)
    ensures var t := Next(s, Begin(c)); t.pc.Idle? ==> t == s.(cycle := c, posts := 0, done := false)
    ensures var t := Next(s, Begin(c));
            !t.pc.Idle? ==> if GivesBack(s.mem) then t.pc.ResyncPost? && t.mem == s.mem else AtFirstStep(s, t, c)
    ensures Next(s, Begin(c)).local == s.local && Next(s, Begin(c)).disk == s.disk
  {
    hide Backoff;
  }

  /** The step before the rotation proper leaves the rest of the rotation to do. */
  lemma AfterGivingBack(s: Sys, reply: Reply, effective: bool, ok: bool)
    requires s.pc.ResyncPost? && Enabled(s, Post(reply, effective))
    ensures var t := Next(s, Post(reply, effective));
            if reply.Accepted? then
              && t.pc.ResyncSave? && t.mem == s.mem.(pending := None)
              && AtFirstStep(t, Next(t, Save(ok)), s.cycle)
            else AtFirstStep(s, t, s.cycle)
  {
    hide Backoff;
  }

  // ----- The stash of an old agent

  /** A legacy stash is dropped if a later rotation made it stale or it cannot be sent, and sent otherwise. */
  lemma LegacyDecides(s: Sys, c: Cycle)
    requires s.pc.Idle? && IsPhase(s.mem.pending, Legacy) && !Waiting(s, c.now)
    ensures var t, p := Next(s, Begin(c)), s.mem.pending.value;
            if s.mem.lastRotation > p.at then t.pc.LastSave? && t.mem == s.mem.(pending := None)
            else if p.enc.Unreadable? || p.user == "" then t.pc.DropSave? && t.mem == s.mem.(pending := None)
            else t.pc.FlushPost? && t.mem == s.mem && Target(t) == Some(Row(p.user, p.enc))
  {
  }

  /** Accepted, it becomes the record and counts as a rotation; refused for good, it is dropped; else it is kept. */
  lemma LegacyAnswered(s: Sys, reply: Reply, effective: bool)
    requires s.pc.FlushPost? && Enabled(s, Post(reply, effective))
    ensures var t, p := Next(s, Post(reply, effective)), s.mem.pending.value;
            match reply
            case Accepted =>
              t.pc.LastSave? && t.mem == s.mem.(pending := None, current := Some(Record(p.user, p.enc, s.cycle.now)),
                                                lastRotation := s.cycle.now, failures := 0, retryAfter := 0)
            case Refused(permanent) =>
              if permanent then t.pc.DropSave? && t.mem == s.mem.(pending := None)
              else t.pc.LastSave? && t.mem == s.mem.(failures := s.mem.failures + 1, retryAfter := t.mem.retryAfter)
  {
    hide Backoff;
  }

  /** After a stash was dropped unsent a rotation follows in the same cycle, due or not, wherever there are accounts. */
  lemma DroppedStashForces(s: Sys, ok: bool)
    requires s.pc.DropSave? && s.mem.pending.None?
    ensures var t := Next(s, Save(ok));
            if s.cycle.accounts then AtFirstStep(s, t, s.cycle) else t.pc.Idle? && t.mem == s.mem
  {
    hide Backoff;
  }

  // ----- What failures leave

  /** A failure is counted and saved; the rest of the memory is st. */
  predicate CountsFailure(t: Sys, st: State) {
    t.pc.LastSave? && t.mem == st.(failures := st.failures + 1, retryAfter := t.mem.retryAfter)
  }

  /** The recorded password goes back to the server if there is one that can be read; else the failure is counted. */
  predicate GoesBack(t: Sys, st: State) {
    if st.current.Some? && st.current.value.enc.Cipher? then t.pc.RestorePost? && t.mem == st else CountsFailure(t, st)
  }

  /** The escrow of a new password: refused, its stash stays prepared. */
  lemma EscrowAnswered(s: Sys, reply: Reply, effective: bool)
    requires s.pc.EscrowPost? && s.mem.pending.Some? && Enabled(s, Post(reply, effective))
    ensures var t := Next(s, Post(reply, effective));
            if reply.Accepted? then
              && t.pc == PhaseSave(s.pc.acct, s.pc.cred)
              && t.mem == s.mem.(pending := Some(s.mem.pending.value.(phase := Escrowed)))
            else CountsFailure(t, s.mem)
  {
    hide Backoff;
  }

  /** The stash of a new password: not saved, the one before it is back and a failure counted, without a save. */
  lemma StashSaved(s: Sys, ok: bool)
    requires s.pc.StashSave?
    ensures var t := Next(s, Save(ok));
            if ok then t.pc == EscrowPost(s.pc.acct, s.pc.cred) && t.mem == s.mem
            else
              && t.pc.Idle? && t.mem.pending == s.pc.previous
              && t.mem == s.mem.(pending := s.pc.previous, failures := s.mem.failures + 1,
                                 retryAfter := t.mem.retryAfter)
  {
    hide Backoff;
  }

  /** The phase before the application: not saved, nothing is applied and the stash is prepared again. */
  lemma PhaseSaved(s: Sys, ok: bool)
    requires s.pc.PhaseSave? && s.mem.pending.Some?
    ensures var t := Next(s, Save(ok));
            if ok then t.pc == Applying(s.pc.acct, s.pc.cred) && t.mem == s.mem
            else GoesBack(t, s.mem.(pending := Some(s.mem.pending.value.(phase := Prepared))))
  {
    hide Backoff;
  }

  /** A password that was not set sends the recorded one back; of an uncertain one nothing is undone. */
  lemma NotSet(s: Sys, e: Event)
    requires s.pc.Applying? && Enabled(s, e) && e.Apply? && (e.outcome.SetUnchanged? || e.outcome.SetUncertain?)
    ensures if e.outcome.SetUnchanged? then GoesBack(Next(s, e), s.mem) else CountsFailure(Next(s, e), s.mem)
  {
    hide Backoff, Changed;
  }

  /** The recorded password is with the server again: the stash is settled. The failure is counted either way. */
  lemma RestoreAnswered(s: Sys, reply: Reply, effective: bool)
    requires s.pc.RestorePost? && Enabled(s, Post(reply, effective))
    ensures CountsFailure(Next(s, Post(reply, effective)), if reply.Accepted? then s.mem.(pending := None) else s.mem)
  {
    hide Backoff;
  }

  // ----- What a cycle leaves in memory

  /** A rotation that ends well, or a legacy stash that the server takes. */
  predicate Succeeds(s: Sys, e: Event) {
    (e.Apply? && e.outcome.SetOk?) || (s.pc.FlushPost? && e.Post? && e.reply.Accepted?)
  }

  ghost predicate Succeeded(s: Sys, es: seq<Event>)
    requires Exec(s, es).Some?
  {
    es != [] && (Succeeded(s, es[..|es| - 1]) || Succeeds(Exec(s, es[..|es| - 1]).value, es[|es| - 1]))
  }

  /** Neither a crash nor the beginning of another cycle. */
  ghost predicate OneCycle(es: seq<Event>) {
    forall e :: e in es ==> !e.Crash? && !e.Begin?
  }

  predicate Unchanged(s: Sys, t: Sys) {
    t.mem.failures == s.mem.failures && t.mem.retryAfter == s.mem.retryAfter
  }

  /** One failure more, and a wait for it that starts with the cycle. */
  predicate Penalised(s: Sys, t: Sys) {
    t.mem.failures == s.mem.failures + 1 && t.mem.retryAfter == t.cycle.now + Backoff(t.mem.failures)
  }

  /** Why a cycle that is over may have changed nothing: it had nothing to do, or only a stash to drop. */
  ghost predicate NothingToDo(s: Sys, c: Cycle, st: State) {
    || (st == s.mem
        && (Waiting(s, c.now) || !c.accounts
            || (s.mem.pending.None? && s.mem.lastRotation != 0 && c.now - s.mem.lastRotation < 30 * 24 * 3600)))
    || (IsPhase(s.mem.pending, Legacy) && st == s.mem.(pending := None)
        && (s.mem.lastRotation > s.mem.pending.value.at || !c.accounts))
  }

  ghost predicate Ended(s: Sys, succeeded: bool, t: Sys) {
    if succeeded then
      t.mem.lastRotation == t.cycle.now && t.mem.failures == 0 && t.mem.retryAfter == 0 && t.mem.pending.None?
    else
      && t.mem.lastRotation == s.mem.lastRotation
      && (Penalised(s, t) || (Unchanged(s, t) && NothingToDo(s, t.cycle, t.mem)))
  }

  /** Besides: a stash that is being dropped was the one s had, and the rest is as s had it. */
  ghost predicate Underway(s: Sys, succeeded: bool, t: Sys) {
    && !succeeded && t.mem.lastRotation == s.mem.lastRotation && Unchanged(s, t)
    && (t.pc.DropSave? ==> IsPhase(s.mem.pending, Legacy) && t.mem == s.mem.(pending := None))
    && (t.pc.FlushPost? ==> t.mem == s.mem && IsPhase(s.mem.pending, Legacy))
  }

  ghost predicate Progress(s: Sys, succeeded: bool, t: Sys) {
    if t.pc.Idle? || t.pc.LastSave? then Ended(s, succeeded, t) else Underway(s, succeeded, t)
  }

  lemma ProgressPost(s: Sys, succeeded: bool, t: Sys, reply: Reply, effective: bool)
    requires Progress(s, succeeded, t) && Enabled(t, Post(reply, effective))
    ensures Progress(s, succeeded || Succeeds(t, Post(reply, effective)), OnPost(t, reply, effective))
    ensures OnPost(t, reply, effective).cycle == t.cycle
  {
    hide Backoff, Manageable, Waiting;
  }

  lemma ProgressSave(s: Sys, succeeded: bool, t: Sys, ok: bool)
    requires Progress(s, succeeded, t) && Enabled(t, Save(ok))
    ensures Progress(s, succeeded, OnSave(t, ok)) && OnSave(t, ok).cycle == t.cycle
  {
    hide Progress, OnSave;
    if t.pc.StashSave? || t.pc.PhaseSave? {
      ProgressWriteAhead(s, succeeded, t, ok);
    } else if t.pc.DropSave? {
      ProgressDrop(s, succeeded, t, ok);
    } else {
      ProgressOtherSave(s, succeeded, t, ok);
    }
  }

  lemma ProgressOtherSave(s: Sys, succeeded: bool, t: Sys, ok: bool)
    requires Progress(s, succeeded, t) && (t.pc.Idle? || t.pc.ResyncSave? || t.pc.LastSave?)
    ensures Progress(s, succeeded, OnSave(t, ok)) && OnSave(t, ok).cycle == t.cycle
  {
    hide Backoff, Manageable, NothingToDo, Decide;
  }

  lemma ProgressDrop(s: Sys, succeeded: bool, t: Sys, ok: bool)
    requires Progress(s, succeeded, t) && t.pc.DropSave?
    ensures Progress(s, succeeded, OnSave(t, ok)) && OnSave(t, ok).cycle == t.cycle
  {
    hide Backoff, Manageable, Waiting;
  }

  lemma ProgressWriteAhead(s: Sys, succeeded: bool, t: Sys, ok: bool)
    requires Progress(s, succeeded, t) && (t.pc.StashSave? || t.pc.PhaseSave?)
    ensures Progress(s, succeeded, OnSave(t, ok)) && OnSave(t, ok).cycle == t.cycle
  {
    hide Backoff, Manageable, Waiting, Decide, StartRotation, NothingToDo;
  }

  lemma ProgressApply(s: Sys, succeeded: bool, t: Sys, e: Event)
    requires Progress(s, succeeded, t) && Enabled(t, e) && e.Apply?
    ensures Progress(s, succeeded || Succeeds(t, e), Next(t, e)) && Next(t, e).cycle == t.cycle
  {
    hide Backoff, Manageable, Changed, Managed, Waiting;
  }

  lemma ProgressKept(s: Sys, succeeded: bool, t: Sys, e: Event)
    requires Progress(s, succeeded, t) && Enabled(t, e) && !e.Crash? && !e.Begin?
    ensures Progress(s, succeeded || Succeeds(t, e), Next(t, e)) && Next(t, e).cycle == t.cycle
  {
    match e
    case Post(reply, effective) => ProgressPost(s, succeeded, t, reply, effective);
    case Save(ok) => ProgressSave(s, succeeded, t, ok);
    case Apply(_, _, _, _) => ProgressApply(s, succeeded, t, e);
    case _ =>
      hide Backoff, Manageable, Waiting, OnPost, OnSave, OnApply;
  }

  lemma ProgressBegins(s: Sys, c: Cycle)
    requires s.pc.Idle?
    ensures Progress(s, false, Next(s, Begin(c))) && Next(s, Begin(c)).cycle == c
  {
    hide Backoff;
  }

  lemma {:induction false} RunProgress(s: Sys, c: Cycle, es: seq<Event>)
    requires s.pc.Idle? && OneCycle(es) && Exec(Next(s, Begin(c)), es).Some?
    ensures Progress(s, Succeeded(Next(s, Begin(c)), es), Exec(Next(s, Begin(c)), es).value)
    ensures Exec(Next(s, Begin(c)), es).value.cycle == c
  {
    var u := Next(s, Begin(c));
    if es == [] {
      ProgressBegins(s, c);
    } else {
      var init, e := es[..|es| - 1], es[|es| - 1];
      RunProgress(s, c, init);
      assert e in es;
      ProgressKept(s, Succeeded(u, init), Exec(u, init).value, e);
      hide Next, Enabled, Progress, Succeeds;
    }
  }

  /**
   * Over every cycle that ends without a crash: if its rotation, or the sending of a legacy stash, ended well,
   * the rotation is dated and the backoff reset; if not, the date stays, and one failure is counted and waited
   * for, unless there was nothing to do or only a stash to drop.
   */
  lemma CycleOutcome(s: Sys, c: Cycle, es: seq<Event>, t: Sys)
    requires s.pc.Idle? && OneCycle(es) && Exec(Next(s, Begin(c)), es) == Some(t) && t.pc.Idle?
    ensures t.cycle == c && Ended(s, Succeeded(Next(s, Begin(c)), es), t)
  {
    RunProgress(s, c, es);
  }

  // ----- A rotation to its end

  /** What a look at the account shows. */
  function Sight(s: Sys, user: string): Option<View> {
    if user in s.local then Some(View(s.local[user].sid, s.local[user].description)) else None
  }

  /** The rotation of an account that nothing refuses, and in which nothing fails. */
  ghost function Smooth(s: Sys, c: Cycle, cred: nat, sid: Sid): seq<Event> {
    var acct := Sight(s, c.user);
    (if GivesBack(s.mem) then [Begin(c), Post(Accepted, true), Save(true)] else [Begin(c)])
    + [Look(Some(acct)), Generate(Some(cred)), Save(true), Post(Accepted, true), Save(true),
       Apply(SetOk, true, sid, true), Save(true)]
  }

  lemma Extend(s0: Sys, es: seq<Event>, s: Sys, e: Event) returns (fs: seq<Event>, t: Sys)
    requires Exec(s0, es) == Some(s) && Enabled(s, e)
    ensures fs == es + [e] && t == Next(s, e) && Exec(s0, fs) == Some(t)
  {
    fs, t := es + [e], Next(s, e);
    assert fs[..|fs| - 1] == es;
  }

  lemma SmoothParts(s: Sys, c: Cycle, cred: nat, sid: Sid)
    ensures Smooth(s, c, cred, sid) ==
            (if GivesBack(s.mem) then [Begin(c), Post(Accepted, true), Save(true)] else [Begin(c)])
            + [Look(Some(Sight(s, c.user)))] + [Generate(Some(cred)), Save(true), Post(Accepted, true), Save(true)]
            + [Apply(SetOk, true, sid, true), Save(true)]
  {
    hide Sight, GivesBack;
  }

  lemma SmoothStart(s: Sys, c: Cycle) returns (es: seq<Event>, t: Sys)
    requires s.pc.Idle? && !IsPhase(s.mem.pending, Legacy) && !Waiting(s, c.now) && c.accounts && c.user != ""
    requires s.mem.pending.Some? || s.mem.lastRotation == 0 || c.now - s.mem.lastRotation >= 30 * 24 * 3600
    ensures es == (if GivesBack(s.mem) then [Begin(c), Post(Accepted, true), Save(true)] else [Begin(c)])
    ensures Exec(s, es) == Some(t) && t.pc.Looking? && t.cycle == c && t.local == s.local && t.applied == s.applied
    ensures t.mem.managed == s.mem.managed
  {
    es, t := Extend(s, [], s, Begin(c));
    ActsIff(s, c);
    assert t.cycle == c && t.applied == s.applied;
    hide OnBegin, Backoff;
    if GivesBack(s.mem) {
      es, t := Extend(s, es, t, Post(Accepted, true));
      es, t := Extend(s, es, t, Save(true));
    }
  }

  /** Where nothing refuses the account. */
  ghost predicate Settable(s: Sys, user: string, sid: Sid) {
    && !Sensitive(user)
    && if user in s.local then
         && s.local[user].sid == sid && !Untouchable(user, sid)
         && Own(View(sid, s.local[user].description), s.mem.managed)
       else forall u :: u in s.local ==> s.local[u].sid != sid
  }

  lemma SmoothLook(s0: Sys, es: seq<Event>, s: Sys, acct: Option<View>, sid: Sid) returns (fs: seq<Event>, t: Sys)
    requires Exec(s0, es) == Some(s) && s.pc.Looking? && Settable(s, s.cycle.user, sid)
    requires acct == Sight(s, s.cycle.user)
    ensures fs == es + [Look(Some(acct))] && Exec(s0, fs) == Some(t) && t == s.(pc := Generating(acct))
    ensures ChangePossible(t, acct, sid)
  {
    LookDecides(s, Some(acct));
    hide Trim, Lower, Own, Untouchable, OnLook, Exec;
    fs, t := Extend(s0, es, s, Look(Some(acct)));
  }

  lemma SmoothApplying(s0: Sys, es: seq<Event>, s: Sys, sid: Sid) returns (fs: seq<Event>, t: Sys)
    requires Exec(s0, es) == Some(s) && s.pc.Applying? && ChangePossible(s, s.pc.acct, sid)
    ensures fs == es + [Apply(SetOk, true, sid, true), Save(true)] && Exec(s0, fs) == Some(t) && t.pc.Idle?
    ensures t.mem == t.disk == State(None, Some(Record(s.cycle.user, Cipher(s.pc.cred), s.cycle.now)), s.cycle.now,
                                     RecordSid(s.mem.managed, sid), 0, 0)
    ensures t.server == s.server && s.cycle.user in t.local
            && t.local[s.cycle.user].password == s.pc.cred && t.local[s.cycle.user].sid == sid
  {
    hide OnBegin, OnPost, Backoff, RecordSid;
    fs, t := Extend(s0, es, s, Apply(SetOk, true, sid, true));
    fs, t := Extend(s0, fs, t, Save(true));
  }

  lemma SmoothSetting(s0: Sys, es: seq<Event>, s: Sys, cred: nat) returns (fs: seq<Event>, t: Sys)
    requires Exec(s0, es) == Some(s) && s.pc.Generating? && cred !in s.applied
    ensures fs == es + [Generate(Some(cred)), Save(true), Post(Accepted, true), Save(true)] && Exec(s0, fs) == Some(t)
    ensures t.pc == Applying(s.pc.acct, cred) && t.cycle == s.cycle && t.local == s.local
    ensures t.server == Some(Row(s.cycle.user, Cipher(cred))) && t.mem.managed == s.mem.managed
  {
    hide OnBegin, OnApply, OnLook, Backoff, Exec, CanRestore, Decide;
    fs, t := Extend(s0, es, s, Generate(Some(cred)));
    fs, t := Extend(s0, fs, t, Save(true));
    fs, t := Extend(s0, fs, t, Post(Accepted, true));
    fs, t := Extend(s0, fs, t, Save(true));
  }

  /**
   * From any state at rest without a legacy stash, in which a cycle acts on an account it may set: if nothing
   * fails, server, account and record end with the new password, the rotation is dated, the account recorded,
   * nothing is pending, no failure is left, and all of it is on disk.
   */
  lemma DueRotationSucceeds(s: Sys, c: Cycle, cred: nat, sid: Sid) returns (t: Sys)
    requires s.pc.Idle? && !IsPhase(s.mem.pending, Legacy) && !Waiting(s, c.now) && c.accounts && c.user != ""
    requires s.mem.pending.Some? || s.mem.lastRotation == 0 || c.now - s.mem.lastRotation >= 30 * 24 * 3600
    requires cred !in s.applied && Settable(s, c.user, sid)
    ensures Exec(s, Smooth(s, c, cred, sid)) == Some(t) && t.pc.Idle? && t.mem == t.disk
    ensures t.mem == State(None, Some(Record(c.user, Cipher(cred), c.now)), c.now, RecordSid(s.mem.managed, sid), 0, 0)
    ensures t.server == Some(Row(c.user, Cipher(cred))) && c.user in t.local && t.local[c.user].password == cred
    ensures t.local[c.user].sid == sid
  {
    var es;
    es, t := SmoothStart(s, c);
    assert Settable(t, c.user, sid) && Sight(t, c.user) == Sight(s, c.user);
    hide *;
    es, t := SmoothLook(s, es, t, Sight(s, c.user), sid);
    es, t := SmoothSetting(s, es, t, cred);
    es, t := SmoothApplying(s, es, t, sid);
    SmoothParts(s, c, cred, sid);
  }
}
