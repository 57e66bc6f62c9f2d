/**
 * The rotator as the agent runs it. Its fields are the LAPS part of state.json; sys is the
 * world outside, followed event by event, and log is the list of those events. The external
 * calls (escrow, save, lookup, genPassword, apply) answer anything the world allows.
 */
module LapsRotator {
  import opened Prelude
  import opened LapsMachine
  import opened LapsAlignment
  import LapsSafety
  import LapsRate

  class Rotator {
    var pendingAdminCred: Option<Stash>
    var currentAdminCred: Option<Record>
    var lastAdminRotation: nat
    var managedSids: seq<Sid>
    var failures: int
    var retryAfter: nat

    var sys: Sys
    ghost var log: seq<Event>
    ghost const start: Sys

    constructor (world: Sys)
      requires world.pc.Idle?
      ensures Valid() && sys == start == world && log == []
    {
      pendingAdminCred, currentAdminCred := world.mem.pending, world.mem.current;
      lastAdminRotation, managedSids := world.mem.lastRotation, world.mem.managed;
      failures, retryAfter := world.mem.failures, world.mem.retryAfter;
      sys, start, log := world, world, [];
    }

    ghost function Memory(): State
      reads this
    {
      State(pendingAdminCred, currentAdminCred, lastAdminRotation, managedSids, failures, retryAfter)
    }

    /** What happened since the beginning is a possible run, and it led to sys. */
    ghost predicate Tracked()
      reads this
    {
      Exec(start, log) == Some(sys) && Inside(sys)
    }

    ghost predicate Valid()
      reads this
    {
      Tracked() && Memory() == sys.mem
    }

    // ----- The outside

    method Happen(e: Event)
      requires Tracked() && Enabled(sys, e)
      modifies `sys, `log
      ensures Tracked() && log == old(log) + [e] && sys == Next(old(sys), e)
    {
      InsideKept(sys, e);
      sys, log := Next(sys, e), log + [e];
      assert log[..|log| - 1] == old(log);
    }

    method Escrow(user: string, enc: Cipher) returns (reply: Reply)
      requires Valid() && Target(sys) == Some(Row(user, enc))
      modifies `sys, `log
      ensures Tracked() && old(log) <= log
      ensures exists effective: bool ::
                Enabled(old(sys), Post(reply, effective)) && sys == Next(old(sys), Post(reply, effective))
    {
      reply := *;
      var effective: bool := *;
      effective := effective || reply.Accepted?;
      Happen(Post(reply, effective));
    }

    method Save() returns (ok: bool)
      requires Valid() && Enabled(sys, LapsMachine.Save(true))
      modifies `sys, `log
      ensures Tracked() && old(log) <= log && sys == Next(old(sys), LapsMachine.Save(ok))
    {
      ok := *;
      Happen(LapsMachine.Save(ok));
    }

    method Lookup(user: string) returns (found: Option<Option<View>>)
      requires Valid() && sys.pc.Looking? && sys.cycle.user == user
      modifies `sys, `log
      ensures Tracked() && old(log) <= log && Enabled(old(sys), Look(found)) && sys == Next(old(sys), Look(found))
    {
      var answers: bool := *;
      found := None;
      if answers {
        found := Some(if user in sys.local then Some(View(sys.local[user].sid, sys.local[user].description)) else None);
      }
      Happen(Look(found));
    }

    method GenPassword() returns (cred: Option<nat>)
      requires Valid() && sys.pc.Generating?
      modifies `sys, `log
      ensures Tracked() && old(log) <= log && Enabled(old(sys), Generate(cred)) && sys == Next(old(sys), Generate(cred))
    {
      var drawn: nat := *;
      cred := if drawn in sys.applied then None else Some(drawn);
      Happen(Generate(cred));
    }

    method ApplyPassword(user: string, cred: nat, acct: Option<View>) returns (outcome: Outcome, sid: Option<Sid>)
      requires Valid() && sys.pc == Applying(acct, cred) && sys.cycle.user == user
      modifies `sys, `log
      ensures Tracked() && old(log) <= log
      ensures exists changed: bool, s: Sid :: (sid.Some? ==> sid.value == s)
                && Enabled(old(sys), Apply(outcome, changed, s, sid.Some?))
                && sys == Next(old(sys), Apply(outcome, changed, s, sid.Some?))
    {
      outcome := *;
      var changed: bool := *;
      var printed: bool := *;
      var s: Sid := *;
      if acct.Some? {
        s := acct.value.sid;
      }
      if !ChangePossible(sys, acct, s) || !OutcomeSound(outcome, changed) {
        outcome, changed := SetUncertain, false;
      }
      sid := if printed then Some(s) else None;
      Happen(Apply(outcome, changed, s, sid.Some?));
    }

    // ----- The agent

    method Fail(now: nat)
      modifies `failures, `retryAfter
      ensures Memory() == LapsMachine.Fail(old(Memory()), now)
    {
      failures := failures + 1;
      var d := LapsRate.LapsBackoff(failures);
      LapsRate.BackoffIsCappedDoubling(failures);
      retryAfter := now + d;
    }

    method ResetBackoff()
      modifies `failures, `retryAfter
      ensures Memory() == old(Memory()).(failures := 0, retryAfter := 0)
    {
      failures, retryAfter := 0, 0;
    }

    method FailAndSave(now: nat)
      requires Tracked() && sys.pc.LastSave? && sys.mem == LapsMachine.Fail(Memory(), now)
      modifies `failures, `retryAfter, `sys, `log
      ensures Valid() && sys.pc.Idle? && old(log) <= log
    {
      hide Inside, Exec, Backoff;
      Fail(now);
      var _ := Save();
    }

    method RecordManagedSid(sid: Sid)
      modifies `managedSids
      ensures Memory() == old(Memory()).(managed := RecordSid(old(managedSids), sid))
      ensures old(managedSids) <= managedSids && sid in managedSids
      ensures LapsSafety.Distinct(old(managedSids)) ==> LapsSafety.Distinct(managedSids)
    {
      if sid in managedSids {
        return;
      }
      managedSids := managedSids + [sid];
    }

    /** One cycle: whatever the outside answers, it ends at rest and keeps the protocol's invariants. */
    method Run(now: nat, username: string, accounts: bool)
      requires Valid() && sys.pc.Idle?
      modifies this
      ensures Valid() && sys.pc.Idle? && old(log) < log && log[|old(log)|] == Begin(Cycle(now, username, accounts))
      ensures old(Coherent(sys)) ==> Coherent(sys)
    {
      hide Inside, Exec, OnBegin;
      ghost var s0, coherent := sys, Coherent(sys);
      Happen(Begin(Cycle(now, username, accounts)));
      ghost var n := |log|;
      RunBody(now, username, accounts, s0);
      assert log[..n - 1] == old(log);
      if coherent {
        CoherentSuffix(start, old(log), log);
      }
    }

    method RunBody(now: nat, username: string, accounts: bool, ghost s0: Sys)
      requires Tracked() && s0.pc.Idle? && Inside(s0) && s0.mem == Memory()
      requires sys == OnBegin(s0, Cycle(now, username, accounts))
      modifies this
      ensures Valid() && sys.pc.Idle? && old(log) <= log
    {
      hide Inside, Exec, Manageable, Backoff;
      var wait := retryAfter - now;
      if wait > 0 && wait <= BACKOFF_MAX {
        return;
      }
      var force := false;
      ghost var t := s0.(cycle := Cycle(now, username, accounts), posts := 0, done := false);
      if pendingAdminCred.Some? && pendingAdminCred.value.phase.Legacy? {
        var dropped;
        dropped, t := FlushLegacyStash(now, t);
        if !dropped {
          return;
        }
        force := true;
      }
      Resume(now, username, accounts, force, t);
    }

    method FlushLegacyStash(now: nat, ghost s0: Sys) returns (dropped: bool, ghost t: Sys)
      requires Tracked() && s0.pc.Idle? && s0.mem == Memory() && !Gated(s0.mem, now) && s0.cycle.now == now
      requires IsPhase(pendingAdminCred, Legacy)
      requires s0.posts == 0 && !s0.done && sys == OnBegin(s0, s0.cycle)
      modifies this
      ensures Tracked() && old(log) <= log
      ensures !dropped ==> Valid() && sys.pc.Idle?
      ensures dropped ==> t.mem == Memory() && pendingAdminCred.None? && sys == Decide(t, true) && t.cycle == s0.cycle
    {
      hide Inside, Exec, Manageable, Backoff;
      t := s0;
      var p := pendingAdminCred.value;
      if lastAdminRotation != 0 && lastAdminRotation > p.at {
        pendingAdminCred := None;
        var _ := Save();
        return false, t;
      }
      if p.enc.Unreadable? || p.user == "" {
        pendingAdminCred := None;
        t := DropStash();
        return true, t;
      }
      dropped, t := SendLegacyStash(now, p);
    }

    method SendLegacyStash(now: nat, p: Stash) returns (dropped: bool, ghost t: Sys)
      requires Valid() && sys.pc.FlushPost? && sys.cycle.now == now && pendingAdminCred == Some(p)
      modifies this
      ensures Tracked() && old(log) <= log
      ensures !dropped ==> Valid() && sys.pc.Idle?
      ensures dropped ==> t.mem == Memory() && pendingAdminCred.None?
      ensures dropped ==> sys == Decide(t, true) && t.cycle == old(sys).cycle
    {
      hide Inside, Exec, Manageable, Backoff;
      t := sys;
      var reply := Escrow(p.user, p.enc);
      if reply.Refused? {
        if reply.permanent {
          pendingAdminCred := None;
          t := DropStash();
          return true, t;
        }
        FailAndSave(now);
        return false, t;
      }
      currentAdminCred := Some(Record(p.user, p.enc, now));
      lastAdminRotation := now;
      pendingAdminCred := None;
      ResetBackoff();
      var _ := Save();
      return false, t;
    }

    method DropStash() returns (ghost t: Sys)
      requires Valid() && sys.pc.DropSave?
      modifies `sys, `log
      ensures Tracked() && old(log) <= log
      ensures t.mem == Memory() && t.cycle == old(sys).cycle && sys == Decide(t, true)
    {
      hide Inside, Exec, Manageable, Backoff;
      t := sys;
      var ok := Save();
      t := if ok then t.(disk := t.mem, lostDisk := t.lostMem) else t;
    }

    /** Whether the server accepted the last password known to be in place. */
    method RestoreCurrentEscrow() returns (restored: bool)
      requires CanRestore(Memory()) ==> Valid() && (sys.pc.ResyncPost? || sys.pc.RestorePost?)
      requires Tracked()
      modifies `sys, `log
      ensures Tracked() && old(log) <= log
      ensures !CanRestore(old(Memory())) ==> !restored && sys == old(sys)
      ensures CanRestore(old(Memory())) ==>
                exists reply: Reply, effective: bool :: restored == reply.Accepted?
                  && Enabled(old(sys), Post(reply, effective)) && sys == Next(old(sys), Post(reply, effective))
    {
      hide Inside, Exec, Manageable, Backoff;
      if currentAdminCred.None? {
        return false;
      }
      var cur := currentAdminCred.value;
      if cur.enc.Unreadable? {
        return false;
      }
      var reply := Escrow(cur.user, cur.enc);
      return reply.Accepted?;
    }

    method Resume(now: nat, username: string, accounts: bool, force: bool, ghost t: Sys)
      requires Tracked() && t.mem == Memory() && t.cycle == Cycle(now, username, accounts) && sys == Decide(t, force)
      modifies this
      ensures Valid() && sys.pc.Idle? && old(log) <= log
    {
      hide Inside, Exec, Manageable, Backoff;
      if !accounts {
        return;
      }
      var pending := pendingAdminCred;
      var due := force || lastAdminRotation == 0 || now - lastAdminRotation >= ROTATION_INTERVAL;
      if pending.None? && !due {
        return;
      }
      if pending.Some? && pending.value.phase.Prepared? {
        Resync(now, username);
      }
      Rotate(now, username);
    }

    ghost predicate ReadyToRotate(now: nat, username: string)
      reads this
    {
      && Tracked() && sys.cycle.now == now && sys.cycle.user == username
      && if username == "" then sys.pc.LastSave? && sys.mem == LapsMachine.Fail(Memory(), now)
         else sys.pc.Looking? && sys.mem == Memory()
    }

    /** The prepared stash was never applied: give the server its old row back, where it is known. */
    method Resync(now: nat, username: string)
      requires IsPhase(pendingAdminCred, Prepared)
      requires if CanRestore(Memory()) then Valid() && sys.pc.ResyncPost? && sys.cycle.now == now
               && sys.cycle.user == username
               else ReadyToRotate(now, username)
      modifies this
      ensures ReadyToRotate(now, username) && old(log) <= log
    {
      hide Inside, Exec, Manageable, Backoff;
      var restored := RestoreCurrentEscrow();
      if restored {
        pendingAdminCred := None;
        var _ := Save();
      }
    }

    method Rotate(now: nat, username: string)
      requires ReadyToRotate(now, username)
      modifies this
      ensures Valid() && sys.pc.Idle? && old(log) <= log
    {
      hide Inside, Exec, Manageable, Backoff;
      if username == "" {
        FailAndSave(now);
        return;
      }
      var acct := Lookup(username);
      if acct.None? || !Manageable(username, acct.value, managedSids) {
        FailAndSave(now);
        return;
      }
      StashNewPassword(now, username, acct.value);
    }

    method StashNewPassword(now: nat, username: string, acct: Option<View>)
      requires Valid() && sys.cycle.now == now && sys.cycle.user == username && sys.pc == Generating(acct)
      modifies this
      ensures Valid() && sys.pc.Idle? && old(log) <= log
    {
      hide Inside, Exec, Manageable, Backoff, OnPost, OnApply, OnLook, OnBegin;
      var drawn := GenPassword();
      if drawn.None? {
        FailAndSave(now);
        return;
      }
      var cred := drawn.value;
      var previous := pendingAdminCred;
      pendingAdminCred := Some(Stash(username, Cipher(cred), now, Prepared));
      var stashed := Save();
      if !stashed {
        pendingAdminCred := previous;
        Fail(now);
        return;
      }
      EscrowAndApply(now, username, acct, cred);
    }

    /** From the escrow of a password on disk as prepared to its application. */
    method EscrowAndApply(now: nat, username: string, acct: Option<View>, cred: nat)
      requires Valid() && sys.cycle.now == now && sys.cycle.user == username && sys.pc == EscrowPost(acct, cred)
      requires IsStash(pendingAdminCred, username, cred, Prepared)
      modifies this
      ensures Valid() && sys.pc.Idle? && old(log) <= log
    {
      hide Inside, Exec, Manageable, Backoff;
      var reply := Escrow(username, Cipher(cred));
      if reply.Refused? {
        FailAndSave(now);
        return;
      }
      pendingAdminCred := Some(pendingAdminCred.value.(phase := Escrowed));
      RecordAndApply(now, username, acct, cred);
    }

    method RecordAndApply(now: nat, username: string, acct: Option<View>, cred: nat)
      requires Valid() && sys.cycle.now == now && sys.cycle.user == username && sys.pc == PhaseSave(acct, cred)
      requires IsStash(pendingAdminCred, username, cred, Escrowed)
      modifies this
      ensures Valid() && sys.pc.Idle? && old(log) <= log
    {
      hide Inside, Exec, Manageable, Backoff;
      var recorded := Save();
      if !recorded {
        pendingAdminCred := Some(pendingAdminCred.value.(phase := Prepared));
        RestoreThenFail(now);
        return;
      }
      SetPassword(now, username, acct, cred);
    }

    /** Nothing was applied: give the server its old row back if it is known, and count a failure. */
    method RestoreThenFail(now: nat)
      requires pendingAdminCred.Some?
      requires if CanRestore(Memory()) then Valid() && sys.pc.RestorePost? && sys.cycle.now == now
               else Tracked() && sys.pc.LastSave? && sys.mem == LapsMachine.Fail(Memory(), now)
      modifies this
      ensures Valid() && sys.pc.Idle? && old(log) <= log
    {
      hide Inside, Exec, Manageable, Backoff;
      var restored := RestoreCurrentEscrow();
      if restored {
        pendingAdminCred := None;
      }
      FailAndSave(now);
    }

    method SetPassword(now: nat, username: string, acct: Option<View>, cred: nat)
      requires Valid() && sys.cycle.now == now && sys.cycle.user == username && sys.pc == Applying(acct, cred)
      requires IsStash(pendingAdminCred, username, cred, Escrowed)
      modifies this
      ensures Valid() && sys.pc.Idle? && old(log) <= log
    {
      hide Inside, Exec, Manageable, Backoff;
      var outcome, sid := ApplyPassword(username, cred, acct);
      if outcome.SetOk? || outcome.SetPartial? {
        if sid.Some? {
          RecordManagedSid(sid.value);
        } else if acct.Some? {
          RecordManagedSid(acct.value.sid);
        }
      }
      Conclude(now, username, cred, outcome);
    }

    ghost function Settled(now: nat, username: string, cred: nat): State
      reads this
    {
      Memory().(current := Some(Record(username, Cipher(cred), now)), pending := None)
    }

    method Conclude(now: nat, username: string, cred: nat, outcome: Outcome)
      requires Tracked() && pendingAdminCred.Some?
      requires outcome.SetUnchanged? && CanRestore(Memory()) ==> Valid() && sys.pc.RestorePost? && sys.cycle.now == now
      requires !(outcome.SetUnchanged? && CanRestore(Memory())) ==>
                 sys.pc.LastSave? && sys.mem ==
                 match outcome
                 case SetOk => Settled(now, username, cred).(lastRotation := now, failures := 0, retryAfter := 0)
                 case SetPartial => LapsMachine.Fail(Settled(now, username, cred), now)
                 case _ => LapsMachine.Fail(Memory(), now)
      modifies this
      ensures Valid() && sys.pc.Idle? && old(log) <= log
    {
      hide Inside, Exec, Manageable, Backoff;
      match outcome {
      case SetOk =>
        currentAdminCred := Some(Record(username, Cipher(cred), now));
        lastAdminRotation := now;
        pendingAdminCred := None;
        ResetBackoff();
        var _ := Save();
        return;
      case SetPartial =>
        currentAdminCred := Some(Record(username, Cipher(cred), now));
        pendingAdminCred := None;
      case SetUnchanged =>
        RestoreThenFail(now);
        return;
      case SetUncertain =>
      }
      FailAndSave(now);
    }
  }

  lemma {:induction false} CoherentSuffix(s0: Sys, es: seq<Event>, fs: seq<Event>)
    requires es <= fs && Exec(s0, es).Some? && Exec(s0, fs).Some?
    requires Inside(Exec(s0, es).value) && Coherent(Exec(s0, es).value)
    ensures Inside(Exec(s0, fs).value) && Coherent(Exec(s0, fs).value)
    decreases |fs|
  {
    if es == fs {
    } else {
      CoherentSuffix(s0, es, fs[..|fs| - 1]);
      CoherentKept(Exec(s0, fs[..|fs| - 1]).value, fs[|fs| - 1]);
    }
  }
}
