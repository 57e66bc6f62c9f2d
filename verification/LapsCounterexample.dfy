/** Why the agreement theorem needs its hypothesis: three cycles that end in disagreement. */
module LapsCounterexample {
  import opened Prelude
  import opened LapsMachine
  import opened LapsAlignment

  const Clean := State(None, Some(Record("opale", Cipher(1), 5)), 5, [LocalSid("m", 1001)], 0, 0)
  const Start := Sys(Idle, Cycle(0, "", false), Clean, Clean, Some(Row("opale", Cipher(1))),
                     map["opale" := Account(LocalSid("m", 1001), "x", 1)], {1}, {1}, false, false, 0, false)
  const Seen := Some(Some(View(LocalSid("m", 1001), "x")))

  /** Without a crash, or without an outcome that is not ok. */
  ghost predicate Kind(crash: bool, e: Event) {
    if crash then e.Apply? ==> e.outcome.SetOk? else !e.Crash?
  }

  ghost predicate OnlyBy(crash: bool, es: seq<Event>) {
    forall e :: e in es ==> Kind(crash, e)
  }

  lemma Extend(s0: Sys, es: seq<Event>, crash: bool, e: Event) returns (fs: seq<Event>, t: Sys)
    requires Exec(s0, es).Some? && Enabled(Exec(s0, es).value, e) && OnlyBy(crash, es) && Kind(crash, e)
    ensures fs == es + [e] && t == Next(Exec(s0, es).value, e) && Exec(s0, fs) == Some(t) && OnlyBy(crash, fs)
  {
    fs, t := es + [e], Next(Exec(s0, es).value, e);
    assert fs[..|fs| - 1] == es;
  }

  lemma UserAllowed()
    ensures Manageable("opale", Seen.value, [LocalSid("m", 1001)])
  {
    assert TrimLeft("opale") == "opale" && Trim("opale") == "opale";
    assert Lower("opale")[0] == 'o';
  }

  /** A rotation up to the save of its prepared stash. */
  lemma Opening(s0: Sys, es: seq<Event>, s: Sys, crash: bool, now: nat, cred: nat) returns (fs: seq<Event>, t: Sys)
    requires OnlyBy(crash, es) && Exec(s0, es) == Some(s) && s.pc.Idle? && !Gated(s.mem, now) && Due(s.mem, now, false)
    requires s.mem.pending.Some? ==> s.mem.pending.value.phase.Escrowed?
    requires "opale" in s.local && s.local["opale"].sid == LocalSid("m", 1001) && s.local["opale"].description == "x"
    requires s.mem.managed == [LocalSid("m", 1001)] && cred !in s.applied
    ensures Exec(s0, fs) == Some(t) && OnlyBy(crash, fs)
    ensures var st := s.mem.(pending := Some(Stash("opale", Cipher(cred), now, Prepared)));
            t == s.(cycle := Cycle(now, "opale", true), mem := st, disk := st, lostDisk := s.lostMem,
                    posts := 0, done := false, pc := EscrowPost(Seen.value, cred))
  {
    UserAllowed();
    hide Manageable, OnlyBy;
    fs, t := Extend(s0, es, crash, Begin(Cycle(now, "opale", true)));
    fs, t := Extend(s0, fs, crash, Look(Seen));
    fs, t := Extend(s0, fs, crash, Generate(Some(cred)));
    fs, t := Extend(s0, fs, crash, Save(true));
  }

  /** The new password is applied; its outcome is uncertain, or the agent crashes before it saves it. */
  lemma LosingCycle(crash: bool) returns (fs: seq<Event>, t: Sys)
    ensures Exec(Start, fs) == Some(t) && t.lostMem && OnlyBy(crash, fs)
    ensures t.pc.Idle? && IsStash(t.mem.pending, "opale", 2, Escrowed)
    ensures t.mem.current == Clean.current && t.mem.managed == Clean.managed && t.applied == {1, 2}
    ensures t.mem.retryAfter <= 3000900 && t.mem.lastRotation == 5
    ensures t.local == map["opale" := Account(LocalSid("m", 1001), "x", 2)]
  {
    fs, t := Opening(Start, [], Start, crash, 3000000, 2);
    hide Manageable, OnlyBy, Next, Enabled;
    fs, t := Escrowing(fs, t, crash);
    fs, t := LosingApply(fs, t, crash);
  }

  lemma Escrowing(es: seq<Event>, s: Sys, crash: bool) returns (fs: seq<Event>, t: Sys)
    requires OnlyBy(crash, es) && Exec(Start, es) == Some(s) && s.pc == EscrowPost(Seen.value, 2)
    requires s.disk == s.mem && IsStash(s.mem.pending, "opale", 2, Prepared)
    ensures Exec(Start, fs) == Some(t) && OnlyBy(crash, fs) && t.pc == Applying(Seen.value, 2) && t.disk == t.mem
    ensures t.mem == s.mem.(pending := Some(s.mem.pending.value.(phase := Escrowed)))
    ensures t.cycle == s.cycle && t.local == s.local && t.applied == s.applied
  {
    hide Manageable, OnlyBy;
    fs, t := Extend(Start, es, crash, Post(Accepted, true));
    fs, t := Extend(Start, fs, crash, Save(true));
  }

  lemma LosingApply(es: seq<Event>, s: Sys, crash: bool) returns (fs: seq<Event>, t: Sys)
    requires Exec(Start, es) == Some(s) && s.pc == Applying(Seen.value, 2)
             && IsStash(s.mem.pending, "opale", 2, Escrowed)
    requires s.cycle == Cycle(3000000, "opale", true) && s.local == Start.local && s.disk == s.mem && OnlyBy(crash, es)
    requires s.mem.failures == 0 && s.mem.retryAfter == 0
    ensures Exec(Start, fs) == Some(t) && t.lostMem && t.pc.Idle? && t.mem.pending == s.mem.pending && OnlyBy(crash, fs)
    ensures t.mem.current == s.mem.current && t.mem.managed == s.mem.managed && t.applied == s.applied + {2}
    ensures t.mem.retryAfter <= 3000900 && t.mem.lastRotation == s.mem.lastRotation
    ensures t.local == map["opale" := Account(LocalSid("m", 1001), "x", 2)]
  {
    hide Manageable, OnlyBy;
    fs, t := Extend(Start, es, crash, Apply(if crash then SetOk else SetUncertain, true, LocalSid("m", 1001), false));
    fs, t := Extend(Start, fs, crash, if crash then Crash else Save(true));
  }

  /** The next rotation overwrites the escrowed stash, then fails to reach the server. */
  lemma OverwrittenCycle(es: seq<Event>, s: Sys, crash: bool) returns (fs: seq<Event>, t: Sys)
    requires OnlyBy(crash, es) && Exec(Start, es) == Some(s) && s.pc.Idle?
             && IsStash(s.mem.pending, "opale", 2, Escrowed)
    requires s.mem.current == Clean.current && s.mem.managed == Clean.managed && s.applied == {1, 2}
    requires s.mem.retryAfter <= 3000900 && s.mem.lastRotation == 5
    requires s.local == map["opale" := Account(LocalSid("m", 1001), "x", 2)]
    ensures Exec(Start, fs) == Some(t) && t.pc.Idle? && IsStash(t.mem.pending, "opale", 3, Prepared)
    ensures t.lostMem == s.lostMem && OnlyBy(crash, fs)
    ensures t.mem.current == Clean.current && !Gated(t.mem, 5000000) && t.local == s.local
  {
    fs, t := Opening(Start, es, s, crash, 4000000, 3);
    hide Manageable, OnlyBy;
    fs, t := Extend(Start, fs, crash, Post(Refused(false), false));
    fs, t := Extend(Start, fs, crash, Save(true));
  }

  /** The prepared stash brings the old password back on the server, and the rotation stops at the look-up. */
  lemma RestoringCycle(es: seq<Event>, s: Sys, crash: bool) returns (fs: seq<Event>, t: Sys)
    requires OnlyBy(crash, es) && Exec(Start, es) == Some(s) && s.pc.Idle?
             && IsStash(s.mem.pending, "opale", 3, Prepared)
    requires s.mem.current == Clean.current && !Gated(s.mem, 5000000)
    ensures Exec(Start, fs) == Some(t) && t.pc.Idle?
    ensures t.lostMem == s.lostMem && OnlyBy(crash, fs)
    ensures t.mem.pending.None? && t.mem.current == Clean.current && t.local == s.local
    ensures t.server == Some(Row("opale", Cipher(1)))
  {
    hide Manageable, OnlyBy;
    fs, t := Extend(Start, es, crash, Begin(Cycle(5000000, "opale", true)));
    fs, t := Extend(Start, fs, crash, Post(Accepted, true));
    fs, t := FailedLook(fs, t, crash);
  }

  lemma FailedLook(es: seq<Event>, s: Sys, crash: bool) returns (fs: seq<Event>, t: Sys)
    requires OnlyBy(crash, es) && Exec(Start, es) == Some(s) && s.pc.ResyncSave? && s.cycle.user != ""
    ensures Exec(Start, fs) == Some(t) && t.pc.Idle? && t.local == s.local && t.server == s.server
            && t.lostMem == s.lostMem && OnlyBy(crash, fs)
    ensures t.mem.pending == s.mem.pending && t.mem.current == s.mem.current
  {
    hide Manageable, OnlyBy;
    fs, t := Extend(Start, es, crash, Save(true));
    fs, t := Extend(Start, fs, crash, Look(None));
    fs, t := Extend(Start, fs, crash, Save(true));
  }

  /**
   * After a change that is not on record, whatever lost it, the agent may come to hold a settled state that
   * the machine does not back: the server has the password that was replaced.
   */
  lemma UnrecordedChangeBreaksAgreement(crash: bool) returns (es: seq<Event>, t: Sys)
    ensures Rested(Start) && Exec(Start, es) == Some(t) && Unrecorded(es) && OnlyBy(crash, es)
    ensures t.pc.Idle? && t.mem.pending.None? && t.mem.current == Some(Record("opale", Cipher(1), 5))
    ensures t.server == Some(Row("opale", Cipher(1)))
    ensures "opale" in t.local && t.local["opale"].password == 2
  {
    var es1, t1 := LosingCycle(crash);
    var es2, t2 := OverwrittenCycle(es1, t1, crash);
    es, t := RestoringCycle(es2, t2, crash);
    hide OnlyBy;
    LostIffUnrecorded(Start, es);
  }
}
