/** How often the agent may POST: the backoff and the number of POSTs of a cycle. */
module LapsRate {
  import opened Prelude
  import opened LapsMachine

  lemma {:induction false} Pow2Monotone(m: nat, n: nat)
    requires m <= n
    ensures Pow2(m) <= Pow2(n)
  {
    if m < n {
      Pow2Monotone(m, n - 1);
    }
  }

  /** The first wait is the base, each failure doubles it up to the cap, and the eighth in a row reaches that. */
  lemma BackoffIsCappedDoubling(failures: int)
    ensures failures <= 1 ==> Backoff(failures) == 15 * 60
    ensures failures >= 1 ==>
              var doubled := 2 * Backoff(failures);
              Backoff(failures + 1) == if doubled < 24 * 3600 then doubled else 24 * 3600
    ensures Backoff(failures) == 24 * 3600 <==> failures >= 8
    ensures BACKOFF_BASE <= Backoff(failures) <= BACKOFF_MAX
  {
    assert Pow2(3) == 8 && Pow2(5) == 32 && Pow2(6) == 64 && Pow2(7) == 128;
    if failures >= 8 {
      Pow2Monotone(7, failures - 1);
    } else if failures >= 1 {
      Pow2Monotone(failures - 1, 6);
    }
  }

  lemma BackoffMonotone(m: int, n: int)
    requires m <= n
    ensures Backoff(m) <= Backoff(n)
  {
    if 1 < m {
      Pow2Monotone(m - 1, n - 1);
    }
  }

  /** The agent's own computation, which stops as soon as the cap is reached. */
  method LapsBackoff(failures: int) returns (d: int)
    ensures d == Backoff(failures)
  {
    d := BACKOFF_BASE;
    var i := 1;
    while i < failures
      invariant 1 <= i && (failures <= 1 ==> i == 1) && (failures > 1 ==> i <= failures)
      invariant d == BACKOFF_BASE * Pow2(i - 1) && d < BACKOFF_MAX
    {
      d := d * 2;
      assert Pow2(i) == 2 * Pow2(i - 1);
      if d >= BACKOFF_MAX {
        Pow2Monotone(i, failures - 1);
        return BACKOFF_MAX;
      }
      i := i + 1;
    }
  }

  // ----- POSTs of a cycle

  ghost predicate Armed(st: State, now: nat) {
    st.retryAfter == now + Backoff(st.failures)
  }

  ghost predicate Counted(s: Sys) {
    match s.pc
    case Idle => s.posts <= 3 && (s.posts > 0 && s.cycle.accounts && !s.done ==> Armed(s.mem, s.cycle.now))
    case LastSave => s.posts <= 3 && (s.posts > 0 && !s.done ==> Armed(s.mem, s.cycle.now))
    case FlushPost => s.posts == 0 && !s.done
    case DropSave => s.posts <= 1 && !s.done
    case ResyncPost => s.posts == 0 && !s.done
    case ResyncSave => s.posts <= 1 && !s.done
    case Looking => s.posts <= 1 && !s.done
    case Generating(_) => s.posts <= 1 && !s.done
    case StashSave(_, _, _) => s.posts <= 1 && !s.done
    case EscrowPost(_, _) => s.posts <= 1 && !s.done
    case PhaseSave(_, _) => s.posts <= 2 && !s.done
    case Applying(_, _) => s.posts <= 2 && !s.done
    case RestorePost => s.posts <= 2 && !s.done
  }

  lemma CountedKept(s: Sys, e: Event)
    requires Counted(s) && Enabled(s, e)
    requires s.pc.DropSave? ==> s.mem.pending.None?
    ensures Counted(Next(s, e)) && (Next(s, e).pc.DropSave? ==> Next(s, e).mem.pending.None?)
  {
    hide Manageable, Backoff, OnBegin, OnPost, OnSave, OnApply;
    match e
    case Crash =>
    case Begin(c) => CountedBegin(s, c);
    case Post(reply, effective) => CountedPost(s, reply, effective);
    case Save(ok) => CountedSave(s, ok);
    case Look(found) =>
    case Generate(cred) =>
    case Apply(outcome, changed, sid, printed) => CountedApply(s, outcome, changed, sid, printed);
  }

  lemma CountedBegin(s: Sys, c: Cycle)
    requires s.pc.Idle?
    ensures var t := OnBegin(s, c); Counted(t) && (t.pc.DropSave? ==> t.mem.pending.None?)
  {
    hide Manageable, Backoff;
  }

  lemma CountedApply(s: Sys, outcome: Outcome, changed: bool, sid: Sid, printed: bool)
    requires Counted(s) && s.pc.Applying?
    ensures var t := OnApply(s, outcome, changed, sid, printed); Counted(t) && !t.pc.DropSave?
  {
    hide Manageable, Backoff, Changed, Managed;
  }

  lemma CountedPost(s: Sys, reply: Reply, effective: bool)
    requires Counted(s) && Enabled(s, Post(reply, effective))
    ensures var t := OnPost(s, reply, effective); Counted(t) && (t.pc.DropSave? ==> t.mem.pending.None?)
  {
    hide Manageable, Backoff;
  }

  lemma CountedSave(s: Sys, ok: bool)
    requires Counted(s) && Enabled(s, Save(ok))
    requires s.pc.DropSave? ==> s.mem.pending.None?
    ensures var t := OnSave(s, ok); Counted(t) && !t.pc.DropSave?
  {
    hide Manageable, Backoff;
  }

  /**
   * A cycle makes at most three POSTs, and one that made any without ending well arms the
   * backoff (where there is an account store).
   */
  lemma {:induction false} CyclesArePaced(s0: Sys, es: seq<Event>)
    requires s0.pc.Idle? && s0.posts == 0 && Exec(s0, es).Some?
    ensures var t := Exec(s0, es).value;
            && t.posts <= 3
            && (t.pc.Idle? && t.posts > 0 && t.cycle.accounts && !t.done ==> Armed(t.mem, t.cycle.now))
            && Counted(t) && (t.pc.DropSave? ==> t.mem.pending.None?)
  {
    if es != [] {
      CyclesArePaced(s0, es[..|es| - 1]);
      CountedKept(Exec(s0, es[..|es| - 1]).value, es[|es| - 1]);
    }
  }

  /**
   * An armed backoff stops, before any effect, the cycles that begin from then on and before its deadline,
   * and no cycle after it; nor one of a clock set back so far that the deadline is over a day ahead.
   */
  lemma ArmedBackoffHolds(s: Sys, c: Cycle)
    requires s.pc.Idle? && Armed(s.mem, s.cycle.now)
    ensures s.cycle.now <= c.now < s.mem.retryAfter ==> Next(s, Begin(c)) == s.(cycle := c, posts := 0, done := false)
    ensures s.mem.retryAfter <= c.now || c.now + BACKOFF_MAX < s.mem.retryAfter ==> !Gated(s.mem, c.now)
    ensures s.mem.retryAfter == s.cycle.now + Backoff(s.mem.failures) <= s.cycle.now + BACKOFF_MAX
  {
    BackoffIsCappedDoubling(s.mem.failures);
  }
}
