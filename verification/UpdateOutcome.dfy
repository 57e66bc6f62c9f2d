/**
 * The watch over a new image, exactly: over every run from an installation, whatever crashes and fails, as
 * long as no rename that was to undo a step failed.
 */
module UpdateOutcome {
  import opened Prelude
  import opened UpdateMachine
  import opened UpdateWindow
  import opened UpdateEvents
  import opened UpdateKept

  /** state.json when the swap at w was made. */
  ghost function DiskAt(s0: Sys, es: seq<Event>, w: nat): State
    requires w <= |es| && Exec(s0, es[..w]).Some?
  {
    Exec(s0, es[..w]).value.disk
  }

  /** The disk has never had the window of the swap at w. */
  ghost predicate Unwritten(es: seq<Event>, w: nat) {
    CrashFirst(es, w) || !SavedSince(es, w)
  }

  /** A state whose window is that of the swap unless it is stale, with the events it shows since. */
  ghost predicate Shows(st: State, d: State, version: string, stale: bool, concluded: set<nat>, failed: set<nat>) {
    && (st.updateAt == 0 <==> concluded != {} || (stale && d.updateAt == 0))
    && (st.updateAt != 0 ==>
          && st.updateVersion == (if stale then d.updateVersion else version)
          && st.failures == (if stale then d.failures else 0) + |failed|)
  }

  ghost predicate MemoryTells(s0: Sys, es: seq<Event>, w: nat, d: State, t: Sys) {
    Shows(t.mem, d, t.book.newestVersion, CrashFirst(es, w),
          InMemory(s0, es, Concluding, w), InMemory(s0, es, Failing, w))
  }

  ghost predicate DiskTells(s0: Sys, es: seq<Event>, w: nat, d: State, t: Sys) {
    Shows(t.disk, d, t.book.newestVersion, Unwritten(es, w),
          OnDisk(s0, es, Concluding, w), OnDisk(s0, es, Failing, w))
  }

  ghost predicate Tells(s0: Sys, es: seq<Event>, w: nat, d: State, t: Sys) {
    t.book.broken || (MemoryTells(s0, es, w, d, t) && DiskTells(s0, es, w, d, t))
  }

  // ----- Kept by every step

  /** What a step does to the window in memory. */
  predicate Effect(s: Sys, e: Event, st: State) {
    if e.Crash? then SameWindow(st, s.disk)
    else if Of(Concluding, s, e) then st.updateAt == 0
    else if Of(Failing, s, e) && s.mem.updateAt != 0 then
      SameWindow(st, s.mem.(failures := s.mem.failures + 1))
    else SameWindow(st, s.mem)
  }

  predicate SameWindow(a: State, b: State) {
    a.updateAt == b.updateAt && a.updateVersion == b.updateVersion && a.failures == b.failures
  }

  lemma WindowStep(s: Sys, e: Event)
    requires Shaped(s) && Enabled(s, e) && !Swaps(s, e)
    ensures var t := Next(s, e);
            && Effect(s, e, t.mem) && t.disk == (if e == Save(true) then s.mem else s.disk)
            && t.book.newestVersion == s.book.newestVersion
  {
    if e.File? {
      WindowFileStep(s, e.ok);
    } else {
      hide Installs, OnUpdateFile, OnRollbackFile, Replacing, RollingBack;
    }
  }

  lemma WindowFileStep(s: Sys, ok: bool)
    requires Enabled(s, File(ok)) && !Swaps(s, File(ok))
    ensures var t := Next(s, File(ok));
            t.mem == s.mem && t.disk == s.disk && t.book.newestVersion == s.book.newestVersion
  {
  }

  /** The set of failed check-ins after a step, in size. */
  lemma OneMore(failed: set<nat>, n: nat, more: bool)
    requires n !in failed
    ensures |failed + (if more then {n} else {})| == |failed| + if more then 1 else 0
  {
  }

  lemma ShowsMore(a: State, b: State, d: State, version: string, stale: bool, concluded: set<nat>, failed: set<nat>,
                  n: nat, concludes: bool, fails: bool)
    requires Shows(a, d, version, stale, concluded, failed) && n !in failed
    requires if concludes then b.updateAt == 0
             else if fails && a.updateAt != 0 then SameWindow(b, a.(failures := a.failures + 1)) else SameWindow(b, a)
    ensures Shows(b, d, version, stale,
                  concluded + (if concludes then {n} else {}), failed + (if fails then {n} else {}))
  {
    OneMore(failed, n, fails);
    assert concludes ==> n in concluded + {n};
  }

  lemma MemoryTellsStep(s0: Sys, es: seq<Event>, e: Event, w: nat, d: State, s: Sys)
    requires Shaped(s) && Exec(s0, es) == Some(s) && Enabled(s, e) && w < |es| && !Swaps(s, e)
    requires MemoryTells(s0, es, w, d, s) && DiskTells(s0, es, w, d, s)
    ensures MemoryTells(s0, es + [e], w, d, Next(s, e))
  {
    WindowStep(s, e);
    SetsAppended(s0, es, e, Concluding, w);
    SetsAppended(s0, es, e, Failing, w);
    CrashFirstAppended(es, e, w);
    var stale := if e.Crash? then Unwritten(es, w) else CrashFirst(es, w);
    var concludes, fails := Of(Concluding, s, e), Of(Failing, s, e);
    assert e.Crash? ==> !concludes && !fails;
    hide Next, Enabled, Exec, InMemory, OnDisk, SavedSince, CrashFirst, Shaped, Of, Swaps, Shows, SameWindow;
    var concluded := if e.Crash? then OnDisk(s0, es, Concluding, w) else InMemory(s0, es, Concluding, w);
    var failed := if e.Crash? then OnDisk(s0, es, Failing, w) else InMemory(s0, es, Failing, w);
    ShowsMore(if e.Crash? then s.disk else s.mem, Next(s, e).mem, d, s.book.newestVersion, stale,
              concluded, failed, |es|, concludes, fails);
  }

  lemma DiskTellsStep(s0: Sys, es: seq<Event>, e: Event, w: nat, d: State, s: Sys)
    requires Shaped(s) && Exec(s0, es) == Some(s) && Enabled(s, e) && w < |es| && !Swaps(s, e)
    requires MemoryTells(s0, es, w, d, s) && DiskTells(s0, es, w, d, s)
    ensures DiskTells(s0, es + [e], w, d, Next(s, e))
  {
    WindowStep(s, e);
    SetsAppended(s0, es, e, Concluding, w);
    SetsAppended(s0, es, e, Failing, w);
    SavedSinceAppended(es, e, w);
    CrashFirstAppended(es, e, w);
    hide Next, Enabled, Exec, InMemory, OnDisk, SavedSince, CrashFirst, Shaped, Of;
  }

  lemma TellsStep(s0: Sys, es: seq<Event>, e: Event, w: nat, d: State, s: Sys)
    requires Inv(s) && Exec(s0, es) == Some(s) && Enabled(s, e) && w < |es| && !Swaps(s, e)
    requires Tells(s0, es, w, d, s)
    ensures Tells(s0, es + [e], w, d, Next(s, e))
  {
    BrokenStep(s, e);
    hide Next, Enabled, Exec, MemoryTells, DiskTells, Shaped, Sound;
    if !s.book.broken {
      MemoryTellsStep(s0, es, e, w, d, s);
      DiskTellsStep(s0, es, e, w, d, s);
    }
  }

  lemma SwapTells(s0: Sys, es: seq<Event>, w: nat, s: Sys, e: Event)
    requires Inv(s) && Enabled(s, e) && Swaps(s, e) && |es| == w + 1
    ensures Tells(s0, es, w, s.disk, Next(s, e))
  {
    BrokenStep(s, e);
    NothingYet(s0, es, Concluding, w);
    NothingYet(s0, es, Failing, w);
    hide InMemory, OnDisk, Exec;
  }

  lemma {:induction false} RunTells(s0: Sys, es: seq<Event>, w: nat)
    requires Inv(s0) && Exec(s0, es).Some? && LastSwap(s0, es, w)
    ensures w < |es| && Exec(s0, es[..w]).Some?
    ensures Tells(s0, es, w, DiskAt(s0, es, w), Exec(s0, es).value)
  {
    if es == [] {
      SwapBefore(s0, es, w);
    } else {
      var init, e := es[..|es| - 1], es[|es| - 1];
      var s := Exec(s0, init).value;
      assert es == init + [e];
      Reachable(s0, init);
      LastSwapBefore(s0, init, e, w);
      hide LastSwap, Tells, Swaps, Inv;
      if w < |init| {
        RunTells(s0, init, w);
        assert es[..w] == init[..w];
        TellsStep(s0, init, e, w, DiskAt(s0, init, w), s);
      } else {
        assert es[..w] == init;
        SwapTells(s0, es, w, s, e);
      }
    }
  }

  // ----- The main results

  lemma Known(s0: Sys, es: seq<Event>, w: nat, t: Sys)
    requires Installed(s0) && Exec(s0, es) == Some(t) && LastSwap(s0, es, w) && !UndoFailed(s0, es)
    ensures w < |es| && Exec(s0, es[..w]).Some?
    ensures !t.book.broken && Shaped(t) && MemoryTells(s0, es, w, DiskAt(s0, es, w), t)
  {
    Reachable(s0, es);
    BrokenIffUndoFailed(s0, es);
    RunTells(s0, es, w);
    hide Exec, LastSwap, UndoFailed, MemoryTells, DiskTells, Sound, Shaped;
  }

  /** Where the agent counts a failure, or rolls back. */
  predicate Deciding(pc: PC) {
    pc.CountSave? || pc.RbHash? || RollbackPoint(pc)
  }

  /**
   * The watch over a swapped image ends exactly by a conclusion that memory still has, or by a process that
   * ended before any save when the file had no window open. Then no failure counts and no rollback is begun.
   */
  lemma WatchEndsIffConcluded(s0: Sys, es: seq<Event>, w: nat, t: Sys)
    requires Installed(s0) && Exec(s0, es) == Some(t) && LastSwap(s0, es, w) && !UndoFailed(s0, es)
    ensures w < |es| && Exec(s0, es[..w]).Some?
    ensures t.mem.updateAt == 0 <==>
              InMemory(s0, es, Concluding, w) != {} || (DiskAt(s0, es, w).updateAt == 0 && CrashFirst(es, w))
    ensures t.mem.updateAt == 0 ==> !Deciding(t.pc)
  {
    Known(s0, es, w, t);
    hide Exec, LastSwap, UndoFailed, InMemory, CrashFirst, Replacing, RollingBack;
  }

  /** The version an open window carries, and so the one a rollback remembers. */
  lemma WindowVersion(s0: Sys, es: seq<Event>, w: nat, t: Sys)
    requires Installed(s0) && Exec(s0, es) == Some(t) && LastSwap(s0, es, w) && !UndoFailed(s0, es)
    requires t.mem.updateAt != 0
    ensures w < |es| && Exec(s0, es[..w]).Some?
    ensures t.mem.updateVersion ==
            if CrashFirst(es, w) then DiskAt(s0, es, w).updateVersion else t.book.newestVersion
  {
    Known(s0, es, w, t);
    hide Exec, LastSwap, UndoFailed, InMemory, CrashFirst, Shaped;
  }

  /** The failures that no crash undid; those of the window before it too, if the process ended before any save. */
  ghost function FailuresSince(s0: Sys, es: seq<Event>, w: nat): nat
    requires w <= |es| && Exec(s0, es[..w]).Some?
  {
    (if CrashFirst(es, w) then DiskAt(s0, es, w).failures else 0) + |InMemory(s0, es, Failing, w)|
  }

  lemma FailuresCounted(s0: Sys, es: seq<Event>, w: nat, t: Sys)
    requires Installed(s0) && Exec(s0, es) == Some(t) && LastSwap(s0, es, w) && !UndoFailed(s0, es)
    requires t.mem.updateAt != 0
    ensures w < |es| && Exec(s0, es[..w]).Some? && t.mem.failures == FailuresSince(s0, es, w)
  {
    Known(s0, es, w, t);
    hide Exec, LastSwap, UndoFailed, InMemory, CrashFirst, Shaped;
  }

  /**
   * Where a failure was counted, the program goes on to the rollback exactly if two have been; the image
   * is then the one that runs, and no conclusion of its watch has lasted.
   */
  lemma RollbackIffTwoFailures(s0: Sys, es: seq<Event>, w: nat, t: Sys, saved: bool)
    requires Installed(s0) && Exec(s0, es) == Some(t) && LastSwap(s0, es, w) && !UndoFailed(s0, es)
    requires t.pc.CountSave?
    ensures w < |es| && Exec(s0, es[..w]).Some? && InMemory(s0, es, Concluding, w) == {}
    ensures t.proc.running == t.files.cur
    ensures Next(t, Save(saved)).pc == if FailuresSince(s0, es, w) > 1 then RbStat else Idle
  {
    Known(s0, es, w, t);
    FailuresCounted(s0, es, w, t);
    hide Exec, LastSwap, UndoFailed, InMemory, CrashFirst, Replacing, RollingBack, FailuresSince;
  }

  /** During a rollback, up to the hash of the restored file, the same holds. */
  lemma RollbackIsDeserved(s0: Sys, es: seq<Event>, w: nat, t: Sys)
    requires Installed(s0) && Exec(s0, es) == Some(t) && LastSwap(s0, es, w) && !UndoFailed(s0, es)
    requires RollbackPoint(t.pc) || t.pc.RbHash?
    ensures w < |es| && Exec(s0, es[..w]).Some? && InMemory(s0, es, Concluding, w) == {}
    ensures FailuresSince(s0, es, w) > 1
    ensures RollbackPoint(t.pc) ==> t.proc.running == Present(t)
  {
    Known(s0, es, w, t);
    FailuresCounted(s0, es, w, t);
    hide Exec, LastSwap, UndoFailed, InMemory, CrashFirst, Replacing, RollingBack, FailuresSince;
  }

  // ----- Without a swap

  /** Before the first swap no window is open, neither in memory nor in the file. */
  lemma {:induction false} NoSwapNoWindow(s0: Sys, es: seq<Event>, t: Sys)
    requires Installed(s0) && Exec(s0, es) == Some(t) && forall k: nat :: !SwapAt(s0, es, k)
    requires !UndoFailed(s0, es)
    ensures t.mem.updateAt == 0 && t.disk.updateAt == 0
  {
    if es != [] {
      var init, e := es[..|es| - 1], es[|es| - 1];
      var s := Exec(s0, init).value;
      assert es == init + [e];
      forall k: nat ensures !SwapAt(s0, init, k) {
        TouchAppended(s0, init, e, k);
      }
      TouchAppended(s0, init, e, |init|);
      Reachable(s0, init);
      BrokenIffUndoFailed(s0, init);
      BrokenIffUndoFailed(s0, es);
      BrokenStep(s, e);
      hide Next, Enabled, SwapAt, UndoFailed, Swaps, Shaped, Sound;
      NoSwapNoWindow(s0, init, s);
      WindowStep(s, e);
    }
  }
}
