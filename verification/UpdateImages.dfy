/** Which images the files hold, exactly, over every run from an installation, whatever crashes and fails. */
module UpdateImages {
  import opened Prelude
  import opened UpdateMachine
  import opened UpdateWindow
  import opened UpdateEvents
  import opened UpdateKept
  import opened UpdateOutcome

  /** Since the swap at w, a rename or a removal took the backup away. */
  ghost predicate Disturbed(s0: Sys, es: seq<Event>, w: nat) {
    exists i: nat :: w < i && At(s0, es, Disturbing, i)
  }

  /** The process ended between two renames and left no binary: nothing can start. */
  predicate Stranded(s: Sys) {
    s.pc.Down? && s.files.cur.None?
  }

  predicate Holds(s: Sys, disturbed: bool) {
    && s.book.newest.Some? && s.book.previous.Some?
    && (if disturbed then s.files.bak.None? || s.pc.UpPut? || s.pc.UpUndo? || Stranded(s)
        else
          && s.files.bak == s.book.previous && (Present(s) == s.book.newest || Stranded(s))
          && !s.pc.UpPut? && !s.pc.UpUndo?)
  }

  lemma HoldsFile(s: Sys, disturbed: bool, ok: bool)
    requires Shaped(s) && Enabled(s, File(ok)) && !Swaps(s, File(ok)) && Holds(s, disturbed)
    ensures Next(s, File(ok)).book.broken
            || Holds(Next(s, File(ok)), disturbed || Of(Disturbing, s, File(ok)))
  {
    if RollbackPoint(s.pc) {
      hide OnUpdateFile, Replacing;
    } else {
      hide OnRollbackFile, RollingBack, Accepted;
    }
  }

  lemma HoldsStep(s: Sys, disturbed: bool, e: Event)
    requires Shaped(s) && Enabled(s, e) && !Swaps(s, e) && Holds(s, disturbed)
    ensures Next(s, e).book.broken || Holds(Next(s, e), disturbed || Of(Disturbing, s, e))
  {
    if e.File? {
      HoldsFile(s, disturbed, e.ok);
    } else {
      hide Installs, OnUpdateFile, OnRollbackFile, Accepted;
    }
  }

  lemma HoldsSwap(s: Sys, e: Event)
    requires Shaped(s) && Enabled(s, e) && Swaps(s, e)
    ensures Holds(Next(s, e), false)
  {
  }

  lemma DisturbedAppended(s0: Sys, es: seq<Event>, e: Event, w: nat)
    requires Exec(s0, es).Some? && w < |es|
    ensures Disturbed(s0, es + [e], w) <==> Disturbed(s0, es, w) || Of(Disturbing, Exec(s0, es).value, e)
  {
    forall i: nat
      ensures At(s0, es + [e], Disturbing, i) <==>
                At(s0, es, Disturbing, i) || (i == |es| && Of(Disturbing, Exec(s0, es).value, e))
    {
      AtAppended(s0, es, e, Disturbing, i);
    }
    hide Exec, Of, At;
    if Disturbed(s0, es, w) {
      var i: nat :| w < i && At(s0, es, Disturbing, i);
      assert At(s0, es + [e], Disturbing, i);
    } else if Of(Disturbing, Exec(s0, es).value, e) {
      assert At(s0, es + [e], Disturbing, |es|);
    }
  }

  lemma {:induction false} RunHolds(s0: Sys, es: seq<Event>, w: nat)
    requires Inv(s0) && Exec(s0, es).Some? && LastSwap(s0, es, w)
    ensures Exec(s0, es).value.book.broken || Holds(Exec(s0, es).value, Disturbed(s0, es, w))
  {
    if es == [] {
      SwapBefore(s0, es, w);
    } else {
      var init, e := es[..|es| - 1], es[|es| - 1];
      var s := Exec(s0, init).value;
      assert es == init + [e];
      Reachable(s0, init);
      LastSwapBefore(s0, init, e, w);
      BrokenStep(s, e);
      hide LastSwap, Swaps, Shaped, Sound, Holds, Next, Enabled;
      if s.book.broken {
      } else if w < |init| {
        RunHolds(s0, init, w);
        DisturbedAppended(s0, init, e, w);
        HoldsStep(s, Disturbed(s0, init, w), e);
      } else {
        HoldsSwap(s, e);
      }
    }
  }

  // ----- An open window over files that were disturbed

  /** Memory does not know of them: the process ended after each before any save. The disk never had them. */
  ghost predicate Unknown(s0: Sys, es: seq<Event>, w: nat, t: Sys) {
    && (t.mem.updateAt != 0 && !t.pc.RbHash? ==>
          forall i: nat :: w < i && At(s0, es, Disturbing, i) ==> CrashFirst(es, i))
    && (t.disk.updateAt != 0 ==> forall i: nat :: w < i && At(s0, es, Disturbing, i) ==> Unwritten(es, i))
  }

  /** What a step does to the window, and where it leaves the program. */
  lemma DisturbingStep(s: Sys, e: Event)
    requires Shaped(s) && Enabled(s, e) && !Swaps(s, e)
    ensures Of(Disturbing, s, e) ==> Next(s, e).mem.updateAt == 0 || Next(s, e).pc.RbHash?
    ensures Next(s, e).mem.updateAt != 0 && !e.Crash? && !Next(s, e).pc.RbHash? ==>
              s.mem.updateAt != 0 && !s.pc.RbHash?
    ensures Next(s, e).disk == (if e == Save(true) then s.mem else s.disk)
    ensures e.Crash? ==> Next(s, e).mem == s.disk
    ensures e.Save? ==> !s.pc.RbHash?
  {
    if e.File? {
      WindowFileStep(s, e.ok);
      hide OnUpdateFile, Replacing, RollingBack;
    } else {
      hide Installs, OnUpdateFile, OnRollbackFile, Replacing, RollingBack;
    }
  }

  lemma UnknownStep(s0: Sys, es: seq<Event>, e: Event, w: nat, s: Sys)
    requires Shaped(s) && Exec(s0, es) == Some(s) && Enabled(s, e) && w < |es| && !Swaps(s, e)
    requires Unknown(s0, es, w, s)
    ensures Unknown(s0, es + [e], w, Next(s, e))
  {
    DisturbingStep(s, e);
    hide Next, Enabled, Exec, Shaped, Of, At, CrashFirst, SavedSince;
    forall i: nat | w < i && At(s0, es + [e], Disturbing, i)
      ensures Next(s, e).mem.updateAt != 0 && !Next(s, e).pc.RbHash? ==> CrashFirst(es + [e], i)
      ensures Next(s, e).disk.updateAt != 0 ==> Unwritten(es + [e], i)
    {
      AtAppended(s0, es, e, Disturbing, i);
      if i < |es| {
        CrashFirstAppended(es, e, i);
        SavedSinceAppended(es, e, i);
      } else {
        NotSavedYet(es + [e], i);
      }
    }
  }

  lemma NotSavedYet(es: seq<Event>, i: nat)
    requires |es| <= i + 1
    ensures !SavedSince(es, i) && !CrashFirst(es, i)
  {
  }

  lemma {:induction false} RunUnknown(s0: Sys, es: seq<Event>, w: nat)
    requires Inv(s0) && Exec(s0, es).Some? && LastSwap(s0, es, w)
    ensures Exec(s0, es).value.book.broken || Unknown(s0, es, w, Exec(s0, es).value)
  {
    SwapBefore(s0, es, w);
    if es != [] {
      var init, e := es[..|es| - 1], es[|es| - 1];
      var s := Exec(s0, init).value;
      assert es == init + [e];
      Reachable(s0, init);
      LastSwapBefore(s0, init, e, w);
      BrokenStep(s, e);
      hide LastSwap, Swaps, Shaped, Sound, Unknown, Next, Enabled;
      if s.book.broken {
      } else if w < |init| {
        RunUnknown(s0, init, w);
        UnknownStep(s0, init, e, w, s);
      } else {
        NothingAfter(s0, es, w);
      }
    }
  }

  lemma NothingAfter(s0: Sys, es: seq<Event>, w: nat)
    requires |es| <= w + 1 && Exec(s0, es).Some?
    ensures Unknown(s0, es, w, Exec(s0, es).value)
  {
  }

  // ----- The main results

  lemma Facts(s0: Sys, es: seq<Event>, w: nat, t: Sys)
    requires Installed(s0) && Exec(s0, es) == Some(t) && LastSwap(s0, es, w) && !UndoFailed(s0, es)
    ensures !t.book.broken && Shaped(t) && Holds(t, Disturbed(s0, es, w)) && Unknown(s0, es, w, t)
  {
    Reachable(s0, es);
    BrokenIffUndoFailed(s0, es);
    RunHolds(s0, es, w);
    RunUnknown(s0, es, w);
    hide Exec, LastSwap, UndoFailed, Holds, Unknown, Disturbed, Sound, Shaped;
  }

  /** There is a binary, or a rollback is between its two renames. */
  predicate Usable(s: Sys) {
    s.files.cur.Some? || s.pc.RbPut? || s.pc.RbUndo?
  }

  /** Binary and backup are the two images of the last swap exactly until the backup is taken away. */
  lemma FilesAreTheSwappedIff(s0: Sys, es: seq<Event>, w: nat, t: Sys)
    requires Installed(s0) && Exec(s0, es) == Some(t) && LastSwap(s0, es, w) && !UndoFailed(s0, es)
    requires Usable(t)
    ensures Present(t) == t.book.newest && t.files.bak == t.book.previous <==> !Disturbed(s0, es, w)
    ensures t.files.bak.Some? <==> !Disturbed(s0, es, w)
  {
    Facts(s0, es, w, t);
    hide Exec, LastSwap, UndoFailed, Disturbed, Unknown;
  }

  /**
   * While the window is open, they are these two exactly if the process never ended after a step that took
   * the backup away and before the next save.
   */
  lemma WindowDescribesFilesIff(s0: Sys, es: seq<Event>, w: nat, t: Sys)
    requires Installed(s0) && Exec(s0, es) == Some(t) && LastSwap(s0, es, w) && !UndoFailed(s0, es)
    requires Usable(t) && t.mem.updateAt != 0 && !t.pc.RbHash?
    ensures Present(t) == t.book.newest && t.files.bak == t.book.previous <==>
            forall i: nat :: w < i && At(s0, es, Disturbing, i) ==> !CrashFirst(es, i)
  {
    Facts(s0, es, w, t);
    FilesAreTheSwappedIff(s0, es, w, t);
    hide Exec, LastSwap, UndoFailed, At, CrashFirst, Shaped, Holds, Usable;
  }

  /** Whatever crashed before it, a rollback takes the newest image away and puts the one before it back. */
  lemma RollbackPutsPrevious(s0: Sys, es: seq<Event>, w: nat, t: Sys)
    requires Installed(s0) && Exec(s0, es) == Some(t) && LastSwap(s0, es, w) && !UndoFailed(s0, es)
    requires t.pc.RbPut?
    ensures Enabled(t, File(true))
    ensures Next(t, File(true)).files.cur == t.book.previous && Next(t, File(true)).files.failed == t.book.newest
  {
    FilesAreTheSwappedIff(s0, es, w, t);
    Facts(s0, es, w, t);
    hide Exec, LastSwap, UndoFailed, Disturbed, Unknown, Holds;
  }

  /** A rollback finds a backup exactly if none was taken away. */
  lemma BackupFoundIff(s0: Sys, es: seq<Event>, w: nat, t: Sys)
    requires Installed(s0) && Exec(s0, es) == Some(t) && LastSwap(s0, es, w) && !UndoFailed(s0, es)
    requires t.pc.RbStat?
    ensures Enabled(t, File(true)) <==> !Disturbed(s0, es, w)
  {
    Facts(s0, es, w, t);
    FilesAreTheSwappedIff(s0, es, w, t);
    hide Exec, LastSwap, UndoFailed, Disturbed, Unknown, Holds;
  }
}
