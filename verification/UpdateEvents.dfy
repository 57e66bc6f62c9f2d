/** What the bookkeeping of the update means in terms of the events of a run. */
module UpdateEvents {
  import opened Prelude
  import opened UpdateMachine
  import opened UpdateWindow

  // ----- Events, and where they find the program

  /** The rename that puts a new image in place. */
  predicate Swaps(s: Sys, e: Event) {
    s.pc.UpPut? && e == File(true)
  }

  /** A swap, the rename that puts the backup back, or the end of the backup of a window open on disk. */
  predicate Touches(s: Sys, e: Event) {
    e == File(true) && (s.pc.UpPut? || s.pc.RbPut? || ((s.pc.UpDrop? || s.pc.UpTake?) && s.disk.updateAt != 0))
  }

  /** A swap, or a rollback that could hash the restored file: memory describes the files again. */
  predicate Heals(s: Sys, e: Event) {
    Swaps(s, e) || (e.Hash? && e.ok)
  }

  predicate Clears(e: Event) {
    e == Save(true) || e.Crash?
  }

  ghost predicate SwapAt(s0: Sys, es: seq<Event>, i: nat) {
    i < |es| && Exec(s0, es[..i]).Some? && Swaps(Exec(s0, es[..i]).value, es[i])
  }

  ghost predicate TouchAt(s0: Sys, es: seq<Event>, i: nat) {
    i < |es| && Exec(s0, es[..i]).Some? && Touches(Exec(s0, es[..i]).value, es[i])
  }

  ghost predicate HealAt(s0: Sys, es: seq<Event>, i: nat) {
    i < |es| && Exec(s0, es[..i]).Some? && Heals(Exec(s0, es[..i]).value, es[i])
  }

  /** A touch that neither a successful save nor a crash follows. */
  ghost predicate Pending(s0: Sys, es: seq<Event>) {
    exists i: nat :: TouchAt(s0, es, i) && forall k :: i < k < |es| ==> !Clears(es[k])
  }

  /** A crash between two renames or before a touch was saved, or a restored file that could not be hashed. */
  ghost predicate LossAt(s0: Sys, es: seq<Event>, i: nat) {
    && i < |es| && Exec(s0, es[..i]).Some?
    && ((es[i].Crash? && (Exec(s0, es[..i]).value.files.cur.None? || Pending(s0, es[..i])))
       || (es[i].Hash? && !es[i].ok))
  }

  ghost predicate Loss(s0: Sys, es: seq<Event>) {
    exists i: nat :: LossAt(s0, es, i) && forall k: nat :: i < k ==> !HealAt(s0, es, k)
  }

  // ----- One more event

  lemma Appended(s0: Sys, es: seq<Event>, e: Event, i: nat)
    requires i <= |es|
    ensures (es + [e])[..i] == es[..i] && (i < |es| ==> (es + [e])[i] == es[i]) && (es + [e])[|es|] == e
  {
  }

  lemma TouchAppended(s0: Sys, es: seq<Event>, e: Event, i: nat)
    requires Exec(s0, es).Some?
    ensures var s := Exec(s0, es).value;
            && (TouchAt(s0, es + [e], i) <==> TouchAt(s0, es, i) || (i == |es| && Touches(s, e)))
            && (SwapAt(s0, es + [e], i) <==> SwapAt(s0, es, i) || (i == |es| && Swaps(s, e)))
            && (HealAt(s0, es + [e], i) <==> HealAt(s0, es, i) || (i == |es| && Heals(s, e)))
  {
    hide Exec, Touches, Swaps, Heals;
    assert es[..|es|] == es;
    if i <= |es| {
      Appended(s0, es, e, i);
    }
  }

  lemma PendingAppended(s0: Sys, es: seq<Event>, e: Event)
    requires Exec(s0, es).Some?
    ensures Pending(s0, es + [e]) <==> Touches(Exec(s0, es).value, e) || (Pending(s0, es) && !Clears(e))
  {
    hide Exec, Touches, TouchAt, Clears;
    var fs := es + [e];
    assert forall k: nat :: k < |es| ==> fs[k] == es[k];
    if Touches(Exec(s0, es).value, e) {
      TouchAppended(s0, es, e, |es|);
      assert TouchAt(s0, fs, |es|);
    } else if Pending(s0, es) && !Clears(e) {
      var i: nat :| TouchAt(s0, es, i) && forall k :: i < k < |es| ==> !Clears(es[k]);
      TouchAppended(s0, es, e, i);
      assert TouchAt(s0, fs, i);
    }
    if Pending(s0, fs) {
      var i: nat :| TouchAt(s0, fs, i) && forall k :: i < k < |fs| ==> !Clears(fs[k]);
      TouchAppended(s0, es, e, i);
      TouchBefore(s0, es, i);
      if i < |es| {
        assert !Clears(fs[|es|]);
        assert forall k :: i < k < |es| ==> !Clears(es[k]) by {
          assert forall k :: i < k < |es| ==> !Clears(fs[k]);
        }
      }
    }
  }

  lemma TouchBefore(s0: Sys, es: seq<Event>, i: nat)
    ensures TouchAt(s0, es, i) || HealAt(s0, es, i) || LossAt(s0, es, i) ==> i < |es|
  {
  }

  /** The event at i of the longer run, in terms of the shorter one. */
  ghost predicate LossEvent(s0: Sys, es: seq<Event>, s: Sys, e: Event) {
    (e.Crash? && (s.files.cur.None? || Pending(s0, es))) || (e.Hash? && !e.ok)
  }

  lemma LossAtAppended(s0: Sys, es: seq<Event>, e: Event, i: nat)
    requires Exec(s0, es).Some?
    ensures LossAt(s0, es + [e], i) <==> LossAt(s0, es, i) || (i == |es| && LossEvent(s0, es, Exec(s0, es).value, e))
    ensures LossAt(s0, es, i) || HealAt(s0, es, i) ==> i < |es|
  {
    hide Exec, Pending;
    assert es[..|es|] == es;
    if i <= |es| {
      Appended(s0, es, e, i);
    }
  }

  lemma LossIf(s0: Sys, es: seq<Event>, e: Event)
    requires Exec(s0, es).Some?
    requires LossEvent(s0, es, Exec(s0, es).value, e) || (Loss(s0, es) && !Heals(Exec(s0, es).value, e))
    ensures Loss(s0, es + [e])
  {
    hide Exec, Heals, HealAt, LossAt, LossEvent;
    var i: nat;
    if LossEvent(s0, es, Exec(s0, es).value, e) {
      i := |es|;
    } else {
      i :| LossAt(s0, es, i) && forall k: nat :: i < k ==> !HealAt(s0, es, k);
    }
    LossAtAppended(s0, es, e, i);
    forall k: nat | i < k ensures !HealAt(s0, es + [e], k) {
      TouchAppended(s0, es, e, k);
      LossAtAppended(s0, es, e, k);
    }
  }

  lemma LossOnlyIf(s0: Sys, es: seq<Event>, e: Event)
    requires Exec(s0, es).Some? && Loss(s0, es + [e])
    ensures LossEvent(s0, es, Exec(s0, es).value, e) || (Loss(s0, es) && !Heals(Exec(s0, es).value, e))
  {
    hide Exec, Heals, HealAt, LossAt, LossEvent;
    var i: nat :| LossAt(s0, es + [e], i) && forall k: nat :: i < k ==> !HealAt(s0, es + [e], k);
    LossAtAppended(s0, es, e, i);
    if !LossEvent(s0, es, Exec(s0, es).value, e) {
      assert i < |es| && LossAt(s0, es, i);
      TouchAppended(s0, es, e, |es|);
      assert !HealAt(s0, es + [e], |es|);
      forall k: nat | i < k ensures !HealAt(s0, es, k) {
        TouchAppended(s0, es, e, k);
      }
    }
  }

  // ----- dirty and lost, exactly

  lemma FlagStep(s: Sys, e: Event)
    requires Enabled(s, e)
    ensures Next(s, e).book.dirty <==> Touches(s, e) || (s.book.dirty && !Clears(e))
    ensures Next(s, e).book.lost <==>
              (e.Crash? && (s.files.cur.None? || s.book.dirty)) || (e.Hash? && !e.ok) || (s.book.lost && !Heals(s, e))
  {
    if e.File? {
      hide Next, Enabled, Touches, Heals;
      if RollbackPoint(s.pc) {
        RollbackFlagStep(s, e.ok);
      } else {
        UpdateFlagStep(s, e.ok);
      }
    } else {
      hide Installs, OnUpdateFile, OnRollbackFile;
    }
  }

  lemma RollbackFlagStep(s: Sys, ok: bool)
    requires Enabled(s, File(ok)) && RollbackPoint(s.pc)
    ensures Next(s, File(ok)).book.dirty <==> Touches(s, File(ok)) || s.book.dirty
    ensures Next(s, File(ok)).book.lost <==> s.book.lost && !Heals(s, File(ok))
  {
    hide OnUpdateFile;
  }

  lemma UpdateFlagStep(s: Sys, ok: bool)
    requires Enabled(s, File(ok)) && !RollbackPoint(s.pc)
    ensures Next(s, File(ok)).book.dirty <==> Touches(s, File(ok)) || s.book.dirty
    ensures Next(s, File(ok)).book.lost <==> s.book.lost && !Heals(s, File(ok))
  {
    hide OnRollbackFile;
  }

  /** The flags are true exactly if the events of the run say so. */
  lemma {:induction false} LostIffLoss(s0: Sys, es: seq<Event>)
    requires !s0.book.dirty && !s0.book.lost && Exec(s0, es).Some?
    ensures Exec(s0, es).value.book.dirty <==> Pending(s0, es)
    ensures Exec(s0, es).value.book.lost <==> Loss(s0, es)
  {
    if es == [] {
    } else {
      var init, e := es[..|es| - 1], es[|es| - 1];
      var s := Exec(s0, init).value;
      LostIffLoss(s0, init);
      assert es == init + [e];
      FlagStep(s, e);
      PendingAppended(s0, init, e);
      hide Pending, Loss, Heals, Touches, Next, Enabled;
      if LossEvent(s0, init, s, e) || (Loss(s0, init) && !Heals(s, e)) {
        LossIf(s0, init, e);
      } else if Loss(s0, es) {
        LossOnlyIf(s0, init, e);
      }
    }
  }

  // ----- broken, exactly

  predicate UndoFails(s: Sys, e: Event) {
    (s.pc.RbUndo? || s.pc.UpUndo?) && e == File(false)
  }

  ghost predicate UndoFailed(s0: Sys, es: seq<Event>) {
    exists i: nat :: i < |es| && Exec(s0, es[..i]).Some? && UndoFails(Exec(s0, es[..i]).value, es[i])
  }

  lemma BrokenStep(s: Sys, e: Event)
    requires Enabled(s, e)
    ensures Next(s, e).book.broken <==> s.book.broken || UndoFails(s, e)
  {
    if e.File? {
      BrokenFileStep(s, e.ok);
    } else {
      hide Installs, OnUpdateFile, OnRollbackFile;
    }
  }

  lemma BrokenFileStep(s: Sys, ok: bool)
    requires Enabled(s, File(ok))
    ensures Next(s, File(ok)).book.broken <==> s.book.broken || UndoFails(s, File(ok))
  {
  }

  lemma {:induction false} BrokenIffUndoFailed(s0: Sys, es: seq<Event>)
    requires !s0.book.broken && Exec(s0, es).Some?
    ensures Exec(s0, es).value.book.broken <==> UndoFailed(s0, es)
  {
    if es != [] {
      var init, e := es[..|es| - 1], es[|es| - 1];
      BrokenIffUndoFailed(s0, init);
      BrokenStep(Exec(s0, init).value, e);
      hide Next, Enabled, UndoFails;
      assert es == init + [e];
      forall i: nat | i < |init| ensures es[..i] == init[..i] && es[i] == init[i] {
      }
      if UndoFails(Exec(s0, init).value, e) {
        assert es[..|init|] == init;
      }
    }
  }

  lemma SwapBefore(s0: Sys, es: seq<Event>, i: nat)
    ensures SwapAt(s0, es, i) ==> i < |es|
  {
  }
}
