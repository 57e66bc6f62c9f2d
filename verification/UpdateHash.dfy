/** Which binary the stored hash describes, and so when a start raises the tamper alarm, exactly. */
module UpdateHash {
  import opened Prelude
  import opened Semver
  import opened UpdateMachine
  import opened UpdateWindow
  import opened UpdateEvents
  import opened UpdateKept
  import UpdateSafety

  /** The hash that a swap, a rollback or a first start puts. */
  function Put(s: Sys, e: Event): string
    requires Enabled(s, e) && Of(Hashing, s, e)
  {
    if e.File? then Lower(s.pc.offer.sha) else s.files.cur.value.digest
  }

  /** The hash the event at i put. */
  ghost function HashAt(s0: Sys, es: seq<Event>, i: nat): string
    requires At(s0, es, Hashing, i) && Enabled(Exec(s0, es[..i]).value, es[i])
  {
    Put(Exec(s0, es[..i]).value, es[i])
  }

  /** The binary after the event at i. */
  ghost function BinaryAt(s0: Sys, es: seq<Event>, i: nat): Option<Image>
    requires At(s0, es, Hashing, i) && Enabled(Exec(s0, es[..i]).value, es[i])
  {
    Next(Exec(s0, es[..i]).value, es[i]).files.cur
  }

  predicate Latest(kept: set<nat>, i: nat) {
    i in kept && forall k :: k in kept ==> k <= i
  }

  /** The hash is the one put by the latest of the events that are kept, or there is none and it is unset. */
  ghost predicate PutByLatest(s0: Sys, es: seq<Event>, hash: string, kept: set<nat>) {
    (kept == {} ==> hash == "")
    && forall i: nat | Latest(kept, i) ::
         && At(s0, es, Hashing, i) && Enabled(Exec(s0, es[..i]).value, es[i])
         && hash == HashAt(s0, es, i)
  }

  ghost predicate Recalls(s0: Sys, es: seq<Event>, t: Sys) {
    && PutByLatest(s0, es, t.mem.baseline, InMemory(s0, es, Hashing, -1))
    && PutByLatest(s0, es, t.disk.baseline, OnDisk(s0, es, Hashing, -1))
  }

  // ----- Kept by every step

  lemma HashStep(s: Sys, e: Event)
    requires Enabled(s, e)
    ensures Next(s, e).mem.baseline ==
            if Of(Hashing, s, e) then Put(s, e) else if e.Crash? then s.disk.baseline
            else if e.Boot? then s.disk.baseline else s.mem.baseline
    ensures Next(s, e).disk.baseline == if e == Save(true) then s.mem.baseline else s.disk.baseline
  {
    if e.File? {
      HashFileStep(s, e.ok);
    } else {
      hide Installs, OnUpdateFile, OnRollbackFile;
    }
  }

  lemma HashFileStep(s: Sys, ok: bool)
    requires Enabled(s, File(ok))
    ensures var t := Next(s, File(ok));
            t.disk == s.disk
            && t.mem.baseline == if Swaps(s, File(ok)) then Lower(s.pc.offer.sha) else s.mem.baseline
  {
    hide Lower;
  }

  lemma PutAppended(s0: Sys, es: seq<Event>, e: Event, hash: string, kept: set<nat>)
    requires Exec(s0, es + [e]).Some? && Exec(s0, es).Some? && PutByLatest(s0, es, hash, kept)
    ensures PutByLatest(s0, es + [e], hash, kept)
  {
    hide Exec, Of, Next, Enabled, Put, Latest;
    forall i: nat | Latest(kept, i)
      ensures At(s0, es + [e], Hashing, i) && Enabled(Exec(s0, (es + [e])[..i]).value, (es + [e])[i])
              && hash == HashAt(s0, es + [e], i)
    {
      assert At(s0, es, Hashing, i);
      Appended(s0, es, e, i);
    }
  }

  lemma PutNow(s0: Sys, es: seq<Event>, e: Event, s: Sys, kept: set<nat>)
    requires Exec(s0, es) == Some(s) && Enabled(s, e) && Of(Hashing, s, e) && forall k :: k in kept ==> k < |es|
    ensures PutByLatest(s0, es + [e], Put(s, e), kept + {|es|})
  {
    hide Exec, Of, Next, Enabled, Put;
    AtAppended(s0, es, e, Hashing, |es|);
    assert (es + [e])[..|es|] == es && (es + [e])[|es|] == e;
    forall i: nat | Latest(kept + {|es|}, i) ensures i == |es| {
      assert |es| in kept + {|es|};
    }
  }

  lemma RecallsStep(s0: Sys, es: seq<Event>, e: Event, s: Sys)
    requires Shaped(s) && Exec(s0, es) == Some(s) && Enabled(s, e) && Recalls(s0, es, s)
    requires Exec(s0, es + [e]) == Some(Next(s, e))
    ensures Recalls(s0, es + [e], Next(s, e))
  {
    HashStep(s, e);
    assert s.pc.Down? ==> s.mem == s.disk;
    assert e.Boot? ==> s.pc.Down?;
    var mem, disk := InMemory(s0, es, Hashing, -1), OnDisk(s0, es, Hashing, -1);
    hide Exec, Next, Enabled, Shaped, Of, Put, PutByLatest, InMemory, OnDisk;
    SetsEver(s0, es, e, s);
    PutAppended(s0, es, e, s.mem.baseline, mem);
    PutAppended(s0, es, e, s.disk.baseline, disk);
    if Of(Hashing, s, e) {
      PutNow(s0, es, e, s, if e.Crash? then disk else mem);
    }
  }

  lemma SetsEver(s0: Sys, es: seq<Event>, e: Event, s: Sys)
    requires Exec(s0, es) == Some(s)
    ensures InMemory(s0, es + [e], Hashing, -1) ==
            (if e.Crash? then OnDisk(s0, es, Hashing, -1) else InMemory(s0, es, Hashing, -1))
            + (if Of(Hashing, s, e) then {|es|} else {})
    ensures OnDisk(s0, es + [e], Hashing, -1) ==
            if e == Save(true) then InMemory(s0, es, Hashing, -1) else OnDisk(s0, es, Hashing, -1)
  {
    SetsAppended(s0, es, e, Hashing, -1);
  }

  lemma {:induction false} RunRecalls(s0: Sys, es: seq<Event>)
    requires Installed(s0) && Exec(s0, es).Some? && !Exec(s0, es).value.book.broken
    ensures Recalls(s0, es, Exec(s0, es).value)
  {
    if es == [] {
      NothingYet(s0, es, Hashing, -1);
    } else {
      var init, e := es[..|es| - 1], es[|es| - 1];
      var s := Exec(s0, init).value;
      assert es == init + [e];
      BrokenStep(s, e);
      Reachable(s0, init);
      hide Recalls, Shaped, Sound, Next, Enabled;
      RunRecalls(s0, init);
      RecallsStep(s0, init, e, s);
    }
  }

  // ----- What a hash describes

  lemma PutDescribes(s: Sys, e: Event)
    requires Shaped(s) && Enabled(s, e) && Of(Hashing, s, e)
    ensures Next(s, e).files.cur.Some? && Trim(Put(s, e)) == Next(s, e).files.cur.value.digest
    ensures Lower(Put(s, e)) == Put(s, e)
    ensures UpdateSafety.Unpadded(s) ==> Trim(Put(s, e)) == Put(s, e)
  {
    if e.File? {
      LowerTrims(s.pc.offer.sha);
    } else {
      HexUntrimmed(s.files.cur.value.digest);
    }
    hide Trim, Lower, OnRollbackFile;
  }

  /** A failed undoing rename stays one, and what was announced before is announced. */
  lemma Before(s0: Sys, es: seq<Event>, i: nat)
    requires Installed(s0) && i <= |es| && Exec(s0, es[..i]).Some? && !UndoFailed(s0, es)
    ensures Shaped(Exec(s0, es[..i]).value)
    ensures UpdateSafety.AnnouncedPlainly(es) ==> UpdateSafety.Unpadded(Exec(s0, es[..i]).value)
  {
    Reachable(s0, es[..i]);
    BrokenIffUndoFailed(s0, es[..i]);
    hide Exec, Shaped, Sound;
    forall j: nat | j < i ensures es[..i][..j] == es[..j] && es[..i][j] == es[j] {
    }
    assert Trim("") == "";
    if UpdateSafety.AnnouncedPlainly(es) {
      UpdateSafety.UnpaddedRun(s0, es[..i]);
    }
  }

  /** The hash put at i has blanks around it, or it is that of another binary than this one. */
  ghost predicate Mismatch(s0: Sys, es: seq<Event>, i: nat, binary: Image)
    requires At(s0, es, Hashing, i) && Enabled(Exec(s0, es[..i]).value, es[i])
  {
    || Trim(HashAt(s0, es, i)) != HashAt(s0, es, i)
    || BinaryAt(s0, es, i).None? || BinaryAt(s0, es, i).value.digest != binary.digest
  }

  lemma HasLatest(kept: set<nat>) returns (i: nat)
    requires kept != {}
    ensures Latest(kept, i)
  {
    var j: nat :| j in kept;
    i := j;
    if k: nat :| k in kept && k > j {
      var above := set m | m in kept && m > j;
      assert k in above && above <= kept && j !in above;
      i := HasLatest(above);
      assert forall m :: m in kept && m > j ==> m in above;
    }
  }

  lemma HashTold(s0: Sys, es: seq<Event>, t: Sys)
    requires Installed(s0) && Exec(s0, es) == Some(t) && !UndoFailed(s0, es)
    ensures PutByLatest(s0, es, t.disk.baseline, OnDisk(s0, es, Hashing, -1)) && Inv(t) && Shaped(t)
  {
    BrokenIffUndoFailed(s0, es);
    Reachable(s0, es);
    RunRecalls(s0, es);
    hide Exec, PutByLatest, UndoFailed, Shaped, Sound;
  }

  /** An alarm compares with the stored hash, and a hash that is stored is the one put last. */
  lemma AlarmIfMismatch(s0: Sys, es: seq<Event>, t: Sys, i: nat)
    requires Installed(s0) && Exec(s0, es) == Some(t) && !UndoFailed(s0, es) && t.pc.Down? && t.files.cur.Some?
    requires Latest(OnDisk(s0, es, Hashing, -1), i)
    ensures At(s0, es, Hashing, i) && Enabled(Exec(s0, es[..i]).value, es[i])
    ensures OnBoot(t, true).proc.alarm <==> Mismatch(s0, es, i, t.files.cur.value)
    ensures UpdateSafety.AnnouncedPlainly(es) ==> Trim(HashAt(s0, es, i)) == HashAt(s0, es, i)
    ensures BinaryAt(s0, es, i).Some?
  {
    HashTold(s0, es, t);
    assert At(s0, es, Hashing, i);
    Before(s0, es, i);
    var s := Exec(s0, es[..i]).value;
    PutDescribes(s, es[i]);
    HexUntrimmed(t.files.cur.value.digest);
    assert HashAt(s0, es, i) == Put(s, es[i]) != "" by {
      assert Trim("") == "";
    }
    hide Exec, PutByLatest, UndoFailed, Shaped, Sound, Next, Enabled, Of, Put, Trim, Lower, OnDisk, Latest;
  }

  /**
   * A start raises the alarm exactly if, of all hashes ever put, the last one to be saved has blanks around
   * it or is that of another binary than the one that starts.
   */
  lemma AlarmIff(s0: Sys, es: seq<Event>, t: Sys)
    requires Installed(s0) && Exec(s0, es) == Some(t) && !UndoFailed(s0, es) && t.pc.Down? && t.files.cur.Some?
    ensures OnBoot(t, true).proc.alarm <==>
              exists i: nat | Latest(OnDisk(s0, es, Hashing, -1), i) ::
                && At(s0, es, Hashing, i) && Enabled(Exec(s0, es[..i]).value, es[i])
                && Mismatch(s0, es, i, t.files.cur.value)
  {
    var kept := OnDisk(s0, es, Hashing, -1);
    forall i: nat | Latest(kept, i)
      ensures At(s0, es, Hashing, i) && Enabled(Exec(s0, es[..i]).value, es[i])
              && (OnBoot(t, true).proc.alarm <==> Mismatch(s0, es, i, t.files.cur.value))
    {
      AlarmIfMismatch(s0, es, t, i);
    }
    hide Installed, UndoFailed, Exec, OnDisk, Enabled, Mismatch, Latest, Lower;
    if kept == {} {
      NothingStored(s0, es, t);
      assert forall i: nat :: !Latest(kept, i) by { Nothing(kept); }
    } else {
      var _ := HasLatest(kept);
    }
  }

  lemma Nothing(kept: set<nat>)
    requires kept == {}
    ensures forall i: nat :: !Latest(kept, i)
  {
  }

  lemma NothingStored(s0: Sys, es: seq<Event>, t: Sys)
    requires Installed(s0) && Exec(s0, es) == Some(t) && !UndoFailed(s0, es) && t.pc.Down? && t.files.cur.Some?
    requires OnDisk(s0, es, Hashing, -1) == {}
    ensures !OnBoot(t, true).proc.alarm
  {
    HashTold(s0, es, t);
    hide Exec, UndoFailed, Shaped, Sound, Lower, OnDisk;
  }

  // ----- Without a change of the binary since

  /** The renames that put another binary in place. */
  predicate Replaces(s: Sys, e: Event) {
    e == File(true) && (s.pc.UpPut? || s.pc.RbPut?)
  }

  ghost predicate ReplacedAfter(s0: Sys, es: seq<Event>, i: nat) {
    exists k: nat :: i < k < |es| && Exec(s0, es[..k]).Some? && Replaces(Exec(s0, es[..k]).value, es[k])
  }

  predicate Still(s: Sys, binary: Option<Image>) {
    Present(s) == binary || (s.pc.Down? && s.files.cur.None?)
  }

  lemma StillRollback(s: Sys, ok: bool, binary: Option<Image>)
    requires Shaped(s) && RollbackPoint(s.pc) && Enabled(s, File(ok)) && !Replaces(s, File(ok)) && Still(s, binary)
    ensures Next(s, File(ok)).book.broken || Still(Next(s, File(ok)), binary)
  {
    hide OnUpdateFile, Replacing, Baseline;
  }

  lemma StillUpdate(s: Sys, ok: bool, binary: Option<Image>)
    requires Shaped(s) && !RollbackPoint(s.pc) && Enabled(s, File(ok)) && !Replaces(s, File(ok)) && Still(s, binary)
    ensures Next(s, File(ok)).book.broken || Still(Next(s, File(ok)), binary)
  {
    hide OnRollbackFile, OnSwap, RollingBack, Accepted;
  }

  lemma StillStep(s: Sys, e: Event, binary: Option<Image>)
    requires Shaped(s) && Enabled(s, e) && !Replaces(s, e) && Still(s, binary)
    ensures Next(s, e).book.broken || Still(Next(s, e), binary)
  {
    if e.File? {
      hide Shaped, Still, OnRollbackFile, OnUpdateFile, Replaces;
      if RollbackPoint(s.pc) {
        StillRollback(s, e.ok, binary);
      } else {
        StillUpdate(s, e.ok, binary);
      }
    } else {
      hide Installs, OnUpdateFile, OnRollbackFile, Accepted, Replacing, RollingBack;
    }
  }

  lemma StillAtHash(s: Sys, e: Event)
    requires Enabled(s, e) && Of(Hashing, s, e)
    ensures Still(Next(s, e), Next(s, e).files.cur)
  {
    hide Lower;
  }

  lemma ReplacedAppended(s0: Sys, es: seq<Event>, e: Event, i: nat)
    requires Exec(s0, es).Some? && i < |es|
    ensures ReplacedAfter(s0, es + [e], i) <==> ReplacedAfter(s0, es, i) || Replaces(Exec(s0, es).value, e)
  {
    hide Exec, Replaces;
    var fs := es + [e];
    assert fs[..|es|] == es && fs[|es|] == e;
    forall k: nat | k < |es| ensures fs[..k] == es[..k] && fs[k] == es[k] {
    }
  }

  lemma {:induction false} RunStill(s0: Sys, es: seq<Event>, i: nat)
    requires Installed(s0) && Exec(s0, es).Some? && !Exec(s0, es).value.book.broken
    requires At(s0, es, Hashing, i) && Enabled(Exec(s0, es[..i]).value, es[i]) && !ReplacedAfter(s0, es, i)
    ensures Still(Exec(s0, es).value, BinaryAt(s0, es, i))
  {
    var init, e := es[..|es| - 1], es[|es| - 1];
    var s := Exec(s0, init).value;
    assert es == init + [e] && es[..|init|] == init;
    BrokenStep(s, e);
    hide Next, Enabled, Of, Shaped, Sound, Still, Replaces, At, ReplacedAfter, UndoFails, Put, Present, Swaps;
    AtAppended(s0, init, e, Hashing, i);
    if i < |init| {
      Reachable(s0, init);
      Appended(s0, init, e, i);
      ReplacedAppended(s0, init, e, i);
      RunStill(s0, init, i);
      StillStep(s, e, BinaryAt(s0, es, i));
    } else {
      StillAtHash(s, e);
    }
  }

  /** If the hashes are announced without blanks, an alarm follows a change of the binary whose hash was not saved. */
  lemma AlarmOnlyAfterUnsavedChange(s0: Sys, es: seq<Event>, t: Sys)
    requires Installed(s0) && Exec(s0, es) == Some(t) && !UndoFailed(s0, es) && t.pc.Down? && t.files.cur.Some?
    requires UpdateSafety.AnnouncedPlainly(es) && OnBoot(t, true).proc.alarm
    ensures exists i: nat :: Latest(OnDisk(s0, es, Hashing, -1), i) && ReplacedAfter(s0, es, i)
  {
    AlarmIff(s0, es, t);
    var i: nat :| && Latest(OnDisk(s0, es, Hashing, -1), i) && At(s0, es, Hashing, i)
                  && Enabled(Exec(s0, es[..i]).value, es[i]) && Mismatch(s0, es, i, t.files.cur.value);
    AlarmIfMismatch(s0, es, t, i);
    BrokenIffUndoFailed(s0, es);
    if !ReplacedAfter(s0, es, i) {
      RunStill(s0, es, i);
    }
    hide Exec, UndoFailed, Lower, OnDisk, Enabled, Next, ReplacedAfter, Trim, Of;
  }
}
