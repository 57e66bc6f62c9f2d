/**
 * Runs of the update: a rollback to its end, and runs that show what a hash with a blank, an unsaved swap, a
 * forgotten success and a stale window lead to.
 */
module UpdateTraces {
  import opened Prelude
  import opened Semver
  import opened UpdateMachine
  import opened UpdateWindow
  import opened UpdateEvents
  import opened UpdateKept
  import opened UpdateOutcome
  import opened UpdateSafety
  import UpdateImages

  lemma Extend(s0: Sys, es: seq<Event>, s: Sys, e: Event) returns (fs: seq<Event>, t: Sys)
    requires Exec(s0, es) == Some(s) && Enabled(s, e)
    ensures fs == es + [e] && t == Next(s, e) && Exec(s0, fs) == Some(t)
  {
    fs, t := es + [e], Next(s, e);
    assert fs[..|fs| - 1] == es;
  }

  // ----- A rollback to its end

  /** A rollback none of whose steps fails. */
  lemma RollingBackAt(s: Sys, at: nat) returns (fs: seq<Event>, t: Sys)
    requires s.pc.RbStat? && s.files.cur.Some? && s.files.bak.Some?
    ensures fs == [File(true), File(true), File(true), File(true), Hash(true, at), Save(true)]
            && Exec(s, fs) == Some(t)
    ensures t.files == Files(s.files.bak, None, s.files.incoming, s.files.cur) && t.pc.Idle?
    ensures t.mem == t.disk == State(0, "", 0, s.mem.updateVersion, at, s.files.bak.value.digest)
    ensures t.book == s.book.(dirty := false, lost := false)
  {
    fs, t := Renaming(s);
    fs, t := Extend(s, fs, t, Hash(true, at));
    fs, t := Extend(s, fs, t, Save(true));
  }

  lemma Renaming(s: Sys) returns (fs: seq<Event>, t: Sys)
    requires s.pc.RbStat? && s.files.cur.Some? && s.files.bak.Some?
    ensures fs == [File(true), File(true), File(true), File(true)] && Exec(s, fs) == Some(t) && t.pc.RbHash?
    ensures t == s.(pc := RbHash, files := Files(s.files.bak, None, s.files.incoming, s.files.cur),
                    book := s.book.(dirty := true))
  {
    fs, t := Extend(s, [], s, File(true));
    fs, t := Extend(s, fs, t, File(true));
    fs, t := Extend(s, fs, t, File(true));
    fs, t := Extend(s, fs, t, File(true));
  }

  /**
   * Begun while the backup was never taken away, and with no step that fails: the image before the swap is
   * the binary again, the hash to expect is its own, the window is closed and its version remembered, all of
   * it on disk. That version is the newest image's unless the process ended before the swap was saved.
   */
  lemma RollbackRestoresPrevious(s0: Sys, es: seq<Event>, w: nat, s: Sys, at: nat) returns (fs: seq<Event>, t: Sys)
    requires Installed(s0) && Exec(s0, es) == Some(s) && LastSwap(s0, es, w) && !UndoFailed(s0, es)
    requires s.pc.RbStat? && !UpdateImages.Disturbed(s0, es, w)
    ensures fs == [File(true), File(true), File(true), File(true), Hash(true, at), Save(true)]
            && Exec(s, fs) == Some(t)
    ensures t.files.cur == s.book.previous && t.files.failed == s.book.newest && t.files.cur.Some?
    ensures t.disk == State(0, "", 0, s.mem.updateVersion, at, t.files.cur.value.digest)
    ensures w < |es| && Exec(s0, es[..w]).Some?
    ensures s.mem.updateVersion ==
            if CrashFirst(es, w) then DiskAt(s0, es, w).updateVersion else s.book.newestVersion
    ensures t.pc.Idle? && t.mem == t.disk
  {
    UpdateImages.Facts(s0, es, w, s);
    UpdateImages.FilesAreTheSwappedIff(s0, es, w, s);
    WindowVersion(s0, es, w, s);
    hide LastSwap, UndoFailed, UpdateImages.Disturbed, CrashFirst;
    fs, t := RollingBackAt(s, at);
  }

  // ----- Runs

  function Old(): Image {
    Image(Show(1, 0, 0), "a")
  }

  function New(): Image {
    Image(Show(2, 0, 0), "b")
  }

  function Later(): Image {
    Image(Show(3, 0, 0), "c")
  }

  function Fresh(): Sys {
    var st := State(0, "", 0, "", 0, "");
    Sys(Down, st, st, Files(Some(Old()), None, None, None), Process(None, "", false),
        Book(None, None, "", false, false, false, false))
  }

  function Announced(sha: string): Offer {
    Offer(Show(2, 0, 0), sha, true, New(), 100)
  }

  function Upgrade(): Offer {
    Offer(Show(3, 0, 0), "c", true, Later(), 200)
  }

  lemma UpgradeFollowed(s: Sys)
    requires s.mem.rolledBackVersion == "" && s.proc.swapped == "" && s.proc.running == Some(New())
    ensures Installs(s, Upgrade()) && Lower("c") == "c"
  {
    PrintedVersionsCompare(3, 0, 0, 2, 0, 0);
    hide Greater, Decimal;
    HexUntrimmed("c");
  }

  lemma Followed(s: Sys, sha: string)
    requires s.mem.rolledBackVersion == "" && s.proc.swapped == "" && s.proc.running == Some(Old())
             && (sha == "b" || sha == " b")
    ensures Installs(s, Announced(sha)) && Lower(sha) == sha
  {
    PrintedVersionsCompare(2, 0, 0, 1, 0, 0);
    hide Greater, Decimal;
    assert TrimLeft(" b") == TrimLeft("b") == "b" && Trim(" b") == Trim("b") == "b";
    HexUntrimmed("b");
  }

  lemma Proposing(s0: Sys, es: seq<Event>, s: Sys, o: Offer) returns (fs: seq<Event>, t: Sys)
    requires Exec(s0, es) == Some(s) && s.pc.Served? && Installs(s, o) && o.now > 0
    ensures fs == es + [Propose(o)] && Exec(s0, fs) == Some(t) && t == s.(pc := UpWrite(o))
  {
    hide Installs;
    fs, t := Extend(s0, es, s, Propose(o));
  }

  /** The file steps of an update up to its last rename, none of which fails. */
  lemma Clearing(s0: Sys, es: seq<Event>, s: Sys, o: Offer) returns (fs: seq<Event>, t: Sys)
    requires Exec(s0, es) == Some(s) && s.pc == UpWrite(o) && s.files.cur.Some?
    ensures fs == es + [File(true), File(true), File(true)] && Exec(s0, fs) == Some(t) && t.pc == UpPut(o)
    ensures t.files == Files(None, s.files.cur, Some(o.image), s.files.failed) && t.disk == s.disk
    ensures t.mem == s.mem && t.proc == s.proc && t.book.broken == s.book.broken
  {
    hide OnRollbackFile, OnSwap;
    fs, t := Extend(s0, es, s, File(true));
    fs, t := Extend(s0, fs, t, File(true));
    fs, t := Extend(s0, fs, t, File(true));
  }

  lemma Swapping(s0: Sys, es: seq<Event>, s: Sys, o: Offer) returns (fs: seq<Event>, t: Sys)
    requires Exec(s0, es) == Some(s) && s.pc == UpWrite(o) && s.files.cur.Some?
    ensures fs == es + [File(true), File(true), File(true), File(true)] && Exec(s0, fs) == Some(t)
    ensures t.files == Files(Some(o.image), s.files.cur, None, s.files.failed) && t.disk == s.disk
    ensures t.mem == s.mem.(updateAt := o.now, updateVersion := o.version, failures := 0, baseline := Lower(o.sha))
    ensures t.book == Book(Some(o.image), s.files.cur, o.version, false, true, false, s.book.broken)
    ensures t.pc == UpSave(o) && t.proc == s.proc
  {
    hide Lower, OnRollbackFile;
    fs, t := Clearing(s0, es, s, o);
    fs, t := Extend(s0, fs, t, File(true));
  }

  /** First boot, first check-in, then the update up to its last rename. */
  lemma Installing(sha: string) returns (es: seq<Event>, t: Sys)
    requires sha == "b" || sha == " b"
    ensures Exec(Fresh(), es) == Some(t) && t.pc == UpSave(Announced(sha)) && t.proc.swapped == ""
    ensures forall e :: e in es && e.Propose? ==> e.offer == Announced(sha)
    ensures t.files.cur == Some(New()) == t.book.newest && !t.book.broken && t.book.dirty && !t.book.lost
    ensures t.disk == State(0, "", 0, "", 0, "a") && t.mem == State(100, Show(2, 0, 0), 0, "", 0, sha)
    ensures t.files.bak.Some? && t.book.newestVersion == Show(2, 0, 0)
  {
    hide Exec, Next, Enabled, Installs, Show, Lower, Fresh, New;
    es, t := Starting();
    Followed(t, sha);
    es, t := Proposing(Fresh(), es, t, Announced(sha));
    es, t := Swapping(Fresh(), es, t, Announced(sha));
  }

  lemma Starting() returns (es: seq<Event>, t: Sys)
    ensures es == [Boot(true), Save(true), Checkin(true)] && Exec(Fresh(), es) == Some(t) && t.pc.Served?
    ensures t.files.cur == Some(Old()) && t.mem == t.disk == State(0, "", 0, "", 0, "a") && t.proc.swapped == ""
    ensures t.proc.running == Some(Old()) && !t.book.broken
  {
    hide Show;
    es, t := Extend(Fresh(), [], Fresh(), Boot(true));
    es, t := Extend(Fresh(), es, t, Save(true));
    es, t := Extend(Fresh(), es, t, Checkin(true));
  }

  /** The process ends after the save that concludes an update, and the new image starts. */
  lemma Restarting(s0: Sys, es: seq<Event>, s: Sys, saved: bool) returns (fs: seq<Event>, t: Sys)
    requires Exec(s0, es) == Some(s) && s.pc.UpSave? && s.files.cur.Some? && s.disk.baseline != ""
             && s.mem.baseline != ""
    ensures fs == es + [Save(saved), Crash, Boot(true)] && Exec(s0, fs) == Some(t)
    ensures t.files == s.files && t.proc.running == s.files.cur && t.mem == (if saved then s.mem else s.disk)
    ensures t.proc.alarm <==> Lower(s.files.cur.value.digest) != Lower(t.mem.baseline)
    ensures t.book.newest == s.book.newest && t.book.broken == s.book.broken && t.book.restarted && !t.book.dirty
    ensures t.disk == t.mem && t.pc.Idle? && t.proc.swapped == "" && t.book.newestVersion == s.book.newestVersion
    ensures t.book.lost == (s.book.lost || (!saved && s.book.dirty))
  {
    hide Lower, OnRollbackFile, OnUpdateFile, OnHash, OnCheckin, Installs;
    fs, t := Extend(s0, es, s, Save(saved));
    fs, t := Extend(s0, fs, t, Crash);
    fs, t := Extend(s0, fs, t, Boot(true));
  }

  /** A hash announced with a blank in front passes every check, and the verified binary then raises the alarm. */
  lemma PaddedHashRaisesAlarm() returns (es: seq<Event>, t: Sys)
    ensures Installed(Fresh()) && Exec(Fresh(), es) == Some(t) && Untroubled(t)
    ensures t.files.cur == Some(New()) == t.book.newest == t.proc.running && t.proc.alarm
  {
    hide Show;
    es, t := Installing(" b");
    es, t := Restarting(Fresh(), es, t, true);
    assert |Lower("b")| == 1 && |Lower(" b")| == 2;
  }

  /** If the last save of an update is lost with the process, the new image runs unwatched and raises the alarm. */
  lemma UnsavedSwapIsForgotten() returns (es: seq<Event>, t: Sys)
    ensures Installed(Fresh()) && Exec(Fresh(), es) == Some(t) && AnnouncedPlainly(es) && !t.book.broken && t.book.lost
    ensures t.proc.running == Some(New()) == t.book.newest && t.mem.updateAt == 0 && t.proc.alarm
  {
    hide Show;
    es, t := Installing("b");
    HexUntrimmed("b");
    es, t := Restarting(Fresh(), es, t, false);
    assert Lower("b")[0] == 'b' && Lower("a")[0] == 'a';
  }

  // ----- A success that a restart forgets

  /** A new image checks in with success while it is watched, and the save of that fails. */
  lemma Succeeding(s0: Sys, es: seq<Event>, s: Sys) returns (fs: seq<Event>, t: Sys)
    requires Exec(s0, es) == Some(s) && s.pc.Idle? && s.mem.updateAt != 0 && s.proc.swapped == ""
    ensures fs == es + [Checkin(true), Save(false)] && Exec(s0, fs) == Some(t)
    ensures t == s.(pc := Served, mem := Disarm(s.mem))
  {
    hide OnRollbackFile, OnUpdateFile, OnHash, Installs;
    fs, t := Extend(s0, es, s, Checkin(true));
    fs, t := Extend(s0, fs, t, Save(false));
  }

  /** The process restarts with what the disk has. */
  lemma Reviving(s0: Sys, es: seq<Event>, s: Sys) returns (fs: seq<Event>, t: Sys)
    requires Exec(s0, es) == Some(s) && !s.pc.Down? && s.files.cur.Some? && s.disk.baseline != ""
    ensures fs == es + [Crash, Boot(true)] && Exec(s0, fs) == Some(t)
    ensures t.pc.Idle? && t.mem == t.disk == s.disk && t.files == s.files && t.proc.swapped == ""
    ensures t.proc.running == s.files.cur
    ensures t.book == s.book.(restarted := true, dirty := false, lost := s.book.lost || s.book.dirty)
  {
    hide Lower, OnRollbackFile, OnUpdateFile, OnHash, Installs;
    fs, t := Extend(s0, es, s, Crash);
    fs, t := Extend(s0, fs, t, Boot(true));
  }

  lemma FailingTwice(s0: Sys, es: seq<Event>, s: Sys) returns (fs: seq<Event>, t: Sys)
    requires Exec(s0, es) == Some(s) && s.pc.Idle? && s.mem.updateAt != 0 && s.proc.swapped == ""
    requires s.mem.failures == 0
    ensures fs == es + [Checkin(false), Save(true), Checkin(false), Save(true)] && Exec(s0, fs) == Some(t)
            && t.pc.RbStat?
    ensures t.book == s.book.(dirty := false) && t.files == s.files
            && t.mem == t.disk == s.mem.(failures := 2)
  {
    hide Lower, OnRollbackFile, OnUpdateFile, OnHash, Installs;
    fs, t := Extend(s0, es, s, Checkin(false));
    fs, t := Extend(s0, fs, t, Save(true));
    fs, t := Extend(s0, fs, t, Checkin(false));
    fs, t := Extend(s0, fs, t, Save(true));
  }

  /**
   * The save that closes the window is not checked. If it fails and the process restarts, an image that had
   * checked in with success is watched again, and two failures roll it back.
   */
  lemma ForgottenSuccessIsRolledBack() returns (es: seq<Event>, i: nat, t: Sys)
    ensures Installed(Fresh()) && Exec(Fresh(), es) == Some(t) && Untroubled(t)
    ensures t.pc.RbStat? && t.files.cur == t.book.newest == Some(New()) && t.files.bak.Some?
    ensures i < |es| && Exec(Fresh(), es[..i]).Some? && es[i] == Checkin(true)
            && Exec(Fresh(), es[..i]).value.proc.running == Some(New())
  {
    hide Show, Exec, Next, Enabled, Lower;
    es, t := Installing("b");
    es, t := Restarting(Fresh(), es, t, true);
    i := |es|;
    ghost var before := es;
    es, t := Succeeding(Fresh(), es, t);
    es, t := Reviving(Fresh(), es, t);
    es, t := FailingTwice(Fresh(), es, t);
    assert es[..i] == before;
  }

  // ----- A window that is older than the binary

  /** A watched image's success is not saved, the next update's swap neither, and the process restarts. */
  lemma Overtaking() returns (es: seq<Event>, t: Sys)
    ensures Installed(Fresh()) && Exec(Fresh(), es) == Some(t) && t.pc.Idle? && t.proc.swapped == ""
    ensures t.mem == State(100, Show(2, 0, 0), 0, "", 0, "b") && t.book.newestVersion == Show(3, 0, 0)
    ensures t.files.cur == t.book.newest == t.proc.running == Some(Later()) && t.files.bak == Some(New())
    ensures !t.book.broken
  {
    hide Show, Exec, Next, Enabled, Lower, Installs;
    es, t := Installing("b");
    es, t := Restarting(Fresh(), es, t, true);
    es, t := Succeeding(Fresh(), es, t);
    UpgradeFollowed(t);
    es, t := Proposing(Fresh(), es, t, Upgrade());
    es, t := Swapping(Fresh(), es, t, Upgrade());
    es, t := Unsaved(Fresh(), es, t);
    es, t := Reviving(Fresh(), es, t);
  }

  lemma Unsaved(s0: Sys, es: seq<Event>, s: Sys) returns (fs: seq<Event>, t: Sys)
    requires Exec(s0, es) == Some(s) && s.pc.UpSave?
    ensures fs == es + [Save(false)] && Exec(s0, fs) == Some(t)
    ensures t == s.(pc := Idle, proc := s.proc.(swapped := s.pc.offer.version))
  {
    fs, t := Extend(s0, es, s, Save(false));
  }

  /**
   * Two failed check-ins of the newest image then put the one before it back, but the version remembered is
   * that of the image put back: the one that failed may be installed again at once.
   */
  lemma OvertakenVersionIsRemembered(at: nat, o: Offer) returns (es: seq<Event>, t: Sys)
    requires o.version == Show(3, 0, 0)
    ensures Installed(Fresh()) && Exec(Fresh(), es) == Some(t) && t.pc.Idle?
    ensures t.files.cur == Some(New()) && t.files.failed == Some(Later())
    ensures t.disk.rolledBackVersion == New().version == Show(2, 0, 0) && !TooSoon(t.mem, o)
  {
    hide Exec, Next, Enabled, Lower, Installs, Installed;
    es, t := Overtaking();
    es, t := FailingTwice(Fresh(), es, t);
    ghost var fs, u := RollingBackAt(t, at);
    ExecAppend(Fresh(), es, t, fs);
    es, t := es + fs, u;
    ShowsDiffer();
    hide Show;
  }

  lemma ShowsDiffer()
    ensures Show(3, 0, 0) != Show(2, 0, 0)
  {
    PrintedVersionsCompare(3, 0, 0, 2, 0, 0);
    PrintedVersionsCompare(3, 0, 0, 3, 0, 0);
    hide Show, Greater;
  }

  lemma {:induction false} ExecAppend(s0: Sys, es: seq<Event>, s: Sys, fs: seq<Event>)
    requires Exec(s0, es) == Some(s) && Exec(s, fs).Some?
    ensures Exec(s0, es + fs) == Exec(s, fs)
  {
    hide Next, Enabled;
    if fs == [] {
      assert es + fs == es;
    } else {
      var init := fs[..|fs| - 1];
      ExecAppend(s0, es, s, init);
      assert (es + fs)[..|es + fs| - 1] == es + init;
    }
  }
}
