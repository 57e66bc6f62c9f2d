/** What every step of the update keeps. */
module UpdateWindow {
  import opened Prelude
  import opened Semver
  import opened UpdateMachine

  // ----- Hashes as text

  lemma {:induction false} HexUntrimmed(s: string)
    requires IsHex(s)
    ensures Trim(s) == s && Lower(s) == s
  {
    assert TrimLeft(s) == s && TrimRight(s) == s;
    assert forall i :: 0 <= i < |s| ==> Lower(s)[i] == s[i];
  }

  lemma {:induction false} LowerTrimLeft(s: string)
    ensures TrimLeft(Lower(s)) == Lower(TrimLeft(s))
  {
    if s != [] && IsBlank(s[0]) {
      assert Lower(s)[1..] == Lower(s[1..]);
      LowerTrimLeft(s[1..]);
    }
  }

  lemma {:induction false} LowerTrimRight(s: string)
    ensures TrimRight(Lower(s)) == Lower(TrimRight(s))
  {
    if s != [] && IsBlank(s[|s| - 1]) {
      assert Lower(s)[..|s| - 1] == Lower(s[..|s| - 1]);
      LowerTrimRight(s[..|s| - 1]);
    }
  }

  /** Lower-casing and trimming commute, and lower-casing twice is lower-casing. */
  lemma LowerTrims(s: string)
    ensures Trim(Lower(s)) == Lower(Trim(s)) && Lower(Lower(s)) == Lower(s)
  {
    LowerTrimLeft(s);
    LowerTrimRight(TrimLeft(s));
    assert forall i :: 0 <= i < |s| ==> Lower(Lower(s))[i] == Lower(s)[i];
  }

  // ----- The invariant

  /** The image that is the binary, or was before the rename in progress. */
  function Present(s: Sys): Option<Image> {
    match s.pc
    case UpPut(_) | UpUndo(_) => s.files.bak
    case RbPut | RbUndo => s.files.failed
    case _ => s.files.cur
  }

  /** While st has the window open, binary and backup are the two images of the last swap. */
  predicate Window(st: State, s: Sys) {
    st.updateAt != 0 ==>
      && s.book.newest.Some? && s.book.previous.Some? && st.updateVersion == s.book.newestVersion
      && Present(s) == s.book.newest && s.files.bak == s.book.previous
  }

  /** The stored hash is that of the image, but for blanks around it. */
  predicate Baseline(st: State, image: Option<Image>) {
    st.baseline != "" ==> image.Some? && Trim(st.baseline) == image.value.digest && Lower(st.baseline) == st.baseline
  }

  predicate Monitored(st: State, s: Sys) {
    Window(st, s) && Baseline(st, Present(s))
  }

  /** An offer that is being installed. */
  predicate Accepted(o: Offer) {
    Verified(o) && o.version != "" && o.now > 0
  }

  predicate Replacing(s: Sys) {
    match s.pc
    case UpWrite(o) => Accepted(o) && s.files.cur.Some?
    case UpDrop(o) => Accepted(o) && s.files.cur.Some? && s.files.incoming == Some(o.image)
    case UpTake(o) => Accepted(o) && s.files.cur.Some? && s.files.incoming == Some(o.image)
    case UpPut(o) =>
      && Accepted(o) && s.files.cur.None? && s.files.bak.Some? && s.files.incoming == Some(o.image)
      && (s.book.dirty || s.disk.updateAt == 0)
    case UpUndo(o) => s.files.cur.None? && s.files.bak.Some? && (s.book.dirty || s.disk.updateAt == 0)
    case _ => true
  }

  predicate RollingBack(s: Sys) {
    match s.pc
    case RbStat => s.files.cur.Some?
    case RbDrop | RbTake => s.files.cur.Some? && s.files.bak.Some?
    case RbPut | RbUndo => s.files.cur.None? && s.files.bak.Some? && s.files.failed.Some?
    case _ => s.files.cur.Some? && (s.pc.RbHash? || s.pc.RbSave? ==> s.book.dirty)
  }

  predicate UpPoint(pc: PC) {
    pc.UpWrite? || pc.UpDrop? || pc.UpTake? || pc.UpPut? || pc.UpUndo?
  }

  predicate RbPoint(pc: PC) {
    RollbackPoint(pc) || pc.RbHash? || pc.RbSave?
  }

  /** The process is one whose check-ins count, and has not put another binary in place. */
  predicate Watching(s: Sys) {
    s.proc.swapped == "" && !s.pc.Down? && !s.pc.UpSave? && !s.pc.RbHash?
  }

  /** Where the program is says which files are there and what the process is. */
  predicate Shaped(s: Sys) {
    && (s.pc.Down? ==> s.mem == s.disk && !s.book.dirty)
    && (UpPoint(s.pc) ==> Replacing(s) && s.mem.updateAt == 0 && s.proc.swapped == "")
    && (s.pc.UpClean? ==> s.mem.updateAt == 0)
    && (s.pc.UpSave? ==> s.proc.swapped == "" && s.pc.offer.version != "" && !s.book.restarted && s.book.dirty)
    && (RbPoint(s.pc) ==> RollingBack(s) && s.proc.swapped == "")
    && (s.pc.CountSave? || (RbPoint(s.pc) && !s.pc.RbSave?) ==> s.mem.updateAt != 0 && s.proc.swapped == "")
    && ((RbPoint(s.pc) && !s.pc.RbSave?) ==> s.mem.failures >= MAX_FAILED)
    && (s.pc.Served? || s.pc.DisarmSave? ==> s.mem.updateAt == 0 || s.proc.swapped != "")
    && (!s.pc.Down? && !UpPoint(s.pc) && !RbPoint(s.pc) ==> s.files.cur.Some?)
    && (!s.pc.Down? && !s.pc.UpSave? ==> (s.book.restarted <==> s.proc.swapped == ""))
    && (s.mem.updateAt != 0 && Watching(s) ==> s.proc.running == Present(s))
  }

  /** What memory and disk say about the files, as long as nothing was lost. */
  predicate Sound(s: Sys) {
    && (s.pc.Down? ==> s.files.cur.Some?)
    && (if s.pc.RbHash? then s.files.cur == s.book.previous
       && s.mem.updateVersion == s.book.newestVersion else Monitored(s.mem, s))
    && (!s.book.dirty ==> Monitored(s.disk, s))
  }

  predicate Inv(s: Sys) {
    s.book.broken || (Shaped(s) && (s.book.lost || Sound(s)))
  }

  // ----- Kept by every step

  lemma CrashKeeps(s: Sys)
    requires Shaped(s) && !s.pc.Down?
    ensures Shaped(OnCrash(s))
    ensures Sound(s) ==> OnCrash(s).book.lost || Sound(OnCrash(s))
  {
    hide Baseline;
  }

  lemma BootKeeps(s: Sys, readable: bool)
    requires Shaped(s) && s.pc.Down? && s.files.cur.Some?
    ensures Shaped(OnBoot(s, readable))
    ensures Sound(s) ==> Sound(OnBoot(s, readable))
  {
    HexUntrimmed(s.files.cur.value.digest);
    hide Trim, Lower, Replacing, RollingBack;
  }

  lemma CheckinKeeps(s: Sys, ok: bool)
    requires Shaped(s) && s.pc.Idle?
    ensures Shaped(OnCheckin(s, ok))
    ensures Sound(s) ==> Sound(OnCheckin(s, ok))
  {
    hide Trim, Lower, Replacing, RollingBack;
  }

  lemma SaveKeeps(s: Sys, ok: bool)
    requires Shaped(s) && SavePoint(s.pc)
    ensures Shaped(OnSave(s, ok))
  {
    hide Trim, Lower, Replacing;
  }

  lemma SaveSound(s: Sys, ok: bool)
    requires Shaped(s) && SavePoint(s.pc) && Sound(s)
    ensures Sound(OnSave(s, ok))
  {
    hide Trim, Lower, Replacing, RollingBack, Baseline;
  }

  lemma RollbackFileKeeps(s: Sys, ok: bool)
    requires Shaped(s) && RollbackPoint(s.pc) && (ok ==> Movable(s))
    ensures OnRollbackFile(s, ok).book.broken || Shaped(OnRollbackFile(s, ok))
  {
    hide Trim, Lower, Replacing;
  }

  lemma RollbackFileSound(s: Sys, ok: bool)
    requires Shaped(s) && RollbackPoint(s.pc) && Sound(s)
    ensures OnRollbackFile(s, ok).book.broken || Sound(OnRollbackFile(s, ok))
  {
    hide Trim, Lower, Replacing, Baseline;
  }

  lemma UpdateFileKeeps(s: Sys, ok: bool)
    requires Shaped(s) && (UpPoint(s.pc) || s.pc.UpClean?) && !(s.pc.UpPut? && ok)
    ensures OnUpdateFile(s, ok).book.broken || Shaped(OnUpdateFile(s, ok))
  {
    hide Trim, Lower, RollingBack, Accepted;
  }

  lemma UpdateFileSound(s: Sys, ok: bool)
    requires Shaped(s) && (UpPoint(s.pc) || s.pc.UpClean?) && !(s.pc.UpPut? && ok) && Sound(s)
    ensures OnUpdateFile(s, ok).book.broken || Sound(OnUpdateFile(s, ok))
  {
    hide Trim, Lower, RollingBack, Accepted, Baseline;
  }

  lemma SwapKeeps(s: Sys)
    requires Shaped(s) && s.pc.UpPut?
    ensures Shaped(OnSwap(s, s.pc.offer)) && Sound(OnSwap(s, s.pc.offer))
  {
    LowerTrims(s.pc.offer.sha);
    hide Trim, Lower, RollingBack;
  }

  lemma HashKeeps(s: Sys, ok: bool, now: nat)
    requires Shaped(s) && s.pc.RbHash?
    ensures Shaped(OnHash(s, ok, now)) && (ok ==> Sound(OnHash(s, ok, now)))
  {
    if ok {
      HexUntrimmed(s.files.cur.value.digest);
    }
    hide Trim, Lower, Replacing;
  }

  lemma ServedKeeps(s: Sys, e: Event)
    requires Shaped(s) && Enabled(s, e) && (e.Propose? || e.Pass?)
    ensures Shaped(Next(s, e))
    ensures Sound(s) ==> Sound(Next(s, e))
  {
    hide Verified, Greater, RollingBack, Baseline;
  }

  lemma FileStays(s: Sys, ok: bool)
    requires Enabled(s, File(ok))
    ensures s.book.broken ==> Next(s, File(ok)).book.broken
    ensures s.book.lost && !(s.pc.UpPut? && ok) ==> Next(s, File(ok)).book.lost
  {
  }

  /** A failure is never taken back, and a loss only by a swap or by a rollback that could hash its file. */
  lemma BookkeepingStays(s: Sys, e: Event)
    requires Enabled(s, e)
    ensures s.book.broken ==> Next(s, e).book.broken
    ensures s.book.lost && !(s.pc.UpPut? && e == File(true)) && !e.Hash? ==> Next(s, e).book.lost
  {
    if e.File? {
      FileStays(s, e.ok);
    } else {
      hide Installs;
    }
  }

  lemma FileKept(s: Sys, ok: bool)
    requires !s.book.broken && Inv(s) && Enabled(s, File(ok))
    ensures Inv(Next(s, File(ok)))
  {
    BookkeepingStays(s, File(ok));
    hide Shaped, Sound, OnSwap;
    if RbPoint(s.pc) {
      RollbackFileKeeps(s, ok);
      if !s.book.lost {
        RollbackFileSound(s, ok);
      }
    } else if s.pc.UpPut? && ok {
      SwapKeeps(s);
    } else {
      UpdateFileKeeps(s, ok);
      if !s.book.lost {
        UpdateFileSound(s, ok);
      }
    }
  }

  lemma InvKept(s: Sys, e: Event)
    requires Inv(s) && Enabled(s, e)
    ensures Inv(Next(s, e))
  {
    BookkeepingStays(s, e);
    hide Shaped, Sound, OnCrash, OnBoot, OnCheckin, OnSave, OnSwap, OnHash, Installs;
    if !s.book.broken {
      match e
      case Crash => CrashKeeps(s);
      case Boot(readable) => BootKeeps(s, readable);
      case Checkin(ok) => CheckinKeeps(s, ok);
      case Save(ok) =>
        SaveKeeps(s, ok);
        if !s.book.lost {
          SaveSound(s, ok);
        }
      case File(ok) => FileKept(s, ok);
      case Hash(ok, now) => HashKeeps(s, ok, now);
      case Propose(_) => ServedKeeps(s, e);
      case Pass => ServedKeeps(s, e);
    }
  }

  lemma {:induction false} Reachable(s0: Sys, es: seq<Event>)
    requires Inv(s0) && Exec(s0, es).Some?
    ensures Inv(Exec(s0, es).value)
  {
    hide Inv;
    if es != [] {
      Reachable(s0, es[..|es| - 1]);
      InvKept(Exec(s0, es[..|es| - 1]).value, es[|es| - 1]);
    }
  }
}
