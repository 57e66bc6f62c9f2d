/**
 * The auto-update, its monitoring window and the rollback as a transition system over the
 * four files, the state in memory and on disk, and the image the process runs. One step per
 * effect: a rename or removal, a save, a check-in, a boot; a crash may follow any of them.
 */
module UpdateMachine {
  import opened Prelude
  import opened Semver

  const MAX_FAILED := 2
  const RETRY_AFTER := 86400

  predicate IsHex(s: string) {
    s != "" && forall i :: 0 <= i < |s| ==> '0' <= s[i] <= '9' || 'a' <= s[i] <= 'f'
  }

  /** A SHA-256 as the agent prints it: lower-case hexadecimal. */
  type Digest = s: string | IsHex(s) witness "0"

  /** A binary: the version it reports and the hash of its bytes. */
  datatype Image = Image(version: string, digest: Digest)

  /** The binary, its .bak, the .new of an update and the .failed of a rollback. */
  datatype Files = Files(cur: Option<Image>, bak: Option<Image>, incoming: Option<Image>, failed: Option<Image>)

  /** The part of state.json the update reads and writes; updateAt is 0 outside the monitoring window. */
  datatype State = State(
    updateAt: nat,
    updateVersion: string,
    failures: nat,
    rolledBackVersion: string,
    rolledBackAt: nat,
    baseline: string)

  /** A complete agent_update, with what downloading it gives; signed: its signature verifies for that image. */
  datatype Offer = Offer(version: string, sha: string, signed: bool, image: Image, now: nat)

  datatype PC =
    | Down
    | Idle
    | Served
    | BaselineSave
    | DisarmSave
    | CountSave
    | RbStat | RbDrop | RbTake | RbPut | RbUndo | RbHash | RbSave
    | UpWrite(offer: Offer) | UpDrop(offer: Offer) | UpTake(offer: Offer) | UpPut(offer: Offer) | UpUndo(offer: Offer)
    | UpClean | UpSave(offer: Offer)

  /** Save covers every save of the agent; Pass is a response without an update, or one that is not followed. */
  datatype Event =
    | Crash
    | Boot(readable: bool)
    | Checkin(ok: bool)
    | Save(ok: bool)
    | File(ok: bool)
    | Hash(ok: bool, now: nat)
    | Propose(offer: Offer)
    | Pass

  /**
   * Bookkeeping that no code reads. newest, previous: the images of the last swap,
   * newestVersion the version it was announced as. restarted: the process was started after that
   * swap. dirty: the binary changed after the last successful save, or the backup of a window still
   * open on disk did. lost: the process ended in that state or between two renames, or the restored
   * file could not be hashed. broken: a rename failed, and then the one that was to undo the step
   * before it.
   */
  datatype Book = Book(
    newest: Option<Image>,
    previous: Option<Image>,
    newestVersion: string,
    restarted: bool,
    dirty: bool,
    lost: bool,
    broken: bool)

  /** The process: the image it runs, the version it swapped in (or ""), and its tamper report. */
  datatype Process = Process(running: Option<Image>, swapped: string, alarm: bool)

  datatype Sys = Sys(
    pc: PC,
    mem: State,
    disk: State,
    files: Files,
    proc: Process,
    book: Book)

  /** The window is over. */
  function Disarm(st: State): State {
    st.(updateAt := 0, updateVersion := "", failures := 0)
  }

  /** Is the offer skipped because this very version was rolled back here less than a day ago? */
  predicate TooSoon(st: State, o: Offer) {
    st.rolledBackVersion != "" && o.version == st.rolledBackVersion && o.now - st.rolledBackAt < RETRY_AFTER
  }

  predicate Verified(o: Offer) {
    Lower(Trim(o.sha)) == o.image.digest && o.signed
  }

  predicate Installs(s: Sys, o: Offer) {
    && s.proc.swapped == "" && s.proc.running.Some?
    && o.version != "" && o.sha != ""
    && Greater(o.version, s.proc.running.value.version)
    && !TooSoon(s.mem, o) && Verified(o)
  }

  predicate SavePoint(pc: PC) {
    pc.Idle? || pc.Served? || pc.BaselineSave? || pc.DisarmSave? || pc.CountSave? || pc.RbSave? || pc.UpSave?
  }

  predicate RollbackPoint(pc: PC) {
    pc.RbStat? || pc.RbDrop? || pc.RbTake? || pc.RbPut? || pc.RbUndo?
  }

  predicate FilePoint(pc: PC) {
    || RollbackPoint(pc)
    || pc.UpWrite? || pc.UpDrop? || pc.UpTake? || pc.UpPut? || pc.UpUndo? || pc.UpClean?
  }

  /** What the next rename takes, or the next look is for, is there. */
  predicate Movable(s: Sys) {
    match s.pc
    case RbStat => s.files.bak.Some?
    case RbTake => s.files.cur.Some?
    case RbPut => s.files.bak.Some?
    case RbUndo => s.files.failed.Some?
    case UpTake(_) => s.files.cur.Some?
    case UpPut(_) => s.files.incoming.Some?
    case UpUndo(_) => s.files.bak.Some?
    case _ => true
  }

  predicate Enabled(s: Sys, e: Event) {
    match e
    case Crash => !s.pc.Down?
    case Boot(_) => s.pc.Down? && s.files.cur.Some?
    case Checkin(_) => s.pc.Idle?
    case Save(_) => SavePoint(s.pc)
    case File(ok) => FilePoint(s.pc) && (ok ==> Movable(s))
    case Hash(ok, now) => s.pc.RbHash? && (ok ==> s.files.cur.Some?)
    case Propose(o) => s.pc.Served? && o.now > 0
    case Pass => s.pc.Served?
  }

  /** A fresh process; its first act is to compare the binary with the stored hash. */
  function OnBoot(s: Sys, readable: bool): Sys
    requires s.files.cur.Some?
  {
    var image := s.files.cur.value;
    var t := s.(pc := Idle, mem := s.disk, proc := Process(Some(image), "", false), book := s.book.(restarted := true));
    if !readable then t
    else if t.mem.baseline == "" then t.(mem := t.mem.(baseline := image.digest), pc := BaselineSave)
    else t.(proc := t.proc.(alarm := Lower(image.digest) != Lower(t.mem.baseline)))
  }

  function OnCheckin(s: Sys, ok: bool): Sys {
    var t := s.(pc := if ok then Served else Idle);
    if s.mem.updateAt == 0 || s.proc.swapped != "" then t
    else if ok then t.(mem := Disarm(s.mem), pc := DisarmSave)
    else t.(mem := s.mem.(failures := s.mem.failures + 1), pc := CountSave)
  }

  function OnSave(s: Sys, ok: bool): Sys {
    var t := if ok then s.(disk := s.mem, book := s.book.(dirty := false)) else s;
    match s.pc
    case Served | DisarmSave => t.(pc := Served)
    case CountSave => t.(pc := if s.mem.failures < MAX_FAILED then Idle else RbStat)
    case UpSave(o) => t.(proc := s.proc.(swapped := o.version), pc := Idle)
    case _ => t.(pc := Idle)
  }

  function OnRollbackFile(s: Sys, ok: bool): Sys {
    var f := s.files;
    match s.pc
    case RbStat => s.(pc := if ok then RbDrop else Idle)
    case RbDrop => s.(files := if ok then f.(failed := None) else f, pc := RbTake)
    case RbTake => if ok then s.(files := f.(failed := f.cur, cur := None), pc := RbPut) else s.(pc := Idle)
    case RbPut =>
      if ok then s.(files := f.(cur := f.bak, bak := None), book := s.book.(dirty := true), pc := RbHash)
      else s.(pc := RbUndo)
    case _ =>
      if ok then s.(files := f.(cur := f.failed, failed := None), pc := Idle)
      else s.(book := s.book.(broken := true), pc := Idle)
  }

  /** A backup that a window on disk may need is gone. */
  function Bared(s: Sys, ok: bool): Book {
    s.book.(dirty := s.book.dirty || (ok && s.disk.updateAt != 0))
  }

  function OnUpdateFile(s: Sys, ok: bool): Sys
    requires s.pc.UpWrite? || s.pc.UpDrop? || s.pc.UpTake? || s.pc.UpPut? || s.pc.UpUndo? || s.pc.UpClean?
  {
    var f := s.files;
    match s.pc
    case UpWrite(o) => if ok then s.(files := f.(incoming := Some(o.image)), pc := UpDrop(o)) else s.(pc := Idle)
    case UpDrop(o) =>
      s.(files := if ok then f.(bak := None) else f,
         book := Bared(s, ok), pc := UpTake(o))
    case UpTake(o) =>
      if ok then s.(files := f.(bak := f.cur, cur := None), book := Bared(s, true), pc := UpPut(o))
      else s.(pc := UpClean)
    case UpPut(o) => if ok then OnSwap(s, o) else s.(pc := UpUndo(o))
    case UpUndo(o) =>
      if ok then s.(files := f.(cur := f.bak, bak := None), pc := UpClean)
      else s.(book := s.book.(broken := true), pc := UpClean)
    case UpClean => s.(files := if ok then f.(incoming := None) else f, pc := Idle)
  }

  /** The .new takes its place, the window opens and the hash to expect is the announced one. */
  function OnSwap(s: Sys, o: Offer): Sys {
    var f := s.files;
    s.(files := f.(cur := f.incoming, incoming := None),
       mem := s.mem.(updateAt := o.now, updateVersion := o.version, failures := 0, baseline := Lower(o.sha)),
       book := Book(f.incoming, f.bak, o.version, false, true, false, s.book.broken), pc := UpSave(o))
  }

  function OnHash(s: Sys, ok: bool, now: nat): Sys
    requires ok ==> s.files.cur.Some?
  {
    var st := s.mem.(rolledBackVersion := s.mem.updateVersion, rolledBackAt := now);
    s.(mem := Disarm(if ok then st.(baseline := s.files.cur.value.digest) else st), book := s.book.(lost := !ok),
       pc := RbSave)
  }

  /** The end of the process, a restart included: only the files and the disk remain. */
  function OnCrash(s: Sys): Sys {
    var b := s.book;
    s.(pc := Down, mem := s.disk, proc := Process(None, "", false),
       book := b.(dirty := false, lost := b.lost || b.dirty || s.files.cur.None?))
  }

  function Next(s: Sys, e: Event): Sys
    requires Enabled(s, e)
  {
    match e
    case Crash => OnCrash(s)
    case Boot(readable) => OnBoot(s, readable)
    case Checkin(ok) => OnCheckin(s, ok)
    case Save(ok) => OnSave(s, ok)
    case File(ok) =>
      if RollbackPoint(s.pc) then OnRollbackFile(s, ok) else OnUpdateFile(s, ok)
    case Hash(ok, now) => OnHash(s, ok, now)
    case Propose(o) => if Installs(s, o) then s.(pc := UpWrite(o)) else s.(pc := Idle)
    case Pass => s.(pc := Idle)
  }

  function Exec(s: Sys, es: seq<Event>): Option<Sys> {
    if es == [] then Some(s)
    else match Exec(s, es[..|es| - 1])
      case None => None
      case Some(t) => if Enabled(t, es[|es| - 1]) then Some(Next(t, es[|es| - 1])) else None
  }

  /** A machine where the agent was installed and never started. */
  predicate Installed(s: Sys) {
    && s.pc.Down? && s.mem == s.disk == State(0, "", 0, "", 0, "") && s.files.cur.Some?
    && s.proc.running.None? && !s.book.dirty && !s.book.lost && !s.book.broken
  }
}
