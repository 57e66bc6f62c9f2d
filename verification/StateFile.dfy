/**
 * The atomic write of state.json on a file system that keeps in a cache what was not synced:
 * a crash may leave any content in a file that was not synced since it was written, and any
 * of the entries a name has had since its directory was synced.
 */
module StateFile {
  import opened Prelude

  type Bytes = seq<nat>

  datatype Inode = Inode(content: Bytes, synced: bool)

  /** now: what a name stands for; possible: what it may stand for after a crash. */
  datatype Entry = Entry(now: Option<nat>, possible: set<Option<nat>>)

  datatype Fs = Fs(inodes: map<nat, Inode>, dir: map<string, Entry>)

  function Lookup(fs: Fs, name: string): Entry {
    if name in fs.dir then fs.dir[name] else Entry(None, {None})
  }

  ghost predicate WellFormed(fs: Fs) {
    forall n, i :: n in fs.dir && i in fs.dir[n].possible + {fs.dir[n].now} && i.Some? ==> i.value in fs.inodes
  }

  /** What a reader finds under a name. */
  function Reads(fs: Fs, name: string): Option<Bytes> {
    var e := Lookup(fs, name);
    if e.now.Some? && e.now.value in fs.inodes then Some(fs.inodes[e.now.value].content) else None
  }

  /** A crash may leave this content (or no file) under a name. */
  ghost predicate MayHold(fs: Fs, name: string, c: Option<Bytes>) {
    exists i :: i in Lookup(fs, name).possible &&
      match i
      case None => c.None?
      case Some(n) => c.Some? && n in fs.inodes && (fs.inodes[n].synced ==> c.value == fs.inodes[n].content)
  }

  // ----- System calls

  function SetEntry(fs: Fs, name: string, i: Option<nat>): Fs {
    fs.(dir := fs.dir[name := Entry(i, Lookup(fs, name).possible + {i})])
  }

  function Created(fs: Fs, name: string, n: nat): Fs {
    SetEntry(fs.(inodes := fs.inodes[n := Inode([], false)]), name, Some(n))
  }

  function Written(fs: Fs, n: nat, data: Bytes): Fs
    requires n in fs.inodes
  {
    fs.(inodes := fs.inodes[n := Inode(fs.inodes[n].content + data, false)])
  }

  function Synced(fs: Fs, n: nat): Fs
    requires n in fs.inodes
  {
    fs.(inodes := fs.inodes[n := fs.inodes[n].(synced := true)])
  }

  function Renamed(fs: Fs, from: string, to: string): Fs {
    SetEntry(SetEntry(fs, to, Lookup(fs, from).now), from, None)
  }

  function DirSynced(fs: Fs): Fs {
    fs.(dir := map n | n in fs.dir :: Entry(fs.dir[n].now, {fs.dir[n].now}))
  }

  /** No system call leaves a name that stands, or may stand, for a file that does not exist. */
  lemma CallsKeepWellFormed(fs: Fs, name: string, n: nat)
    requires WellFormed(fs)
    ensures WellFormed(SetEntry(fs, name, None)) && WellFormed(Created(fs, name, n)) && WellFormed(DirSynced(fs))
    ensures n in fs.inodes ==> WellFormed(SetEntry(fs, name, Some(n))) && WellFormed(Synced(fs, n))
  {
  }

  lemma WrittenWellFormed(fs: Fs, n: nat, data: Bytes)
    requires WellFormed(fs) && n in fs.inodes
    ensures WellFormed(Written(fs, n, data))
  {
  }

  lemma RenamedWellFormed(fs: Fs, from: string, to: string)
    requires WellFormed(fs)
    ensures WellFormed(Renamed(fs, from, to))
  {
    var i := Lookup(fs, from).now;
    if i.Some? {
      CallsKeepWellFormed(fs, to, i.value);
    } else {
      CallsKeepWellFormed(fs, to, 0);
    }
    CallsKeepWellFormed(SetEntry(fs, to, i), from, 0);
    hide WellFormed;
  }

  // ----- The promise

  /** The target is as before, for readers and after a crash. */
  ghost predicate Untouched(before: Fs, fs: Fs, path: string) {
    Reads(fs, path) == Reads(before, path) && forall c :: MayHold(fs, path, c) <==> MayHold(before, path, c)
  }

  /** Readers see the new contents, complete; a crash leaves them or what it could leave before. */
  ghost predicate Replaced(before: Fs, fs: Fs, path: string, data: Bytes) {
    Reads(fs, path) == Some(data) && forall c :: MayHold(fs, path, c) ==> c == Some(data) || MayHold(before, path, c)
  }

  ghost predicate AllOrNothing(before: Fs, fs: Fs, path: string, data: Bytes) {
    Untouched(before, fs, path) || Replaced(before, fs, path, data)
  }

  /** Nothing the target stands for or may stand for has changed. */
  ghost predicate Beside(before: Fs, fs: Fs, path: string) {
    && Lookup(fs, path) == Lookup(before, path)
    && forall i :: i in before.inodes ==> i in fs.inodes && fs.inodes[i] == before.inodes[i]
  }

  /** The temporary file exists, apart from the target. */
  ghost predicate Apart(before: Fs, fs: Fs, path: string, tmp: string, n: nat) {
    tmp != path && n in fs.inodes && n !in before.inodes && Beside(before, fs, path) && Lookup(fs, tmp).now == Some(n)
  }

  lemma BesideUntouched(before: Fs, fs: Fs, path: string)
    requires WellFormed(before) && Beside(before, fs, path)
    ensures Untouched(before, fs, path)
  {
    var e := Lookup(before, path);
    assert forall i: Option<nat> :: i in e.possible + {e.now} && i.Some? ==> i.value in before.inodes;
  }

  /** The rename of a complete and synced file replaces the target in one step. */
  lemma RenameReplaces(before: Fs, fs: Fs, path: string, tmp: string, n: nat, data: Bytes)
    requires WellFormed(before) && Apart(before, fs, path, tmp, n) && fs.inodes[n] == Inode(data, true)
    ensures Replaced(before, Renamed(fs, tmp, path), path, data)
  {
    var t := Renamed(fs, tmp, path);
    var e := Lookup(before, path);
    assert forall i: Option<nat> :: i in e.possible && i.Some? ==> i.value in before.inodes;
    assert Lookup(t, path) == Entry(Some(n), e.possible + {Some(n)});
  }

  // ----- Any number of writes and crashes

  /** What a crash leaves: one of the contents it could leave, for readers and for the next crash alike. */
  ghost predicate Crashed(before: Fs, fs: Fs, path: string) {
    MayHold(before, path, Reads(fs, path)) && forall c :: MayHold(fs, path, c) ==> c == Reads(fs, path)
  }

  datatype Episode = Write(data: Bytes) | Crash

  /** From one state to the next: a point of a write, finished or not, or a crash. */
  ghost predicate History(path: string, states: seq<Fs>, episodes: seq<Episode>) {
    && |states| == |episodes| + 1
    && forall k :: 0 <= k < |episodes| ==>
         match episodes[k]
         case Write(data) => AllOrNothing(states[k], states[k + 1], path, data)
         case Crash => Crashed(states[k], states[k + 1], path)
  }

  ghost predicate Holds(fs: Fs, path: string, c: Option<Bytes>) {
    Reads(fs, path) == c || MayHold(fs, path, c)
  }

  /**
   * Whatever was written and interrupted, a reader finds, and a crash leaves, what the target held at first or
   * the complete contents of one of the writes.
   */
  lemma {:induction false} ContentsAreComplete(path: string, states: seq<Fs>, episodes: seq<Episode>, c: Option<Bytes>)
    requires History(path, states, episodes) && Holds(states[|episodes|], path, c)
    ensures Holds(states[0], path, c) || (c.Some? && Write(c.value) in episodes)
    decreases |episodes|
  {
    hide MayHold, Reads;
    var n := |episodes| - 1;
    if n >= 0 {
      var before := episodes[..n];
      assert forall k :: 0 <= k < n ==> before[k] == episodes[k];
      assert Holds(states[n], path, c) || (episodes[n].Write? && c == Some(episodes[n].data));
      if Holds(states[n], path, c) {
        ContentsAreComplete(path, states[..n + 1], before, c);
        assert c.Some? && Write(c.value) in before ==> Write(c.value) in episodes;
      }
    }
  }

  /** Once a write is durable, only it and what is written later can be found. */
  lemma DurableCutsOff(path: string, states: seq<Fs>, episodes: seq<Episode>, k: nat, data: Bytes, c: Option<Bytes>)
    requires History(path, states, episodes) && k <= |episodes|
    requires forall d :: Holds(states[k], path, d) ==> d == Some(data)
    requires Holds(states[|episodes|], path, c)
    ensures c == Some(data) || (c.Some? && Write(c.value) in episodes[k..])
  {
    hide MayHold, Reads;
    var later := episodes[k..];
    assert forall j :: 0 <= j < |later| ==> later[j] == episodes[k + j];
    ContentsAreComplete(path, states[k..], later, c);
  }

  datatype Call = CreateTemp | WriteData | Chmod | Sync | CloseFile | Rename | Remove | SyncDir

  /** A system call and whether it succeeded. */
  datatype Answer = Answer(call: Call, ok: bool)

  /** Why a write fails: a step of the preparation failed, or the rename five times. */
  ghost predicate Failure(made: seq<Answer>, windows: bool) {
    || (exists c :: c in {CreateTemp, WriteData, Sync, CloseFile} && Answer(c, false) in made)
    || (!windows && Answer(Chmod, false) in made)
    || exists i: nat :: RefusedAt(made, i)
  }

  /** The rename was tried five times from there, in vain. */
  ghost predicate RefusedAt(made: seq<Answer>, i: nat) {
    i + 5 <= |made| && made[i..i + 5] == Refusals(5)
  }

  function Refusals(n: nat): seq<Answer> {
    seq(n, _ => Answer(Rename, false))
  }

  /** The mode is set, or need not be; then the file is synced and closed, up to the first call that fails. */
  ghost predicate Sealing(made: seq<Answer>, windows: bool, ok: bool) {
    && 1 <= |made| <= 3 && made[0].call.Chmod?
    && (if |made| == 1 then !made[0].ok && !windows else made[0].ok || windows)
    && (|made| > 1 ==> made[1] == Answer(Sync, |made| == 3))
    && (|made| == 3 ==> made[2] == Answer(CloseFile, ok)) && (ok ==> |made| == 3)
  }

  ghost predicate Preparation(made: seq<Answer>, windows: bool, ok: bool) {
    || (made == [Answer(WriteData, false)] && !ok)
    || (made != [] && made[0] == Answer(WriteData, true) && Sealing(made[1..], windows, ok))
  }

  /** What the calls say of the outcome. */
  ghost predicate Verdict(made: seq<Answer>, windows: bool, ok: bool, durable: bool) {
    && (ok <==> !Failure(made, windows)) && (ok <==> Answer(Rename, true) in made)
    && (durable <==> Answer(SyncDir, true) in made)
  }

  lemma CreationFails(made: seq<Answer>, windows: bool)
    requires made == [Answer(CreateTemp, false)]
    ensures Failure(made, windows)
  {
  }

  lemma PreparationFails(prep: seq<Answer>, made: seq<Answer>, windows: bool)
    requires Preparation(prep, windows, false)
    requires exists ok: bool :: made == [Answer(CreateTemp, true)] + prep + [Answer(Remove, ok)]
    ensures Failure(made, windows) && Answer(Rename, true) !in made && Answer(SyncDir, true) !in made
  {
    assert forall x :: x in prep ==> x in made;
  }

  lemma RenamesFail(prep: seq<Answer>, renames: seq<Answer>, made: seq<Answer>, windows: bool)
    requires Preparation(prep, windows, true) && renames == Refusals(5)
    requires exists ok: bool :: made == [Answer(CreateTemp, true)] + prep + renames + [Answer(Remove, ok)]
    ensures Failure(made, windows) && Answer(Rename, true) !in made && Answer(SyncDir, true) !in made
  {
    assert made[5..10] == renames && RefusedAt(made, 5);
  }

  lemma AllWorks(prep: seq<Answer>, renames: seq<Answer>, durable: bool, windows: bool)
    requires Preparation(prep, windows, true)
    requires exists n: nat :: n < 5 && renames == Refusals(n) + [Answer(Rename, true)]
    ensures var made := [Answer(CreateTemp, true)] + prep + renames + [Answer(SyncDir, durable)];
            && !Failure(made, windows) && Answer(Rename, true) in made && (Answer(SyncDir, true) in made <==> durable)
  {
    var n: nat :| n < 5 && renames == Refusals(n) + [Answer(Rename, true)];
    var made := [Answer(CreateTemp, true)] + prep + renames + [Answer(SyncDir, durable)];
    assert made[5 + n] == Answer(Rename, true);
    forall i: nat | i + 5 <= |made| ensures !RefusedAt(made, i) {
      var k := if i < 5 then 0 else 5 + n - i;
      assert made[i..i + 5][k] == made[i + k] != Answer(Rename, false) == Refusals(5)[k];
    }
  }

  class Disk {
    const windows: bool
    var fs: Fs
    /** What the system calls answered. */
    ghost var calls: seq<Answer>
    /** Every state of the file system so far: each is one a crash may interrupt. */
    ghost var points: seq<Fs>

    ghost predicate At(start: int)
      reads `fs, `points
    {
      0 <= start < |points| && points[|points| - 1] == fs
    }

    ghost predicate AllPoints(start: int, before: Fs, path: string, data: Bytes)
      reads `fs, `points
    {
      At(start) && forall k :: start <= k < |points| ==> AllOrNothing(before, points[k], path, data)
    }

    method Try(c: Call) returns (ok: bool)
      modifies `calls
      ensures calls == old(calls) + [Answer(c, ok)]
    {
      ok := *;
      calls := calls + [Answer(c, ok)];
    }

    method Reach(next: Fs)
      modifies `fs, `points
      ensures fs == next && points == old(points) + [next]
    {
      fs, points := next, points + [next];
    }

    /** A step that leaves the target alone. */
    method ReachBeside(next: Fs, ghost start: int, ghost before: Fs, path: string, ghost data: Bytes)
      requires WellFormed(before) && Beside(before, next, path) && AllPoints(start, before, path, data)
      modifies `fs, `points
      ensures AllPoints(start, before, path, data) && fs == next && points == old(points) + [next]
    {
      Reach(next);
      BesideUntouched(before, fs, path);
      hide Untouched, Replaced;
    }

    /** A rename that other programs may block for a moment: five attempts. */
    method RenameWithRetry(from: string, to: string) returns (ok: bool)
      modifies this
      ensures ok ==> fs == Renamed(old(fs), from, to) && points == old(points) + [fs]
      ensures !ok ==> fs == old(fs) && points == old(points)
      ensures if ok then
                exists n: nat :: n < 5 && calls == old(calls) + Refusals(n) + [Answer(Rename, true)]
              else calls == old(calls) + Refusals(5)
    {
      var attempt := 1;
      ok := false;
      while attempt <= 5
        invariant 1 <= attempt <= 6 && !ok && fs == old(fs) && points == old(points)
        invariant calls == old(calls) + Refusals(attempt - 1)
      {
        var works := Try(Rename);
        if works {
          Reach(Renamed(fs, from, to));
          return true;
        }
        assert Refusals(attempt) == Refusals(attempt - 1) + [Answer(Rename, false)];
        attempt := attempt + 1;
      }
    }

    method RemoveTemp(tmp: string)
      modifies this
      ensures (fs == old(fs) && points == old(points))
              || (fs == SetEntry(old(fs), tmp, None) && points == old(points) + [fs])
      ensures exists ok: bool :: calls == old(calls) + [Answer(Remove, ok)]
    {
      var works := Try(Remove);
      if works {
        Reach(SetEntry(fs, tmp, None));
      }
    }

    /** The temporary file, written, made durable and closed; or an error on the way. */
    method PrepareTemp(ghost start: int, ghost before: Fs, path: string, data: Bytes, tmp: string, n: nat)
      returns (ok: bool)
      requires WellFormed(before) && At(start) && fs == before && AllPoints(start, before, path, data)
      requires tmp != path && tmp !in fs.dir && n !in fs.inodes
      modifies this
      ensures Apart(before, fs, path, tmp, n) && AllPoints(start, before, path, data) && old(points) <= points
      ensures WellFormed(fs) && (ok ==> fs.inodes[n] == Inode(data, true))
      ensures old(calls) <= calls && Preparation(calls[|old(calls)|..], windows, ok)
    {
      hide AllPoints, WellFormed, Sealing;
      ghost var made := |calls|;
      ok := WriteTemp(start, before, path, data, tmp, n);
      assert calls[made..] == [Answer(WriteData, ok)];
      if !ok {
        return;
      }
      ghost var log := calls;
      ok := SealTemp(start, before, path, data, tmp, n);
      assert calls[made..][1..] == calls[|log|..];
    }

    method WriteTemp(ghost start: int, ghost before: Fs, path: string, data: Bytes, tmp: string, n: nat)
      returns (ok: bool)
      requires WellFormed(before) && At(start) && fs == before && AllPoints(start, before, path, data)
      requires tmp != path && tmp !in fs.dir && n !in fs.inodes
      modifies this
      ensures Apart(before, fs, path, tmp, n) && AllPoints(start, before, path, data) && old(points) <= points
      ensures WellFormed(fs) && (ok ==> fs.inodes[n] == Inode(data, false))
      ensures calls == old(calls) + [Answer(WriteData, ok)]
    {
      hide AllPoints, WellFormed;
      CallsKeepWellFormed(fs, tmp, n);
      ReachBeside(Created(fs, tmp, n), start, before, path, data);
      ok := Try(WriteData);
      var written: int := *;
      written := if ok || written < 0 || written > |data| then |data| else written;
      WrittenWellFormed(fs, n, data[..written]);
      ReachBeside(Written(fs, n, data[..written]), start, before, path, data);
    }

    method SealTemp(ghost start: int, ghost before: Fs, path: string, data: Bytes, tmp: string, n: nat)
      returns (ok: bool)
      requires WellFormed(before) && AllPoints(start, before, path, data)
      requires Apart(before, fs, path, tmp, n) && WellFormed(fs) && fs.inodes[n] == Inode(data, false)
      modifies this
      ensures Apart(before, fs, path, tmp, n) && AllPoints(start, before, path, data) && old(points) <= points
      ensures WellFormed(fs) && (ok ==> fs.inodes[n] == Inode(data, true))
      ensures old(calls) <= calls && Sealing(calls[|old(calls)|..], windows, ok)
    {
      hide AllPoints, WellFormed;
      ghost var made := |calls|;
      var chmod := Try(Chmod);
      assert calls[made..] == [Answer(Chmod, chmod)];
      if !chmod && !windows {
        return false;
      }
      ok := Try(Sync);
      assert calls[made..] == [Answer(Chmod, chmod), Answer(Sync, ok)];
      if !ok {
        return;
      }
      CallsKeepWellFormed(fs, tmp, n);
      ReachBeside(Synced(fs, n), start, before, path, data);
      ok := Try(CloseFile);
      assert calls[made..] == [Answer(Chmod, chmod), Answer(Sync, true), Answer(CloseFile, ok)];
    }

    /**
     * At every point on the way, on every error path, a reader of the target finds the complete old or the
     * complete new contents, and so does one after a crash. An error means the old ones; and once
     * the directory is synced too, a crash leaves the new ones. It fails only if a step of the
     * preparation fails, where the mode does not count on Windows, or the rename does five times.
     */
    method WriteFileAtomic(path: string, data: Bytes, tmp: string, n: nat) returns (ok: bool, durable: bool)
      requires WellFormed(fs) && points != [] && points[|points| - 1] == fs
      requires tmp != path && tmp !in fs.dir && n !in fs.inodes
      modifies this
      ensures WellFormed(fs) && old(points) <= points && AllPoints(|old(points)| - 1, old(fs), path, data)
      ensures !ok ==> Untouched(old(fs), fs, path)
      ensures ok ==> Replaced(old(fs), fs, path, data)
      ensures durable ==> ok && forall c :: MayHold(fs, path, c) ==> c == Some(data)
      ensures old(calls) <= calls
      ensures Verdict(calls[|old(calls)|..], windows, ok, durable)
    {
      hide Preparation, Failure, Refusals, WellFormed, MayHold, Reads, Untouched;
      BesideUntouched(fs, fs, path);
      ghost var before, start, made := fs, |points| - 1, |calls|;
      durable := false;
      var create := Try(CreateTemp);
      assert calls[made..] == [Answer(CreateTemp, create)];
      if !create {
        CreationFails(calls[made..], windows);
        return false, false;
      }
      ghost var log := calls;
      ok := PrepareTemp(start, before, path, data, tmp, n);
      ghost var prep := calls[|log|..];
      if !ok {
        assert calls[made..] == [Answer(CreateTemp, true)] + prep;
        GiveUp(start, before, path, data, tmp);
        PreparationFails(prep, calls[made..], windows);
        return;
      }
      assert calls[made..] == [Answer(CreateTemp, true)] + prep;
      ok, durable := MoveIntoPlace(start, before, path, data, tmp, n, made, prep);
    }

    /** The rename, and where it fails the end of the temporary file. */
    method MoveIntoPlace(ghost start: int, ghost before: Fs, path: string, ghost data: Bytes, tmp: string,
                         ghost n: nat, ghost made: nat, ghost prep: seq<Answer>) returns (ok: bool, durable: bool)
      requires WellFormed(before) && WellFormed(fs) && AllPoints(start, before, path, data)
      requires Apart(before, fs, path, tmp, n) && fs.inodes[n] == Inode(data, true) && Preparation(prep, windows, true)
      requires made <= |calls| && calls[made..] == [Answer(CreateTemp, true)] + prep
      modifies this
      ensures WellFormed(fs) && old(points) <= points && AllPoints(start, before, path, data)
      ensures !ok ==> Untouched(before, fs, path)
      ensures ok ==> Replaced(before, fs, path, data)
      ensures durable ==> ok && forall c :: MayHold(fs, path, c) ==> c == Some(data)
      ensures old(calls) <= calls && Verdict(calls[made..], windows, ok, durable)
    {
      hide Preparation, Failure, Refusals, WellFormed, MayHold, Reads, Untouched;
      durable := false;
      ghost var prepared, log := fs, calls;
      ok := RenameWithRetry(tmp, path);
      ghost var renames := calls[|log|..];
      assert calls[made..] == [Answer(CreateTemp, true)] + prep + renames;
      if !ok {
        GiveUp(start, before, path, data, tmp);
        RenamesFail(prep, renames, calls[made..], windows);
        return;
      }
      RenameReplaces(before, prepared, path, tmp, n, data);
      RenamedWellFormed(prepared, tmp, path);
      durable := SyncDirectory(start, before, path, data);
      assert calls[made..] == [Answer(CreateTemp, true)] + prep + renames + [Answer(SyncDir, durable)];
      AllWorks(prep, renames, durable, windows);
    }

    /** The error paths: the temporary file goes, if it can be removed. */
    method GiveUp(ghost start: int, ghost before: Fs, path: string, ghost data: Bytes, tmp: string)
      requires WellFormed(before) && tmp != path && Beside(before, fs, path) && AllPoints(start, before, path, data)
      requires WellFormed(fs)
      modifies this
      ensures WellFormed(fs) && Untouched(before, fs, path) && AllPoints(start, before, path, data)
              && old(points) <= points
      ensures exists ok: bool :: calls == old(calls) + [Answer(Remove, ok)]
    {
      CallsKeepWellFormed(fs, tmp, 0);
      RemoveTemp(tmp);
      BesideUntouched(before, fs, path);
    }

    /** Best effort: where the directory cannot be opened or synced the rename may still be undone by a crash. */
    method SyncDirectory(ghost start: int, ghost before: Fs, path: string, ghost data: Bytes) returns (durable: bool)
      requires WellFormed(fs) && Replaced(before, fs, path, data) && At(start)
      requires Lookup(fs, path).now.Some? && Lookup(fs, path).now.value in fs.inodes
      requires fs.inodes[Lookup(fs, path).now.value] == Inode(data, true)
      requires forall k :: start <= k < |points| ==> AllOrNothing(before, points[k], path, data)
      modifies this
      ensures WellFormed(fs) && Replaced(before, fs, path, data) && AllPoints(start, before, path, data)
              && old(points) <= points
      ensures durable ==> forall c :: MayHold(fs, path, c) ==> c == Some(data)
      ensures calls == old(calls) + [Answer(SyncDir, durable)]
    {
      durable := Try(SyncDir);
      if durable {
        CallsKeepWellFormed(fs, path, 0);
        Reach(DirSynced(fs));
      }
    }
  }
}
