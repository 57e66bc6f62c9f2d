/**
 * The update as the agent runs it. The fields are the update's part of state.json and the globals of
 * the process; sys is the world outside, followed event by event, and log is the list of those
 * events. The external calls answer anything the world allows.
 */
module UpdateAgent {
  import opened Prelude
  import opened Semver
  import opened UpdateMachine
  import opened UpdateWindow
  import UpdateSafety

  /** What the server proposes; the signature is opaque. */
  datatype AgentUpdate = AgentUpdate(latestVersion: string, sha256: string, signature: string)

  /** All there has to be in a proposal. */
  predicate Complete(u: AgentUpdate) {
    u.latestVersion != "" && u.sha256 != "" && u.signature != ""
  }

  /** The version that was rolled back last, less than a day ago. */
  predicate HeldBack(u: AgentUpdate, version: string, at: nat, now: nat) {
    u.latestVersion == version && now < at + 24 * 3600
  }

  class Agent {
    /** Which signatures verify, of which binaries. */
    const signs: (Image, string) -> bool
    /** What the last download gave. */
    ghost var download: Option<Image>

    var lastUpdateAt: nat
    var lastUpdateVersion: string
    var failedSinceUpdate: nat
    var rolledBackVersion: string
    var rolledBackAt: nat
    var binarySHA256: string

    var agentVersion: string
    var swappedVersion: string
    var runtimeTamper: bool
    var restartRequested: bool

    var sys: Sys
    ghost var log: seq<Event>
    ghost const start: Sys

    /** A process about to boot on a machine where the agent is installed. */
    constructor (world: Sys, signs: (Image, string) -> bool)
      requires Installed(world)
      ensures this.signs == signs && Valid() && sys == start == world && log == [] && sys.pc.Down?
    {
      lastUpdateAt, lastUpdateVersion, failedSinceUpdate := 0, "", 0;
      rolledBackVersion, rolledBackAt, binarySHA256 := "", 0, "";
      agentVersion, swappedVersion, runtimeTamper, restartRequested := "", world.proc.swapped, world.proc.alarm, false;
      sys, start, log, this.signs, download := world, world, [], signs, None;
    }

    ghost function Memory(): State
      reads `lastUpdateAt, `lastUpdateVersion, `failedSinceUpdate, `rolledBackVersion, `rolledBackAt, `binarySHA256
    {
      State(lastUpdateAt, lastUpdateVersion, failedSinceUpdate, rolledBackVersion, rolledBackAt, binarySHA256)
    }

    /** What happened since the installation is a possible run, and it led to sys. */
    ghost predicate Tracked()
      reads `sys, `log
    {
      Installed(start) && Exec(start, log) == Some(sys)
    }

    /** The globals are those of that process. */
    ghost predicate Globals(p: Process)
      reads `swappedVersion, `runtimeTamper, `agentVersion
    {
      && swappedVersion == p.swapped && runtimeTamper == p.alarm
      && (p.running.Some? ==> agentVersion == p.running.value.version)
    }

    /** The download gave a binary with the announced hash and a signature of it. */
    ghost predicate Downloaded(u: AgentUpdate)
      reads `download
    {
      download.Some? && download.value.digest == Lower(Trim(u.sha256)) && signs(download.value, u.signature)
    }

    ghost predicate Valid()
      reads this
    {
      Tracked() && Globals(sys.proc) && Memory() == sys.mem
    }

    // ----- The outside

    method Happen(e: Event)
      requires Tracked() && Enabled(sys, e)
      modifies `sys, `log
      ensures Tracked() && log == old(log) + [e] && sys == Next(old(sys), e)
    {
      hide Installed;
      sys, log := Next(sys, e), log + [e];
      assert log[..|log| - 1] == old(log);
    }

    method Save()
      requires Tracked() && SavePoint(sys.pc)
      modifies `sys, `log
      ensures Tracked() && old(log) <= log && sys.files == old(sys).files && sys.pc == OnSave(old(sys), true).pc
      ensures old(sys).pc.RbSave? || old(sys).pc.UpSave? || old(sys).pc.BaselineSave? ==> sys.pc.Idle?
      ensures sys.mem == old(sys).mem
      ensures sys.proc == if old(sys).pc.UpSave? then old(sys).proc.(swapped := old(sys).pc.offer.version)
               else old(sys).proc
    {
      var ok: bool := *;
      Happen(UpdateMachine.Save(ok));
    }

    /** A removal, a rename or a write, at the point of the program where sys is. */
    method Touch() returns (ok: bool)
      requires Tracked() && FilePoint(sys.pc)
      modifies `sys, `log
      ensures Tracked() && log == old(log) + [File(ok)] && Enabled(old(sys), File(ok))
      ensures sys == Next(old(sys), File(ok))
    {
      ok := *;
      ok := ok && Movable(sys);
      Happen(File(ok));
    }

    method DownloadBinary() returns (bin: Option<Image>)
      modifies `download
      ensures bin == download
    {
      bin := *;
      download := bin;
    }

    method VerifyBinarySignature(bin: Image, signature: string) returns (ok: bool)
      ensures ok == signs(bin, signature)
    {
      ok := signs(bin, signature);
    }

    method FileSHA256() returns (sum: Option<string>)
      requires Tracked()
      ensures sum.Some? ==> sys.files.cur.Some? && sum.value == sys.files.cur.value.digest
    {
      var readable: bool := *;
      sum := if readable && sys.files.cur.Some? then Some(sys.files.cur.value.digest) else None;
    }

    // ----- The agent

    /** The end of the process, at any point of its program. */
    method Crash()
      requires Tracked() && !sys.pc.Down?
      modifies `sys, `log
      ensures Tracked() && sys.pc.Down?
    {
      Happen(UpdateMachine.Crash);
    }

    /** A new process: the state is read back from disk, and the binary checked against the stored hash. */
    method Boot()
      requires Tracked() && sys.pc.Down? && sys.files.cur.Some?
      modifies this
      ensures Valid() && sys.pc.Idle?
      ensures runtimeTamper ==> Lower(old(sys).files.cur.value.digest) != Lower(binarySHA256)
    {
      hide Installed, Exec;
      lastUpdateAt, lastUpdateVersion := sys.disk.updateAt, sys.disk.updateVersion;
      failedSinceUpdate, binarySHA256 := sys.disk.failures, sys.disk.baseline;
      rolledBackVersion, rolledBackAt := sys.disk.rolledBackVersion, sys.disk.rolledBackAt;
      agentVersion, swappedVersion := sys.files.cur.value.version, "";
      runtimeTamper, restartRequested := false, false;
      var _ := CheckBinaryIntegrity();
    }

    method CheckBinaryIntegrity() returns (ghost readable: bool)
      requires Tracked() && sys.pc.Down? && sys.files.cur.Some? && Memory() == sys.disk
      requires swappedVersion == "" && !runtimeTamper && agentVersion == sys.files.cur.value.version
      modifies `binarySHA256, `runtimeTamper, `sys, `log
      ensures Valid() && sys.pc.Idle?
      ensures runtimeTamper <==>
                readable && old(binarySHA256) != ""
                    && Lower(old(sys).files.cur.value.digest) != Lower(old(binarySHA256))
      ensures binarySHA256 ==
                if readable && old(binarySHA256) == "" then old(sys).files.cur.value.digest else old(binarySHA256)
    {
      hide Installed, Exec, Lower;
      var current := FileSHA256();
      readable := current.Some?;
      Happen(UpdateMachine.Boot(current.Some?));
      if current.None? {
        return;
      }
      if binarySHA256 == "" {
        binarySHA256 := current.value;
        Save();
        return;
      }
      if Lower(current.value) == Lower(binarySHA256) {
        return;
      }
      runtimeTamper := true;
    }

    /** Called with the outcome of each check-in. */
    method CheckRollback(ok: bool, now: nat)
      requires Valid() && sys.pc.Idle? && sys.proc.running.Some?
      modifies this
      ensures Valid() && old(log) < log && log[|old(log)|] == Checkin(ok)
              && (if ok then sys.pc.Served? else sys.pc.Idle?)
    {
      hide Installed, Exec;
      Happen(Checkin(ok));
      ghost var n := log;
      if lastUpdateAt == 0 {
        return;
      }
      if swappedVersion != "" {
        return;
      }
      if ok {
        lastUpdateAt, lastUpdateVersion, failedSinceUpdate := 0, "", 0;
        Save();
        return;
      }
      failedSinceUpdate := failedSinceUpdate + 1;
      RollbackIfTooMany(now);
    }

    method RollbackIfTooMany(now: nat)
      requires Valid() && sys.pc.CountSave?
      modifies this
      ensures Valid() && old(log) <= log && sys.pc.Idle?
    {
      hide Installed, Exec;
      Save();
      if failedSinceUpdate < MAX_FAILED {
        return;
      }
      var err := Rollback();
      if err {
        return;
      }
      ConcludeRollback(now);
    }

    /** The binary is restored: conclude the rollback, and restart. */
    method ConcludeRollback(now: nat)
      requires Valid() && sys.pc.RbHash?
      modifies this
      ensures Valid() && old(log) <= log && sys.pc.Idle? && restartRequested
    {
      hide Tracked, Globals, Next, Enabled, OnSave;
      CloseWindow(now);
      Save();
      restartRequested := true;
    }

    /** Remember the version, expect the restored hash, close the window. */
    method CloseWindow(now: nat)
      requires Valid() && sys.pc.RbHash?
      modifies `lastUpdateAt, `lastUpdateVersion, `failedSinceUpdate, `rolledBackVersion, `rolledBackAt,
                 `binarySHA256, `sys, `log
      ensures Valid() && old(log) <= log && sys.pc.RbSave?
    {
      hide Tracked, Globals, Next, Enabled, OnSave;
      rolledBackVersion, rolledBackAt := lastUpdateVersion, now;
      var sum := HashRestored(now);
      if sum.Some? {
        binarySHA256 := sum.value;
      }
      lastUpdateAt, lastUpdateVersion, failedSinceUpdate := 0, "", 0;
    }

    method HashRestored(now: nat) returns (sum: Option<string>)
      requires Tracked() && sys.pc.RbHash?
      modifies `sys, `log
      ensures Tracked() && old(log) <= log && sys.pc.RbSave?
      ensures var st := old(sys).mem;
              sys.mem == State(0, "", 0, st.updateVersion, now, if sum.Some? then sum.value else st.baseline)
      ensures sys.proc == old(sys).proc
    {
      hide Installed, Exec;
      sum := FileSHA256();
      Happen(Hash(sum.Some?, now));
    }

    method Rollback() returns (err: bool)
      requires Tracked() && sys.pc.RbStat?
      modifies `sys, `log
      ensures Tracked() && old(log) <= log && (if err then sys.pc.Idle? else sys.pc.RbHash?)
      ensures sys.mem == old(sys).mem && sys.proc == old(sys).proc
    {
      hide Installed, Exec;
      var found := Touch();
      if !found {
        return true;
      }
      var _ := Touch();
      var ok := Touch();
      if !ok {
        return true;
      }
      ok := Touch();
      if !ok {
        var _ := Touch();
        return true;
      }
      return false;
    }

    /**
     * Follows a proposal of the server. None is an error if there is nothing to do: no proposal, a swap that waits
     * for its restart, a version that is not newer or is held back. An incomplete one is an error. Any other
     * is installed, unless the download, its hash, its signature or a file step failed; that is an error.
     */
    method HandleAgentUpdate(upd: Option<AgentUpdate>, now: nat) returns (err: bool)
      requires Valid() && sys.pc.Served? && sys.proc.running.Some? && now > 0
      modifies this
      ensures Valid() && old(log) <= log && sys.pc.Idle?
      ensures upd.Some? && swappedVersion != "" ==> restartRequested
      ensures upd.None? || old(swappedVersion) != "" ==>
                !err && log == old(log) + [Pass] && swappedVersion == old(swappedVersion)
      ensures upd.Some? && old(swappedVersion) == "" && !Complete(upd.value) ==>
                err && log == old(log) + [Pass] && swappedVersion == ""
      ensures upd.Some? && old(swappedVersion) == "" && Complete(upd.value) ==>
                var u := upd.value;
                if !Greater(u.latestVersion, agentVersion)
                   || HeldBack(u, old(rolledBackVersion), old(rolledBackAt), now) then
                  !err && log == old(log) + [Pass] && swappedVersion == ""
                else if err then
                  swappedVersion == "" && (!Downloaded(u) || File(false) in log[|old(log)|..])
                else
                  swappedVersion == u.latestVersion && Downloaded(u) && sys.files.cur == download
    {
      hide Installed, Exec, Greater;
      if upd.None? {
        Happen(Pass);
        return false;
      }
      var u := upd.value;
      if swappedVersion != "" {
        Happen(Pass);
        restartRequested := true;
        return false;
      }
      if u.latestVersion == "" || u.sha256 == "" || u.signature == "" {
        Happen(Pass);
        return true;
      }
      var newer := SemverGT(u.latestVersion, agentVersion);
      if !newer || (rolledBackVersion != "" && u.latestVersion == rolledBackVersion
          && now - rolledBackAt < RETRY_AFTER) {
        Happen(Pass);
        return false;
      }
      err := DownloadAndInstall(u, now);
    }

    method DownloadAndInstall(u: AgentUpdate, now: nat) returns (err: bool)
      requires Valid() && sys.pc.Served? && sys.proc.running.Some? && now > 0 && swappedVersion == ""
      requires u.latestVersion != "" && u.sha256 != "" && Greater(u.latestVersion, agentVersion)
      requires !(rolledBackVersion != "" && u.latestVersion == rolledBackVersion && now - rolledBackAt < RETRY_AFTER)
      modifies this
      ensures Valid() && old(log) <= log && sys.pc.Idle? && agentVersion == old(agentVersion)
      ensures swappedVersion != "" ==> restartRequested
      ensures if err then swappedVersion == "" && (!Downloaded(u) || File(false) in log[|old(log)|..])
              else swappedVersion == u.latestVersion && Downloaded(u) && sys.files.cur == download
    {
      hide Installed, Exec, Greater, Trim, Lower;
      var bin := DownloadBinary();
      if bin.None? || bin.value.digest != Lower(Trim(u.sha256)) {
        Happen(Pass);
        return true;
      }
      var signed := VerifyBinarySignature(bin.value, u.signature);
      if !signed {
        Happen(Pass);
        return true;
      }
      var o := Offer(u.latestVersion, u.sha256, signed, bin.value, now);
      err := Follow(o);
    }

    method Follow(o: Offer) returns (err: bool)
      requires Valid() && sys.pc.Served? && o.now > 0 && Installs(sys, o) && swappedVersion == ""
      modifies `lastUpdateAt, `lastUpdateVersion, `failedSinceUpdate, `binarySHA256, `swappedVersion,
                 `restartRequested, `sys, `log
      ensures Valid() && old(log) <= log && sys.pc.Idle?
      ensures swappedVersion == if err then "" else o.version
      ensures err ==> File(false) in log[|old(log)|..]
      ensures !err ==> sys.files.cur == Some(o.image) && restartRequested
    {
      hide Installed, Exec, Installs;
      Happen(Propose(o));
      ghost var n := |log|;
      err := Install(o);
      assert log[n - 1..] == [Propose(o)] + log[n..];
    }

    method Install(o: Offer) returns (err: bool)
      requires Valid() && sys.pc == UpWrite(o) && swappedVersion == ""
      modifies `lastUpdateAt, `lastUpdateVersion, `failedSinceUpdate, `binarySHA256, `swappedVersion,
                 `restartRequested, `sys, `log
      ensures Valid() && old(log) <= log && sys.pc.Idle?
      ensures swappedVersion == if err then "" else o.version
      ensures err ==> File(false) in log[|old(log)|..]
      ensures !err ==> sys.files.cur == Some(o.image) && restartRequested
    {
      hide Tracked, Exec, Next, Enabled, Lower, OnSave, Installed, SavePoint, Installs;
      var ok := WriteNew(o);
      if !ok {
        return true;
      }
      err := AtomicReplace(o);
      if err {
        RemoveNew();
        return;
      }
      OpenWindow(o);
    }

    /** The window opens, the hash to expect is the announced one, and the swap is saved. */
    method OpenWindow(o: Offer)
      requires Tracked() && Globals(sys.proc) && sys.pc == UpSave(o)
      requires sys.mem ==
               Memory().(updateAt := o.now, updateVersion := o.version, failures := 0, baseline := Lower(o.sha))
      modifies `lastUpdateAt, `lastUpdateVersion, `failedSinceUpdate, `binarySHA256, `swappedVersion,
                 `restartRequested, `sys, `log
      ensures Valid() && old(log) <= log && sys.pc.Idle? && sys.files == old(sys).files
      ensures swappedVersion == o.version && restartRequested
    {
      hide Tracked, Exec, Next, Enabled, Lower, OnSave, Installed, SavePoint, Installs;
      lastUpdateAt, lastUpdateVersion, failedSinceUpdate := o.now, o.version, 0;
      binarySHA256 := Lower(o.sha);
      Save();
      swappedVersion := o.version;
      restartRequested := true;
    }

    method WriteNew(o: Offer) returns (ok: bool)
      requires Tracked() && sys.pc == UpWrite(o)
      modifies `sys, `log
      ensures Tracked() && old(log) <= log && sys.mem == old(sys).mem && sys.proc == old(sys).proc
      ensures !ok ==> File(false) in log[|old(log)|..]
      ensures if ok then sys.pc == UpDrop(o) && sys.files.incoming == Some(o.image) else sys.pc.Idle?
    {
      hide Installed, Exec;
      ok := Touch();
    }

    method RemoveNew()
      requires Tracked() && sys.pc.UpClean?
      modifies `sys, `log
      ensures Tracked() && old(log) <= log && sys.mem == old(sys).mem && sys.proc == old(sys).proc && sys.pc.Idle?
    {
      hide Installed, Exec;
      var _ := Touch();
    }

    method AtomicReplace(o: Offer) returns (err: bool)
      requires Tracked() && sys.pc == UpDrop(o) && sys.files.incoming == Some(o.image)
      modifies `sys, `log
      ensures Tracked() && old(log) <= log
      ensures err ==> File(false) in log[|old(log)|..]
      ensures err ==> sys.pc.UpClean? && sys.mem == old(sys).mem && sys.proc == old(sys).proc
      ensures !err ==> sys.pc == UpSave(o) && sys.files.cur == Some(o.image) && sys.proc == old(sys).proc
      ensures var st := old(sys).mem;
              !err ==>
                sys.mem == st.(updateAt := o.now, updateVersion := o.version, failures := 0, baseline := Lower(o.sha))
    {
      hide Installed, Exec, Lower;
      ghost var n := |log|;
      var _ := Touch();
      var ok := Touch();
      if !ok {
        assert log[n + 1] == File(false);
        return true;
      }
      ok := Touch();
      if !ok {
        var _ := Touch();
        assert log[n + 2] == File(false);
        return true;
      }
      return false;
    }
  }
}
