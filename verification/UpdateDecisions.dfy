/** What a start, a check-in, a swap and a rollback do to the state, from the facts, and that each is saved. */
module UpdateDecisions {
  import opened Prelude
  import opened Semver
  import opened UpdateMachine

  /** What is in memory is about to be saved; with success the file has it. */
  predicate Saving(t: Sys, st: State) {
    t.mem == st && SavePoint(t.pc) && Next(t, Save(true)).disk == st && !t.pc.Idle? && !t.pc.Served?
  }

  /**
   * A start takes the state of the file. The first one that can read its binary puts its hash and saves it;
   * later ones only compare, without case.
   */
  lemma StartDecides(s: Sys, readable: bool)
    requires Enabled(s, Boot(readable))
    ensures var t, image := Next(s, Boot(readable)), s.files.cur.value;
            && t.files == s.files && t.disk == s.disk && t.proc.running == s.files.cur && t.proc.swapped == ""
            && if readable && s.disk.baseline == "" then
                 Saving(t, s.disk.(baseline := image.digest)) && !t.proc.alarm
               else
                 t.mem == s.disk && t.pc.Idle?
                 && (t.proc.alarm <==> readable && Lower(image.digest) != Lower(s.disk.baseline))
  {
    hide Lower;
  }

  /**
   * A check-in counts where a window is open and the process has not replaced its own binary: accepted, it closes
   * the window, failed, it counts one failure, and that is saved. Else it changes nothing.
   */
  lemma CheckinDecides(s: Sys, ok: bool)
    requires Enabled(s, Checkin(ok))
    ensures var t := Next(s, Checkin(ok));
            && t.files == s.files && t.disk == s.disk && t.proc == s.proc
            && if s.mem.updateAt != 0 && s.proc.swapped == "" then
                 Saving(t, if ok then s.mem.(updateAt := 0, updateVersion := "", failures := 0)
                           else s.mem.(failures := s.mem.failures + 1))
               else t.mem == s.mem && if ok then t.pc.Served? else t.pc.Idle?
    ensures Next(s, Checkin(true)).pc.DisarmSave? ==> Next(Next(s, Checkin(true)), Save(ok)).pc.Served?
  {
  }

  /** Where an offer is followed. */
  lemma OfferDecides(s: Sys, o: Offer)
    requires Enabled(s, Propose(o)) && s.proc.running.Some?
    ensures Next(s, Propose(o)) ==
            if && s.proc.swapped == "" && o.version != "" && o.sha != ""
               && Greater(o.version, s.proc.running.value.version)
               && !(s.mem.rolledBackVersion == o.version && o.now < s.mem.rolledBackAt + 24 * 3600)
               && o.signed && Lower(Trim(o.sha)) == o.image.digest
            then s.(pc := UpWrite(o)) else s.(pc := Idle)
  {
    hide Greater, Lower, Trim;
  }

  /** The rename that puts a new image in place opens the window for it and expects its hash; that is saved. */
  lemma SwapDecides(s: Sys)
    requires s.pc.UpPut? && s.files.incoming.Some?
    ensures var t, o := Next(s, File(true)), s.pc.offer;
            && t.files == s.files.(cur := s.files.incoming, incoming := None) && t.proc == s.proc
            && Saving(t, s.mem.(updateAt := o.now, updateVersion := o.version, failures := 0, baseline := Lower(o.sha)))
    ensures Next(Next(s, File(true)), Save(false)).proc.swapped == s.pc.offer.version
  {
    hide Lower;
  }

  /** A rollback that restored its file remembers the version, expects the file's hash if it can be read, and saves. */
  lemma RollbackDecides(s: Sys, ok: bool, now: nat)
    requires Enabled(s, Hash(ok, now))
    ensures var hash := if ok then s.files.cur.value.digest else s.mem.baseline;
            Saving(Next(s, Hash(ok, now)), State(0, "", 0, s.mem.updateVersion, now, hash))
  {
  }
}
