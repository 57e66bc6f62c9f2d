/** What the update guarantees over every run that starts from a fresh installation. */
module UpdateSafety {
  import opened Prelude
  import opened Semver
  import opened UpdateMachine
  import opened UpdateWindow

  /** Nothing happened that the agent cannot know about: see Book. */
  predicate Untroubled(s: Sys) {
    !s.book.broken && !s.book.lost
  }

  lemma InvOf(s0: Sys, es: seq<Event>, s: Sys)
    requires Installed(s0) && Exec(s0, es) == Some(s)
    ensures Inv(s)
  {
    Reachable(s0, es);
  }

  // ----- Processes and files

  /** The check-ins of a process older than the swap neither validate the new image nor count against it. */
  lemma OldImageDecidesNothing(s0: Sys, es: seq<Event>, s: Sys, ok: bool)
    requires Installed(s0) && Exec(s0, es) == Some(s) && !s.book.broken && s.pc.Idle? && !s.book.restarted
    ensures Next(s, Checkin(ok)) == s.(pc := if ok then Served else Idle)
  {
    InvOf(s0, es, s);
    hide Baseline;
  }

  /** The binary is absent between two renames only, or for good after a failure that could not be undone. */
  lemma BinaryIsThere(s0: Sys, es: seq<Event>, s: Sys)
    requires Installed(s0) && Exec(s0, es) == Some(s) && s.files.cur.None?
    ensures s.book.broken || (s.pc.Down? && s.book.lost) || s.pc.UpPut? || s.pc.UpUndo? || s.pc.RbPut? || s.pc.RbUndo?
  {
    InvOf(s0, es, s);
    hide Baseline;
  }

  /** No rename lacks its source, so that only the file system can make one fail. */
  lemma RenamesHaveSources(s0: Sys, es: seq<Event>, s: Sys)
    requires Installed(s0) && Exec(s0, es) == Some(s) && !s.book.broken && FilePoint(s.pc)
    requires !s.pc.RbStat?
    ensures Enabled(s, File(true))
  {
    InvOf(s0, es, s);
    hide Baseline;
  }

  // ----- The tamper alarm

  /** A boot raises the alarm exactly if the hash it compares with has blanks around it. */
  lemma AlarmIffPadded(s0: Sys, es: seq<Event>, s: Sys)
    requires Installed(s0) && Exec(s0, es) == Some(s) && Untroubled(s) && s.pc.Down?
    ensures Enabled(s, Boot(true))
    ensures OnBoot(s, true).proc.alarm <==> Trim(s.disk.baseline) != s.disk.baseline
  {
    InvOf(s0, es, s);
    HexUntrimmed(s.files.cur.value.digest);
    assert Trim("") == "";
    hide Trim, Lower;
  }

  ghost predicate AnnouncedPlainly(es: seq<Event>) {
    forall e :: e in es && e.Propose? ==> Trim(e.offer.sha) == e.offer.sha
  }

  predicate Unpadded(s: Sys) {
    && Trim(s.mem.baseline) == s.mem.baseline && Trim(s.disk.baseline) == s.disk.baseline
    && (UpPoint(s.pc) ==> Trim(s.pc.offer.sha) == s.pc.offer.sha)
  }

  /** A file step that does not swap leaves the states alone and stays with its offer. */
  lemma RollbackFileFrame(s: Sys, ok: bool)
    requires RollbackPoint(s.pc)
    ensures var t := OnRollbackFile(s, ok);
            t.mem == s.mem && t.disk == s.disk && t.proc.running == s.proc.running && !UpPoint(t.pc)
  {
  }

  lemma UpdateFileFrame(s: Sys, ok: bool)
    requires (UpPoint(s.pc) || s.pc.UpClean?) && !(s.pc.UpPut? && ok)
    ensures var t := OnUpdateFile(s, ok);
            && t.mem == s.mem && t.disk == s.disk && t.proc.running == s.proc.running
            && (UpPoint(t.pc) ==> UpPoint(s.pc) && t.pc.offer == s.pc.offer)
  {
  }

  lemma UnpaddedFile(s: Sys, ok: bool)
    requires Unpadded(s) && Enabled(s, File(ok))
    ensures Unpadded(Next(s, File(ok)))
  {
    hide Trim, Lower, OnRollbackFile;
    if RbPoint(s.pc) {
      hide OnUpdateFile;
      RollbackFileFrame(s, ok);
    } else if s.pc.UpPut? && ok {
      LowerTrims(s.pc.offer.sha);
    } else {
      hide OnUpdateFile;
      UpdateFileFrame(s, ok);
    }
  }

  /** Boot and rollback put a hash the agent computed, which never has blanks. */
  lemma UnpaddedHash(s: Sys, e: Event)
    requires Unpadded(s) && Enabled(s, e) && (e.Boot? || e.Hash?)
    ensures Unpadded(Next(s, e))
  {
    if s.files.cur.Some? {
      HexUntrimmed(s.files.cur.value.digest);
    }
    hide Trim, Lower;
  }

  lemma UnpaddedStep(s: Sys, e: Event)
    requires Unpadded(s) && Enabled(s, e) && !e.File? && !e.Boot? && !e.Hash?
    requires e.Propose? ==> Trim(e.offer.sha) == e.offer.sha
    ensures Unpadded(Next(s, e))
  {
    hide Trim, Installs, OnRollbackFile, OnUpdateFile, OnBoot, OnHash;
  }

  lemma UnpaddedKept(s: Sys, e: Event)
    requires Unpadded(s) && Enabled(s, e) && (e.Propose? ==> Trim(e.offer.sha) == e.offer.sha)
    ensures Unpadded(Next(s, e))
  {
    if e.File? {
      UnpaddedFile(s, e.ok);
    } else {
      hide Unpadded;
      if e.Boot? || e.Hash? {
        UnpaddedHash(s, e);
      } else {
        UnpaddedStep(s, e);
      }
    }
  }

  lemma {:induction false} UnpaddedRun(s0: Sys, es: seq<Event>)
    requires Unpadded(s0) && AnnouncedPlainly(es) && Exec(s0, es).Some?
    ensures Unpadded(Exec(s0, es).value)
  {
    hide Unpadded, Trim;
    if es != [] {
      UnpaddedRun(s0, es[..|es| - 1]);
      UnpaddedKept(Exec(s0, es[..|es| - 1]).value, es[|es| - 1]);
    }
  }

  /** No false alarm, as long as the hashes are announced without blanks around them. */
  lemma NoFalseAlarm(s0: Sys, es: seq<Event>, s: Sys)
    requires Installed(s0) && Exec(s0, es) == Some(s) && Untroubled(s) && s.pc.Down? && AnnouncedPlainly(es)
    ensures Enabled(s, Boot(true)) && !OnBoot(s, true).proc.alarm
  {
    assert Trim("") == "";
    UnpaddedRun(s0, es);
    AlarmIffPadded(s0, es, s);
    hide Trim;
  }

  // ----- Only verified images

  /** Installed by hand before the run, or announced during it with its own hash and a valid signature. */
  ghost predicate Trusted(s0: Sys, es: seq<Event>, image: Image) {
    || Some(image) in {s0.files.cur, s0.files.bak, s0.files.incoming, s0.files.failed}
    || exists o: Offer ::
         Propose(o) in es && o.image == image && o.signed && Lower(Trim(o.sha)) == image.digest
  }

  ghost predicate TrustedIfAny(s0: Sys, es: seq<Event>, image: Option<Image>) {
    image.Some? ==> Trusted(s0, es, image.value)
  }

  ghost predicate AllTrusted(s0: Sys, es: seq<Event>, s: Sys) {
    && TrustedIfAny(s0, es, s.files.cur) && TrustedIfAny(s0, es, s.files.bak)
    && TrustedIfAny(s0, es, s.files.incoming) && TrustedIfAny(s0, es, s.files.failed)
    && TrustedIfAny(s0, es, s.proc.running)
    && (UpPoint(s.pc) ==> Propose(s.pc.offer) in es && Verified(s.pc.offer))
  }

  lemma TrustGrows(s0: Sys, es: seq<Event>, fs: seq<Event>, s: Sys)
    requires AllTrusted(s0, es, s) && es <= fs
    ensures AllTrusted(s0, fs, s)
  {
    hide Verified;
  }

  /** Where the files of a step come from. */
  predicate Moved(f: Files, g: Files, added: Option<Image>) {
    var had := {None, f.cur, f.bak, f.incoming, f.failed, added};
    g.cur in had && g.bak in had && g.incoming in had && g.failed in had
  }

  lemma RollbackMoves(s: Sys, ok: bool)
    requires RollbackPoint(s.pc)
    ensures Moved(s.files, OnRollbackFile(s, ok).files, None)
  {
  }

  lemma UpdateMoves(s: Sys, ok: bool)
    requires UpPoint(s.pc) || s.pc.UpClean?
    ensures Moved(s.files, OnUpdateFile(s, ok).files, if UpPoint(s.pc) then Some(s.pc.offer.image) else None)
    ensures s.pc.UpPut? && ok ==> OnUpdateFile(s, ok).proc.running == s.proc.running && OnUpdateFile(s, ok).pc.UpSave?
  {
  }

  lemma TrustFile(s0: Sys, es: seq<Event>, s: Sys, ok: bool)
    requires AllTrusted(s0, es, s) && Enabled(s, File(ok))
    ensures AllTrusted(s0, es, Next(s, File(ok)))
  {
    if UpPoint(s.pc) {
      assert Trusted(s0, es, s.pc.offer.image);
    }
    hide Verified, Trusted, OnRollbackFile, OnUpdateFile;
    if RbPoint(s.pc) {
      RollbackFileFrame(s, ok);
      RollbackMoves(s, ok);
    } else {
      UpdateMoves(s, ok);
      if !(s.pc.UpPut? && ok) {
        UpdateFileFrame(s, ok);
      }
    }
  }

  lemma TrustKept(s0: Sys, es: seq<Event>, s: Sys, e: Event)
    requires AllTrusted(s0, es, s) && Enabled(s, e) && e in es
    ensures AllTrusted(s0, es, Next(s, e))
  {
    if e.File? {
      TrustFile(s0, es, s, e.ok);
    } else {
      hide Verified, Trusted, Greater, TooSoon, Lower, OnRollbackFile, OnUpdateFile;
    }
  }

  /** Whatever fails, no image is ever run or kept that was not there at first or verified. */
  lemma {:induction false} OnlyVerifiedImages(s0: Sys, es: seq<Event>, s: Sys)
    requires Installed(s0) && Exec(s0, es) == Some(s)
    ensures AllTrusted(s0, es, s)
  {
    hide Next, Enabled;
    if es != [] {
      var fs := es[..|es| - 1];
      var t := Exec(s0, fs).value;
      OnlyVerifiedImages(s0, fs, t);
      TrustGrows(s0, fs, es, t);
      TrustKept(s0, es, t, es[|es| - 1]);
    }
  }

  // ----- A version that was rolled back

  ghost predicate NoRollback(es: seq<Event>) {
    forall e :: e in es ==> !e.Hash?
  }

  predicate Remembers(s: Sys, version: string, at: nat) {
    && s.mem.rolledBackVersion == version && s.mem.rolledBackAt == at
    && s.disk.rolledBackVersion == version && s.disk.rolledBackAt == at
  }

  lemma RemembersKept(s: Sys, version: string, at: nat, e: Event)
    requires Remembers(s, version, at) && Enabled(s, e) && !e.Hash?
    ensures Remembers(Next(s, e), version, at)
  {
    hide Installs;
  }

  lemma {:induction false} RemembersRun(s: Sys, version: string, at: nat, es: seq<Event>)
    requires Remembers(s, version, at) && NoRollback(es) && Exec(s, es).Some?
    ensures Remembers(Exec(s, es).value, version, at)
  {
    hide Remembers;
    if es != [] {
      RemembersRun(s, version, at, es[..|es| - 1]);
      RemembersKept(Exec(s, es[..|es| - 1]).value, version, at, es[|es| - 1]);
    }
  }

  /** Complete, newer, with its own hash and a signature, and no swap is pending; it may still be held back. */
  predicate Acceptable(s: Sys, o: Offer) {
    && s.proc.swapped == "" && s.proc.running.Some? && o.version != "" && o.sha != ""
    && Greater(o.version, s.proc.running.value.version) && o.signed && Lower(Trim(o.sha)) == o.image.digest
  }

  /**
   * After a rollback whose outcome was saved, and until the next one, restarts or not, an offer of the
   * version rolled back is turned down for a day; any other that is newer and authentic is followed at once.
   */
  lemma RolledBackWaitsADay(s: Sys, hashed: bool, at: nat, es: seq<Event>, t: Sys, o: Offer)
    requires s.pc.RbHash? && s.mem.updateVersion != "" && Enabled(s, Hash(hashed, at))
    requires NoRollback(es) && Exec(Next(Next(s, Hash(hashed, at)), Save(true)), es) == Some(t)
             && Enabled(t, Propose(o))
    ensures TooSoon(t.mem, o) <==> o.version == s.mem.updateVersion && o.now < at + 24 * 3600
    ensures Acceptable(t, o) ==>
              (Next(t, Propose(o)).pc.UpWrite? <==> !(o.version == s.mem.updateVersion && o.now < at + 24 * 3600))
    ensures !Acceptable(t, o) ==> Next(t, Propose(o)) == t.(pc := Idle)
  {
    var u := Next(Next(s, Hash(hashed, at)), Save(true));
    assert Remembers(u, s.mem.updateVersion, at);
    RemembersRun(u, s.mem.updateVersion, at, es);
    hide Greater, Lower, Trim;
  }
}
