/** The server, the machine and the state file agree: what every step keeps, and what follows over whole runs. */
module LapsAlignment {
  import opened Prelude
  import opened LapsMachine

  // ----- Facts that hold wherever the agent is inside a cycle, whatever state it began in

  ghost predicate IsStash(p: Option<Stash>, user: string, cred: nat, phase: Phase) {
    p.Some? && p.value.user == user && p.value.enc == Cipher(cred) && p.value.phase == phase
  }

  /** The account the agent is about to touch is the one it looked at, and one it may manage. */
  ghost predicate Vetted(s: Sys, acct: Option<View>) {
    && Manageable(s.cycle.user, acct, s.mem.managed)
    && (acct.Some? ==>
          && s.cycle.user in s.local
          && acct.value == View(s.local[s.cycle.user].sid, s.local[s.cycle.user].description))
    && (acct.None? ==> s.cycle.user !in s.local)
  }

  ghost predicate NotLegacy(p: Option<Stash>) {
    p.Some? ==> !p.value.phase.Legacy?
  }

  ghost predicate Inside(s: Sys) {
    match s.pc
    case FlushPost => IsPhase(s.mem.pending, Legacy) && Sendable(s.mem)
    case DropSave => s.mem.pending.None?
    case ResyncPost => IsPhase(s.mem.pending, Prepared) && CanRestore(s.mem)
    case ResyncSave => s.mem.pending.None?
    case Looking => NotLegacy(s.mem.pending)
    case Generating(acct) => NotLegacy(s.mem.pending) && Vetted(s, acct)
    case StashSave(acct, cred, previous) =>
      && IsStash(s.mem.pending, s.cycle.user, cred, Prepared) && NotLegacy(previous)
      && cred !in s.applied && Vetted(s, acct)
    case EscrowPost(acct, cred) =>
      && IsStash(s.mem.pending, s.cycle.user, cred, Prepared) && s.disk == s.mem
      && cred !in s.applied && Vetted(s, acct)
    case PhaseSave(acct, cred) =>
      && IsStash(s.mem.pending, s.cycle.user, cred, Escrowed)
      && s.disk == s.mem.(pending := Some(s.mem.pending.value.(phase := Prepared)))
      && s.server == Some(Row(s.cycle.user, Cipher(cred))) && cred in s.accepted
      && cred !in s.applied && Vetted(s, acct)
    case Applying(acct, cred) =>
      && IsStash(s.mem.pending, s.cycle.user, cred, Escrowed) && s.disk == s.mem
      && s.server == Some(Row(s.cycle.user, Cipher(cred))) && cred in s.accepted
      && cred !in s.applied && Vetted(s, acct)
    case RestorePost => s.mem.pending.Some? && NotLegacy(s.mem.pending) && CanRestore(s.mem)
    case Idle => true
    case LastSave => true
  }

  ghost predicate IsPhase(p: Option<Stash>, phase: Phase) {
    p.Some? && p.value.phase == phase
  }

  lemma InsideBegin(s: Sys, c: Cycle)
    requires Inside(s) && Enabled(s, Begin(c))
    ensures Inside(OnBegin(s, c))
  {
  }

  lemma InsidePostFlushPost(s: Sys, reply: Reply, effective: bool)
    requires Inside(s) && s.pc.FlushPost? && Enabled(s, Post(reply, effective))
    ensures Inside(OnPost(s, reply, effective))
  {
  }

  lemma InsidePostResyncPost(s: Sys, reply: Reply, effective: bool)
    requires Inside(s) && s.pc.ResyncPost? && Enabled(s, Post(reply, effective))
    ensures Inside(OnPost(s, reply, effective))
  {
  }

  lemma InsidePostEscrowPost(s: Sys, reply: Reply, effective: bool)
    requires Inside(s) && s.pc.EscrowPost? && Enabled(s, Post(reply, effective))
    ensures Inside(OnPost(s, reply, effective))
  {
  }

  lemma InsidePostRestorePost(s: Sys, reply: Reply, effective: bool)
    requires Inside(s) && s.pc.RestorePost? && Enabled(s, Post(reply, effective))
    ensures Inside(OnPost(s, reply, effective))
  {
  }

  lemma InsidePost(s: Sys, reply: Reply, effective: bool)
    requires Inside(s) && Enabled(s, Post(reply, effective))
    ensures Inside(OnPost(s, reply, effective))
  {
    match s.pc
    case FlushPost => InsidePostFlushPost(s, reply, effective);
    case ResyncPost => InsidePostResyncPost(s, reply, effective);
    case EscrowPost(_, _) => InsidePostEscrowPost(s, reply, effective);
    case RestorePost => InsidePostRestorePost(s, reply, effective);
  }

  lemma InsideSaveIdle(s: Sys, ok: bool)
    requires Inside(s) && s.pc.Idle? && Enabled(s, Save(ok))
    ensures Inside(OnSave(s, ok))
  {
  }

  lemma InsideSaveDropSave(s: Sys, ok: bool)
    requires Inside(s) && s.pc.DropSave? && Enabled(s, Save(ok))
    ensures Inside(OnSave(s, ok))
  {
  }

  lemma InsideSaveResyncSave(s: Sys, ok: bool)
    requires Inside(s) && s.pc.ResyncSave? && Enabled(s, Save(ok))
    ensures Inside(OnSave(s, ok))
  {
  }

  lemma InsideSaveStashSave(s: Sys, ok: bool)
    requires Inside(s) && s.pc.StashSave? && Enabled(s, Save(ok))
    ensures Inside(OnSave(s, ok))
  {
  }

  lemma InsideSavePhaseSave(s: Sys, ok: bool)
    requires Inside(s) && s.pc.PhaseSave? && Enabled(s, Save(ok))
    ensures Inside(OnSave(s, ok))
  {
  }

  lemma InsideSaveLastSave(s: Sys, ok: bool)
    requires Inside(s) && s.pc.LastSave? && Enabled(s, Save(ok))
    ensures Inside(OnSave(s, ok))
  {
  }

  lemma InsideSave(s: Sys, ok: bool)
    requires Inside(s) && Enabled(s, Save(ok))
    ensures Inside(OnSave(s, ok))
  {
    match s.pc
    case Idle => InsideSaveIdle(s, ok);
    case DropSave => InsideSaveDropSave(s, ok);
    case ResyncSave => InsideSaveResyncSave(s, ok);
    case StashSave(_, _, _) => InsideSaveStashSave(s, ok);
    case PhaseSave(_, _) => InsideSavePhaseSave(s, ok);
    case LastSave => InsideSaveLastSave(s, ok);
  }

  lemma InsideLook(s: Sys, found: Option<Option<View>>)
    requires Inside(s) && Enabled(s, Look(found))
    ensures Inside(OnLook(s, found))
  {
  }

  lemma InsideGenerate(s: Sys, cred: Option<nat>)
    requires Inside(s) && Enabled(s, Generate(cred))
    ensures Inside(OnGenerate(s, cred))
  {
  }

  lemma InsideApply(s: Sys, outcome: Outcome, changed: bool, sid: Sid, printed: bool)
    requires Inside(s) && Enabled(s, Apply(outcome, changed, sid, printed))
    ensures Inside(OnApply(s, outcome, changed, sid, printed))
  {
  }

  lemma InsideKept(s: Sys, e: Event)
    requires Inside(s) && Enabled(s, e)
    ensures Inside(Next(s, e))
  {
    match e
    case Crash =>
    case Begin(c) => InsideBegin(s, c);
    case Post(reply, effective) => InsidePost(s, reply, effective);
    case Save(ok) => InsideSave(s, ok);
    case Look(found) => InsideLook(s, found);
    case Generate(cred) => InsideGenerate(s, cred);
    case Apply(outcome, changed, sid, printed) => InsideApply(s, outcome, changed, sid, printed);
  }

  // ----- Agreement of the server, the machine and the state file

  ghost predicate InPlace(local: map<string, Account>, user: string, enc: Cipher) {
    enc.Cipher? && user in local && local[user].password == enc.cred
  }

  /** The legacy stash is one the agent would send: readable, named, not older than the last rotation. */
  ghost predicate Sendable(st: State)
    requires st.pending.Some?
  {
    var p := st.pending.value;
    p.enc.Cipher? && p.user != "" && !(st.lastRotation != 0 && st.lastRotation > p.at)
  }

  /** A stash left by an old agent: its password is in place, unless a later rotation was escrowed. */
  ghost predicate LegacyAsPromised(st: State, local: map<string, Account>) {
    IsPhase(st.pending, Legacy) ==>
      && st.current.None?
      && (Sendable(st) ==> InPlace(local, st.pending.value.user, st.pending.value.enc))
  }

  ghost predicate Agrees(st: State, server: Option<Row>, local: map<string, Account>) {
    st.current.Some? && !IsPhase(st.pending, Legacy) ==>
      var c := st.current.value;
      && InPlace(local, c.user, c.enc)
      && (st.pending.None? ==> server == Some(Row(c.user, c.enc)))
  }

  /** The memory as it is outside the window where a stash is about to reach the disk. */
  ghost function Settled(s: Sys): State {
    if s.pc.StashSave? then s.mem.(pending := s.pc.previous) else s.mem
  }

  ghost predicate Coherent(s: Sys) {
    && (Settled(s).pending.Some? ==> s.disk.pending.Some?)
    && (IsPhase(Settled(s).pending, Legacy) ==> s.disk.pending == Settled(s).pending)
    && LegacyAsPromised(Settled(s), s.local)
    && LegacyAsPromised(s.disk, s.local)
    && (!s.lostMem ==> Agrees(Settled(s), s.server, s.local))
    && (!s.lostDisk ==> Agrees(s.disk, s.server, s.local))
  }

  lemma CoherentBegin(s: Sys, c: Cycle)
    requires Inside(s) && Coherent(s) && Enabled(s, Begin(c))
    ensures Coherent(OnBegin(s, c))
  {
  }

  lemma CoherentPostFlushPost(s: Sys, reply: Reply, effective: bool)
    requires Inside(s) && Coherent(s) && s.pc.FlushPost? && Enabled(s, Post(reply, effective))
    ensures Coherent(OnPost(s, reply, effective))
  {
  }

  lemma CoherentPostResyncPost(s: Sys, reply: Reply, effective: bool)
    requires Inside(s) && Coherent(s) && s.pc.ResyncPost? && Enabled(s, Post(reply, effective))
    ensures Coherent(OnPost(s, reply, effective))
  {
  }

  lemma CoherentPostEscrowPost(s: Sys, reply: Reply, effective: bool)
    requires Inside(s) && Coherent(s) && s.pc.EscrowPost? && Enabled(s, Post(reply, effective))
    ensures Coherent(OnPost(s, reply, effective))
  {
  }

  lemma CoherentPostRestorePost(s: Sys, reply: Reply, effective: bool)
    requires Inside(s) && Coherent(s) && s.pc.RestorePost? && Enabled(s, Post(reply, effective))
    ensures Coherent(OnPost(s, reply, effective))
  {
  }

  lemma CoherentPost(s: Sys, reply: Reply, effective: bool)
    requires Inside(s) && Coherent(s) && Enabled(s, Post(reply, effective))
    ensures Coherent(OnPost(s, reply, effective))
  {
    match s.pc
    case FlushPost => CoherentPostFlushPost(s, reply, effective);
    case ResyncPost => CoherentPostResyncPost(s, reply, effective);
    case EscrowPost(_, _) => CoherentPostEscrowPost(s, reply, effective);
    case RestorePost => CoherentPostRestorePost(s, reply, effective);
  }

  lemma CoherentSaveIdle(s: Sys, ok: bool)
    requires Inside(s) && Coherent(s) && s.pc.Idle? && Enabled(s, Save(ok))
    ensures Coherent(OnSave(s, ok))
  {
  }

  lemma CoherentSaveDropSave(s: Sys, ok: bool)
    requires Inside(s) && Coherent(s) && s.pc.DropSave? && Enabled(s, Save(ok))
    ensures Coherent(OnSave(s, ok))
  {
  }

  lemma CoherentSaveResyncSave(s: Sys, ok: bool)
    requires Inside(s) && Coherent(s) && s.pc.ResyncSave? && Enabled(s, Save(ok))
    ensures Coherent(OnSave(s, ok))
  {
  }

  lemma CoherentSaveStashSave(s: Sys, ok: bool)
    requires Inside(s) && Coherent(s) && s.pc.StashSave? && Enabled(s, Save(ok))
    ensures Coherent(OnSave(s, ok))
  {
  }

  lemma CoherentSavePhaseSave(s: Sys, ok: bool)
    requires Inside(s) && Coherent(s) && s.pc.PhaseSave? && Enabled(s, Save(ok))
    ensures Coherent(OnSave(s, ok))
  {
  }

  lemma CoherentSaveLastSave(s: Sys, ok: bool)
    requires Inside(s) && Coherent(s) && s.pc.LastSave? && Enabled(s, Save(ok))
    ensures Coherent(OnSave(s, ok))
  {
  }

  lemma CoherentSave(s: Sys, ok: bool)
    requires Inside(s) && Coherent(s) && Enabled(s, Save(ok))
    ensures Coherent(OnSave(s, ok))
  {
    match s.pc
    case Idle => CoherentSaveIdle(s, ok);
    case DropSave => CoherentSaveDropSave(s, ok);
    case ResyncSave => CoherentSaveResyncSave(s, ok);
    case StashSave(_, _, _) => CoherentSaveStashSave(s, ok);
    case PhaseSave(_, _) => CoherentSavePhaseSave(s, ok);
    case LastSave => CoherentSaveLastSave(s, ok);
  }

  lemma CoherentLook(s: Sys, found: Option<Option<View>>)
    requires Inside(s) && Coherent(s) && Enabled(s, Look(found))
    ensures Coherent(OnLook(s, found))
  {
  }

  lemma CoherentGenerate(s: Sys, cred: Option<nat>)
    requires Inside(s) && Coherent(s) && Enabled(s, Generate(cred))
    ensures Coherent(OnGenerate(s, cred))
  {
  }

  lemma CoherentApply(s: Sys, outcome: Outcome, changed: bool, sid: Sid, printed: bool)
    requires Inside(s) && Coherent(s) && Enabled(s, Apply(outcome, changed, sid, printed))
    ensures Coherent(OnApply(s, outcome, changed, sid, printed))
  {
  }

  lemma CoherentKept(s: Sys, e: Event)
    requires Inside(s) && Coherent(s) && Enabled(s, e)
    ensures Inside(Next(s, e)) && Coherent(Next(s, e))
  {
    InsideKept(s, e);
    match e
    case Crash =>
    case Begin(c) => CoherentBegin(s, c);
    case Post(reply, effective) => CoherentPost(s, reply, effective);
    case Save(ok) => CoherentSave(s, ok);
    case Look(found) => CoherentLook(s, found);
    case Generate(cred) => CoherentGenerate(s, cred);
    case Apply(outcome, changed, sid, printed) => CoherentApply(s, outcome, changed, sid, printed);
  }

  lemma {:induction false} RunKept(s0: Sys, es: seq<Event>)
    requires Inside(s0) && Coherent(s0) && Exec(s0, es).Some?
    ensures Inside(Exec(s0, es).value) && Coherent(Exec(s0, es).value)
  {
    if es != [] {
      RunKept(s0, es[..|es| - 1]);
      CoherentKept(Exec(s0, es[..|es| - 1]).value, es[|es| - 1]);
    }
  }

  // ----- Main result: the server and the machine agree as long as the last change of a password is on record

  ghost predicate Changes(e: Event) {
    e.Apply? && e.changed
  }

  /** The event at i is the last one that changed a password. */
  ghost predicate LastChange(es: seq<Event>, i: nat) {
    i < |es| && Changes(es[i]) && forall k :: i < k < |es| ==> !Changes(es[k])
  }

  ghost predicate Unsaved(es: seq<Event>, i: nat, j: nat) {
    forall k :: i < k < j && k < |es| ==> es[k] != Save(true)
  }

  /** The last change of a password had an uncertain outcome, or the agent crashed before it saved that change. */
  ghost predicate Unrecorded(es: seq<Event>) {
    exists i: nat :: LastChange(es, i) &&
                (es[i].outcome.SetUncertain? || exists j: nat :: i < j < |es| && es[j].Crash? && Unsaved(es, i, j))
  }

  ghost predicate ChangeNotSaved(es: seq<Event>) {
    exists i: nat :: LastChange(es, i) && Unsaved(es, i, |es|)
  }

  /** At rest, with nothing lost so far: the stored state is the one in memory and it agrees with the world. */
  ghost predicate Rested(s: Sys) {
    && s.pc.Idle? && s.mem == s.disk && !s.lostMem && !s.lostDisk
    && LegacyAsPromised(s.mem, s.local) && Agrees(s.mem, s.server, s.local)
  }

  lemma LastChangeAppended(es: seq<Event>, e: Event)
    ensures Changes(e) ==> LastChange(es + [e], |es|) && forall i: nat :: LastChange(es + [e], i) ==> i == |es|
    ensures !Changes(e) ==> forall i: nat :: LastChange(es + [e], i) <==> LastChange(es, i)
  {
    var fs := es + [e];
    assert fs[|es|] == e && forall i: nat :: 0 <= i < |es| ==> fs[i] == es[i];
    if !Changes(e) {
      forall i: nat ensures LastChange(fs, i) <==> LastChange(es, i) {
        if LastChange(fs, i) {
          assert forall k :: i < k < |es| ==> !Changes(fs[k]);
        }
      }
    }
  }

  lemma ChangeAppended(es: seq<Event>, e: Event)
    requires Changes(e)
    ensures ChangeNotSaved(es + [e]) && (Unrecorded(es + [e]) <==> e.outcome.SetUncertain?)
  {
    LastChangeAppended(es, e);
    assert (es + [e])[|es|] == e && Unsaved(es + [e], |es|, |es| + 1);
  }

  lemma UnsavedAppended(es: seq<Event>, e: Event, i: nat, j: nat)
    requires j <= |es|
    ensures Unsaved(es + [e], i, j) <==> Unsaved(es, i, j)
    ensures i < |es| ==> (Unsaved(es + [e], i, |es| + 1) <==> Unsaved(es, i, |es|) && e != Save(true))
  {
    var fs := es + [e];
    assert fs[|es|] == e && forall k :: 0 <= k < |es| ==> fs[k] == es[k];
    assert i < |es| && Unsaved(fs, i, |es| + 1) ==> forall k :: i < k < |es| ==> fs[k] != Save(true);
    assert Unsaved(fs, i, j) ==> forall k :: i < k < j ==> fs[k] != Save(true);
  }

  lemma NotSavedAppended(es: seq<Event>, e: Event)
    requires !Changes(e)
    ensures ChangeNotSaved(es + [e]) <==> ChangeNotSaved(es) && e != Save(true)
  {
    LastChangeAppended(es, e);
    forall i: nat | LastChange(es, i)
      ensures Unsaved(es + [e], i, |es| + 1) <==> Unsaved(es, i, |es|) && e != Save(true)
    {
      UnsavedAppended(es, e, i, |es|);
    }
  }

  lemma UnrecordedAppended(es: seq<Event>, e: Event)
    requires !Changes(e)
    ensures Unrecorded(es + [e]) <==> Unrecorded(es) || (e.Crash? && ChangeNotSaved(es))
  {
    var fs := es + [e];
    LastChangeAppended(es, e);
    assert fs[|es|] == e && forall k: nat :: k < |es| ==> fs[k] == es[k];
    if Unrecorded(fs) {
      var i: nat :| LastChange(fs, i) &&
                    (fs[i].outcome.SetUncertain? || exists j: nat :: i < j < |fs| && fs[j].Crash? && Unsaved(fs, i, j));
      if !fs[i].outcome.SetUncertain? {
        var j: nat :| i < j < |fs| && fs[j].Crash? && Unsaved(fs, i, j);
        UnsavedAppended(es, e, i, j);
      }
    }
    if Unrecorded(es) {
      var i: nat :| LastChange(es, i) &&
                    (es[i].outcome.SetUncertain? || exists j: nat :: i < j < |es| && es[j].Crash? && Unsaved(es, i, j));
      if !es[i].outcome.SetUncertain? {
        var j: nat :| i < j < |es| && es[j].Crash? && Unsaved(es, i, j);
        UnsavedAppended(es, e, i, j);
        assert fs[j].Crash?;
      }
    }
    if e.Crash? && ChangeNotSaved(es) {
      var i: nat :| LastChange(es, i) && Unsaved(es, i, |es|);
      UnsavedAppended(es, e, i, |es|);
      assert fs[|es|].Crash?;
    }
  }

  /** The two flags of the machine say exactly what the events say. */
  lemma {:induction false} LostIffUnrecorded(s0: Sys, es: seq<Event>)
    requires !s0.lostMem && !s0.lostDisk && Exec(s0, es).Some?
    ensures Exec(s0, es).value.lostMem <==> Unrecorded(es)
    ensures Exec(s0, es).value.lostDisk <==> Unrecorded(es) || ChangeNotSaved(es)
  {
    if es != [] {
      var init, e := es[..|es| - 1], es[|es| - 1];
      LostIffUnrecorded(s0, init);
      assert es == init + [e];
      LostStep(Exec(s0, init).value, e);
      if Changes(e) {
        ChangeAppended(init, e);
      } else {
        NotSavedAppended(init, e);
        UnrecordedAppended(init, e);
      }
      hide Unrecorded, ChangeNotSaved, Next, Enabled;
    }
  }

  lemma LostStep(s: Sys, e: Event)
    requires Enabled(s, e)
    ensures Changes(e) ==> Next(s, e).lostDisk && (Next(s, e).lostMem <==> e.outcome.SetUncertain?)
    ensures e == Save(true) ==> Next(s, e).lostDisk == Next(s, e).lostMem == s.lostMem
    ensures e.Crash? ==> Next(s, e).lostDisk == Next(s, e).lostMem == s.lostDisk
    ensures !Changes(e) && e != Save(true) && !e.Crash? ==>
              Next(s, e).lostDisk == s.lostDisk && Next(s, e).lostMem == s.lostMem
  {
    hide Backoff, Manageable;
    if e.Apply? {
      hide OnBegin, OnPost, OnSave, OnLook, OnGenerate;
    } else if e.Post? {
      hide OnBegin, OnSave, OnLook, OnGenerate, OnApply;
    } else {
      hide OnPost, OnApply;
    }
  }

  /**
   * Over every interleaving of crashes, failed saves, lost acknowledgements and earlier failures, as long as the
   * last change of a password is on record: with no stash pending, the row of the server, the password of the
   * account and the recorded password are one and the same.
   */
  lemma ServerAgreesWithMachine(s0: Sys, es: seq<Event>)
    requires Rested(s0) && Exec(s0, es).Some? && !Unrecorded(es)
    requires Exec(s0, es).value.mem.pending.None? && Exec(s0, es).value.mem.current.Some?
    ensures var t := Exec(s0, es).value; var c := t.mem.current.value;
            && t.server == Some(Row(c.user, c.enc))
            && c.enc.Cipher? && c.user in t.local && t.local[c.user].password == c.enc.cred
  {
    RunKept(s0, es);
    LostIffUnrecorded(s0, es);
  }
}
