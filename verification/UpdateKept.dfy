/**
 * Which events of a run the memory still shows, and which the disk: an event is kept unless a crash came
 * before a successful save, and stored once such a save came before any crash.
 */
module UpdateKept {
  import opened Prelude
  import opened UpdateMachine
  import opened UpdateEvents

  datatype Family = Concluding | Failing | Hashing | Disturbing

  /**
   * Concluding: a check-in of the new image that the server accepts, or the end of a rollback. Failing: a
   * check-in of the new image that fails. Hashing: what puts a hash to expect. Disturbing: a rename or
   * removal that takes the backup away.
   */
  predicate Of(f: Family, s: Sys, e: Event) {
    match f
    case Concluding => (e == Checkin(true) && s.book.restarted) || e.Hash?
    case Failing => e == Checkin(false) && s.book.restarted
    case Hashing => Swaps(s, e) || (e.Hash? && e.ok) || (e == Boot(true) && s.disk.baseline == "")
    case Disturbing => e == File(true) && (s.pc.RbPut? || s.pc.UpDrop? || s.pc.UpTake?)
  }

  ghost predicate At(s0: Sys, es: seq<Event>, f: Family, i: nat) {
    i < |es| && Exec(s0, es[..i]).Some? && Of(f, Exec(s0, es[..i]).value, es[i])
  }

  ghost predicate NoCrashAfter(es: seq<Event>, i: nat) {
    forall j: nat :: i < j < |es| ==> !es[j].Crash?
  }

  /** A successful save came after it, and no crash in between. */
  ghost predicate Stored(es: seq<Event>, i: nat) {
    exists k: nat :: i < k < |es| && es[k] == Save(true) && NoCrashAfter(es[..k], i)
  }

  ghost predicate Kept(es: seq<Event>, i: nat) {
    NoCrashAfter(es, i) || Stored(es, i)
  }

  // ----- One more event

  lemma AtAppended(s0: Sys, es: seq<Event>, e: Event, f: Family, i: nat)
    requires Exec(s0, es).Some?
    ensures At(s0, es + [e], f, i) <==> At(s0, es, f, i) || (i == |es| && Of(f, Exec(s0, es).value, e))
    ensures At(s0, es, f, i) ==> i < |es|
  {
    hide Exec, Of;
    assert es[..|es|] == es;
    if i <= |es| {
      Appended(s0, es, e, i);
    }
  }

  lemma CrashAppended(es: seq<Event>, e: Event, i: nat)
    ensures i < |es| ==> (NoCrashAfter(es + [e], i) <==> NoCrashAfter(es, i) && !e.Crash?)
    ensures i >= |es| ==> NoCrashAfter(es + [e], i)
  {
    var fs := es + [e];
    assert fs[|es|] == e && forall k: nat :: k < |es| ==> fs[k] == es[k];
  }

  lemma StoredAppended(es: seq<Event>, e: Event, i: nat)
    ensures Stored(es + [e], i) <==> Stored(es, i) || (i < |es| && NoCrashAfter(es, i) && e == Save(true))
    ensures Stored(es, i) ==> i < |es|
  {
    var fs := es + [e];
    hide NoCrashAfter;
    forall k: nat | k <= |es| ensures fs[..k] == es[..k] {
    }
    assert es[..|es|] == es && fs[|es|] == e;
    if Stored(es, i) {
      var k: nat :| i < k < |es| && es[k] == Save(true) && NoCrashAfter(es[..k], i);
      assert fs[k] == Save(true) && NoCrashAfter(fs[..k], i);
    } else if i < |es| && NoCrashAfter(es, i) && e == Save(true) {
      assert fs[|es|] == Save(true) && NoCrashAfter(fs[..|es|], i);
    }
  }

  /** A crash leaves what is stored, and a successful save stores what is kept. */
  lemma KeptAppended(es: seq<Event>, e: Event, i: nat)
    requires i < |es|
    ensures Kept(es + [e], i) <==> if e.Crash? then Stored(es, i) else Kept(es, i)
    ensures Stored(es + [e], i) <==> if e == Save(true) then Kept(es, i) else Stored(es, i)
  {
    CrashAppended(es, e, i);
    StoredAppended(es, e, i);
    hide NoCrashAfter, Stored;
  }

  lemma KeptLast(es: seq<Event>, e: Event)
    ensures Kept(es + [e], |es|) && !Stored(es + [e], |es|)
  {
    CrashAppended(es, e, |es|);
    StoredAppended(es, e, |es|);
    hide NoCrashAfter, Stored;
  }

  // ----- The events of a family that memory and disk show, after the one at w

  ghost function InMemory(s0: Sys, es: seq<Event>, f: Family, w: int): (r: set<nat>)
    ensures forall i :: i in r ==> i < |es|
  {
    set i: nat | i < |es| && w < i && At(s0, es, f, i) && Kept(es, i)
  }

  ghost function OnDisk(s0: Sys, es: seq<Event>, f: Family, w: int): (r: set<nat>)
    ensures forall i :: i in r ==> i < |es|
  {
    set i: nat | i < |es| && w < i && At(s0, es, f, i) && Stored(es, i)
  }

  lemma SetsAppended(s0: Sys, es: seq<Event>, e: Event, f: Family, w: int)
    requires Exec(s0, es).Some? && w < |es|
    ensures InMemory(s0, es + [e], f, w) ==
            (if e.Crash? then OnDisk(s0, es, f, w) else InMemory(s0, es, f, w))
            + (if Of(f, Exec(s0, es).value, e) then {|es|} else {})
    ensures OnDisk(s0, es + [e], f, w) == if e == Save(true) then InMemory(s0, es, f, w) else OnDisk(s0, es, f, w)
  {
    hide Exec, Of, At, Kept, Stored;
    KeptLast(es, e);
    forall i: nat
      ensures At(s0, es + [e], f, i) <==> At(s0, es, f, i) || (i == |es| && Of(f, Exec(s0, es).value, e))
      ensures At(s0, es, f, i) ==> i < |es|
    {
      AtAppended(s0, es, e, f, i);
    }
    forall i: nat | i < |es|
      ensures Kept(es + [e], i) <==> if e.Crash? then Stored(es, i) else Kept(es, i)
      ensures Stored(es + [e], i) <==> if e == Save(true) then Kept(es, i) else Stored(es, i)
    {
      KeptAppended(es, e, i);
    }
  }

  lemma NothingYet(s0: Sys, es: seq<Event>, f: Family, w: int)
    requires |es| <= w + 1
    ensures InMemory(s0, es, f, w) == {} && OnDisk(s0, es, f, w) == {}
  {
  }

  // ----- The save of the event at w itself

  ghost predicate SavedSince(es: seq<Event>, w: nat) {
    exists k: nat :: w < k < |es| && es[k] == Save(true)
  }

  /** The process ended after w before any save succeeded: what w did to the memory is gone. */
  ghost predicate CrashFirst(es: seq<Event>, w: nat) {
    exists j: nat :: w < j < |es| && es[j].Crash? && !SavedSince(es[..j], w)
  }

  lemma SavedSinceAppended(es: seq<Event>, e: Event, w: nat)
    requires w < |es|
    ensures SavedSince(es + [e], w) <==> SavedSince(es, w) || e == Save(true)
  {
    var fs := es + [e];
    assert fs[|es|] == e && forall k: nat :: k < |es| ==> fs[k] == es[k];
  }

  lemma CrashFirstAppended(es: seq<Event>, e: Event, w: nat)
    requires w < |es|
    ensures CrashFirst(es + [e], w) <==> CrashFirst(es, w) || (e.Crash? && !SavedSince(es, w))
  {
    hide SavedSince;
    var fs := es + [e];
    assert fs[|es|] == e && fs[..|es|] == es;
    forall k: nat | k < |es| ensures fs[..k] == es[..k] && fs[k] == es[k] {
    }
    if CrashFirst(es, w) {
      var j: nat :| w < j < |es| && es[j].Crash? && !SavedSince(es[..j], w);
      assert fs[j].Crash? && !SavedSince(fs[..j], w);
    } else if e.Crash? && !SavedSince(es, w) {
      assert fs[|es|].Crash? && !SavedSince(fs[..|es|], w);
    }
  }

  /** The event at w is the last swap. */
  ghost predicate LastSwap(s0: Sys, es: seq<Event>, w: nat) {
    SwapAt(s0, es, w) && forall k: nat :: w < k ==> !SwapAt(s0, es, k)
  }

  lemma LastSwapBefore(s0: Sys, es: seq<Event>, e: Event, w: nat)
    requires Exec(s0, es).Some? && LastSwap(s0, es + [e], w)
    ensures w < |es| ==> LastSwap(s0, es, w) && !Swaps(Exec(s0, es).value, e)
    ensures w >= |es| ==> w == |es| && Swaps(Exec(s0, es).value, e)
  {
    hide Exec, Swaps;
    TouchAppended(s0, es, e, w);
    TouchAppended(s0, es, e, |es|);
    SwapBefore(s0, es, w);
    forall k: nat | w < k ensures w < |es| ==> !SwapAt(s0, es, k) {
      TouchAppended(s0, es, e, k);
    }
    hide SwapAt;
  }
}
