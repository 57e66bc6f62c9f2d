/**
 * The delivery of results as a transition system. A result is known by its serial number,
 * its place in the order of production. Requests may be lost, may be handled by the server
 * while their answer is lost, and may be handled late, even after the agent restarted. A start that cannot
 * read state.json goes on with an empty queue, and leaves the file as it is until its first save.
 */
module Delivery {
  import opened Prelude

  /**
   * mem and disk: the queue in memory and in state.json. wire: the batches sent so far.
   * awaiting: the batch whose answer is awaited. server: every result the server accepted.
   * saved: every result that was ever on disk. next: the next serial number.
   */
  datatype Sys = Sys(
    mem: seq<nat>,
    disk: seq<nat>,
    wire: set<seq<nat>>,
    awaiting: Option<seq<nat>>,
    server: set<nat>,
    saved: set<nat>,
    next: nat)

  /** Crash: the end of the process; read: does the next one read state.json? */
  datatype Event =
    | Produce
    | Save(ok: bool)
    | Send(n: nat)
    | Arrive(batch: seq<nat>)
    | Answer(accepted: bool)
    | Crash(read: bool)

  function Elements(s: seq<nat>): set<nat> {
    set x | x in s
  }

  predicate Enabled(s: Sys, e: Event) {
    match e
    case Produce => true
    case Save(_) => true
    case Send(n) => s.awaiting.None? && n <= |s.mem|
    case Arrive(batch) => batch in s.wire
    case Answer(accepted) => s.awaiting.Some? && (accepted ==> Elements(s.awaiting.value) <= s.server)
    case Crash(_) => true
  }

  /** An accepted answer removes as many results as were sent, from the head of the queue as it is by then. */
  function DropPrefix(q: seq<nat>, n: nat): seq<nat> {
    if n >= |q| then [] else q[n..]
  }

  function Next(s: Sys, e: Event): Sys
    requires Enabled(s, e)
  {
    match e
    case Produce => s.(mem := s.mem + [s.next], next := s.next + 1)
    case Save(ok) => if ok then s.(disk := s.mem, saved := s.saved + Elements(s.mem)) else s
    case Send(n) => s.(wire := s.wire + {s.mem[..n]}, awaiting := Some(s.mem[..n]))
    case Arrive(batch) => s.(server := s.server + Elements(batch))
    case Answer(accepted) =>
      s.(mem := if accepted then DropPrefix(s.mem, |s.awaiting.value|) else s.mem, awaiting := None)
    case Crash(read) => s.(mem := if read then s.disk else [], awaiting := None)
  }

  function Exec(s: Sys, es: seq<Event>): Option<Sys> {
    if es == [] then Some(s)
    else match Exec(s, es[..|es| - 1])
      case None => None
      case Some(t) => if Enabled(t, es[|es| - 1]) then Some(Next(t, es[|es| - 1])) else None
  }

  // ----- Invariant

  ghost predicate Increasing(q: seq<nat>) {
    forall i, j :: 0 <= i < j < |q| ==> q[i] < q[j]
  }

  /** A waiting result older than one of the batch is in the batch, or with the server already. */
  ghost predicate NothingOvertaken(batch: seq<nat>, waiting: seq<nat>, server: set<nat>) {
    forall x, y :: y in batch && x in waiting && x < y ==> x in batch || x in server
  }

  /** What holds whatever the starts can read. */
  ghost predicate Queued(s: Sys) {
    && Increasing(s.mem) && Increasing(s.disk)
    && (forall x :: x in s.mem ==> x < s.next)
    && (forall x :: x in s.disk ==> x < s.next)
    && (s.awaiting.Some? ==> s.awaiting.value in s.wire && s.awaiting.value <= s.mem)
  }

  /** What holds besides as long as every start could read state.json. */
  ghost predicate Faithful(s: Sys) {
    && Queued(s)
    && (forall x :: x in s.saved ==> x < s.next)
    && (forall x :: x in s.disk ==> x in s.saved)
    && (forall x :: x in s.disk ==> x in s.mem || x in s.server)
    && (forall x :: x in s.saved ==> x in s.server || (x in s.mem && x in s.disk))
    && (forall b, y :: b in s.wire && y in b ==> y < s.next)
    && (forall b :: b in s.wire ==> NothingOvertaken(b, s.mem, s.server) && NothingOvertaken(b, s.disk, s.server))
    && (forall x, y :: x in s.saved && y in s.server && x < y ==> x in s.server)
    && (forall x, y :: x in s.mem && y in s.server && x < y ==> x in s.server)
    && (forall y :: y in s.server ==> y < s.next)
  }

  ghost predicate Started(s: Sys) {
    s.mem == s.disk == [] && s.wire == {} && s.awaiting.None? && s.server == {} && s.saved == {}
  }

  lemma SendKept(s: Sys, n: nat)
    requires Faithful(s) && Enabled(s, Send(n))
    ensures Faithful(Next(s, Send(n)))
  {
    var b := s.mem[..n];
    forall y | y in b ensures y in s.mem {
    }
    forall x, y | y in b && x in s.mem && x < y ensures x in b {
      var i :| 0 <= i < |s.mem| && s.mem[i] == x;
      var j :| 0 <= j < n && s.mem[j] == y;
      assert i < j && b[i] == x;
    }
    assert NothingOvertaken(b, s.mem, s.server) && NothingOvertaken(b, s.disk, s.server);
  }

  lemma ArriveKept(s: Sys, b: seq<nat>)
    requires Faithful(s) && b in s.wire
    ensures Faithful(Next(s, Arrive(b)))
  {
    var t := Next(s, Arrive(b));
    assert NothingOvertaken(b, s.mem, s.server);
    forall x, y | x in t.saved && y in t.server && x < y ensures x in t.server {
      if y !in s.server && x !in s.server {
        assert y in b && x in s.mem;
      }
    }
    forall c | c in t.wire ensures NothingOvertaken(c, t.mem, t.server) && NothingOvertaken(c, t.disk, t.server) {
      assert NothingOvertaken(c, s.mem, s.server) && NothingOvertaken(c, s.disk, s.server);
    }
  }

  /** A queue cut in two. */
  lemma CutQueue(q: seq<nat>, n: nat)
    requires n <= |q| && Increasing(q)
    ensures Increasing(q[n..]) && forall x :: x in q <==> x in q[..n] || x in q[n..]
  {
    assert q == q[..n] + q[n..];
  }

  lemma AnswerKept(s: Sys)
    requires Faithful(s) && Enabled(s, Answer(true))
    ensures Faithful(Next(s, Answer(true)))
  {
    var n := |s.awaiting.value|;
    var rest := s.mem[n..];
    assert s.awaiting.value == s.mem[..n] && DropPrefix(s.mem, n) == rest;
    CutQueue(s.mem, n);
    forall x | x in s.mem ensures x in rest || x in s.server {
      assert x in s.awaiting.value ==> x in Elements(s.awaiting.value);
    }
    forall b | b in s.wire ensures NothingOvertaken(b, rest, s.server) {
      assert NothingOvertaken(b, s.mem, s.server);
    }
  }

  lemma ProduceKept(s: Sys)
    requires Faithful(s)
    ensures Faithful(Next(s, Produce))
  {
    var q := s.mem + [s.next];
    assert forall i :: 0 <= i < |s.mem| ==> q[i] == s.mem[i] && s.mem[i] in s.mem;
    forall b | b in s.wire ensures NothingOvertaken(b, q, s.server) {
      assert NothingOvertaken(b, s.mem, s.server);
    }
  }

  lemma FaithfulKept(s: Sys, e: Event)
    requires Faithful(s) && Enabled(s, e) && e != Crash(false)
    ensures Faithful(Next(s, e))
  {
    match e
    case Produce => ProduceKept(s);
    case Save(ok) =>
    case Send(n) => SendKept(s, n);
    case Arrive(b) => ArriveKept(s, b);
    case Answer(accepted) =>
      if accepted {
        AnswerKept(s);
      }
    case Crash(_) =>
  }

  lemma QueuedKept(s: Sys, e: Event)
    requires Queued(s) && Enabled(s, e)
    ensures Queued(Next(s, e))
  {
    if e == Answer(true) {
      CutQueue(s.mem, |s.awaiting.value|);
    } else if e.Produce? {
      assert forall i :: 0 <= i < |s.mem| ==> s.mem[i] in s.mem;
    }
  }

  // ----- Over whole runs

  lemma {:induction false} RunQueued(s0: Sys, es: seq<Event>)
    requires Started(s0) && Exec(s0, es).Some?
    ensures Queued(Exec(s0, es).value)
  {
    if es != [] {
      RunQueued(s0, es[..|es| - 1]);
      QueuedKept(Exec(s0, es[..|es| - 1]).value, es[|es| - 1]);
    }
  }

  /** Every start could read state.json. */
  ghost predicate AllRead(es: seq<Event>) {
    Crash(false) !in es
  }

  lemma {:induction false} RunFaithful(s0: Sys, es: seq<Event>)
    requires Started(s0) && Exec(s0, es).Some? && AllRead(es)
    ensures Faithful(Exec(s0, es).value)
  {
    if es != [] {
      RunFaithful(s0, es[..|es| - 1]);
      FaithfulKept(Exec(s0, es[..|es| - 1]).value, es[|es| - 1]);
    }
  }

  /** No saved result is lost while every start reads the file: the server has it, or memory and disk both do. */
  lemma SavedNeverLost(s0: Sys, es: seq<Event>, x: nat)
    requires Started(s0) && Exec(s0, es).Some? && AllRead(es) && x in Exec(s0, es).value.saved
    ensures var t := Exec(s0, es).value; x in t.server || (x in t.mem && x in t.disk)
  {
    RunFaithful(s0, es);
  }

  /** At every moment the saved results the server has are the first ones: none is accepted before an older one. */
  lemma AcceptedInOrder(s0: Sys, es: seq<Event>, x: nat, y: nat)
    requires Started(s0) && Exec(s0, es).Some? && AllRead(es)
    requires var t := Exec(s0, es).value; x in t.saved && y in t.server && x < y
    ensures x in Exec(s0, es).value.server
  {
    RunFaithful(s0, es);
  }

  // ----- Starts that cannot read the file

  ghost predicate NoReread(es: seq<Event>, i: nat) {
    forall k: nat :: i < k < |es| ==> es[k] != Crash(true)
  }

  /** After a start that could not read the file, a save came before the next one that could. */
  ghost predicate Overwritten(es: seq<Event>) {
    exists i: nat, k: nat :: i < k < |es| && es[i] == Crash(false) && es[k] == Save(true) && NoReread(es[..k], i)
  }

  /** Or no start since then has read it again. */
  ghost predicate Forgotten(es: seq<Event>) {
    Overwritten(es) || exists i: nat :: i < |es| && es[i] == Crash(false) && NoReread(es, i)
  }

  lemma ForgottenAppended(es: seq<Event>, e: Event)
    ensures Overwritten(es + [e]) <==> Overwritten(es) || (e == Save(true) && Forgotten(es))
    ensures Forgotten(es + [e]) <==>
              if e == Crash(false) then true else if e == Crash(true) then Overwritten(es) else Forgotten(es)
  {
    OverwrittenAppended(es, e);
    var fs := es + [e];
    assert fs[|es|] == e && forall k: nat :: k < |es| ==> fs[k] == es[k];
    assert forall i: nat :: i < |es| ==> (NoReread(fs, i) <==> NoReread(es, i) && e != Crash(true));
    hide Overwritten;
    if e == Crash(false) {
      assert NoReread(fs, |es|);
    } else if exists i: nat :: i < |es| && es[i] == Crash(false) && NoReread(es, i) {
      var i: nat :| i < |es| && es[i] == Crash(false) && NoReread(es, i);
      assert e != Crash(true) ==> fs[i] == Crash(false) && NoReread(fs, i);
    }
  }

  lemma OverwrittenAppended(es: seq<Event>, e: Event)
    ensures Overwritten(es + [e]) <==>
              Overwritten(es)
              || (e == Save(true) && exists i: nat :: i < |es| && es[i] == Crash(false) && NoReread(es, i))
  {
    var fs := es + [e];
    hide NoReread;
    assert fs[|es|] == e && fs[..|es|] == es;
    forall k: nat | k < |es| ensures fs[..k] == es[..k] && fs[k] == es[k] {
    }
    if Overwritten(es) {
      var i: nat, k: nat :|
        i < k < |es| && es[i] == Crash(false) && es[k] == Save(true) && NoReread(es[..k], i);
      assert fs[i] == Crash(false) && fs[k] == Save(true) && NoReread(fs[..k], i);
    }
    if e == Save(true) && exists i: nat :: i < |es| && es[i] == Crash(false) && NoReread(es, i) {
      var i: nat :| i < |es| && es[i] == Crash(false) && NoReread(es, i);
      assert fs[i] == Crash(false) && fs[|es|] == Save(true) && NoReread(fs[..|es|], i);
    }
  }

  /** Where a saved result waits, unless the server has it. */
  ghost predicate Waits(s: Sys, x: nat, forgotten: bool, overwritten: bool) {
    x < s.next && (x in s.server || ((x in s.mem <==> !forgotten) && (x in s.disk <==> !overwritten)))
  }

  lemma WaitsKept(s: Sys, e: Event, x: nat, forgotten: bool, overwritten: bool)
    requires Queued(s) && Enabled(s, e) && Waits(s, x, forgotten, overwritten)
    ensures Waits(Next(s, e), x,
                  if e == Crash(false) then true else if e == Crash(true) then overwritten else forgotten,
                  if e == Save(true) then forgotten else overwritten)
  {
    if e == Answer(true) {
      var n := |s.awaiting.value|;
      CutQueue(s.mem, n);
      assert x in s.awaiting.value ==> x in Elements(s.awaiting.value);
    }
  }

  lemma {:induction false} RunWaits(s: Sys, es: seq<Event>, x: nat)
    requires Queued(s) && Exec(s, es).Some? && Waits(s, x, false, false)
    ensures Queued(Exec(s, es).value) && Waits(Exec(s, es).value, x, Forgotten(es), Overwritten(es))
  {
    if es == [] {
      assert !Overwritten(es) && !Forgotten(es);
    } else {
      var init, e := es[..|es| - 1], es[|es| - 1];
      RunWaits(s, init, x);
      var t := Exec(s, init).value;
      WaitsKept(t, e, x, Forgotten(init), Overwritten(init));
      QueuedKept(t, e);
      ForgottenAppended(init, e);
      assert es == init + [e];
      hide Forgotten, Overwritten, Waits, Queued, Next, Enabled;
    }
  }

  /**
   * The fate of a result in memory at a save, exactly: after any further run, the server has it, or memory
   * has it exactly if no start that could not read the file made the agent forget it, and the disk exactly if
   * no save overwrote it after such a start.
   */
  lemma SavedWaitsIff(s0: Sys, es: seq<Event>, fs: seq<Event>, x: nat)
    requires Started(s0) && Exec(s0, es).Some? && x in Exec(s0, es).value.mem
    requires Exec(s0, es + [Save(true)] + fs).Some?
    ensures var t := Exec(s0, es + [Save(true)] + fs).value;
            x in t.server || ((x in t.mem <==> !Forgotten(fs)) && (x in t.disk <==> !Overwritten(fs)))
  {
    var gs := es + [Save(true)];
    RunQueued(s0, es);
    assert gs[..|gs| - 1] == es;
    var s := Next(Exec(s0, es).value, Save(true));
    assert Exec(s0, gs) == Some(s);
    ExecAppend(s0, gs, fs);
    QueuedKept(Exec(s0, es).value, Save(true));
    RunWaits(s, fs, x);
    hide Exec, Forgotten, Overwritten, Queued;
  }

  /** It can happen: a result on disk, a start that cannot read it, and a save. */
  lemma UnreadIsLost(s0: Sys) returns (es: seq<Event>, t: Sys)
    requires Started(s0)
    ensures Exec(s0, es) == Some(t) && s0.next in t.saved
    ensures s0.next !in t.server && s0.next !in t.mem && s0.next !in t.disk
  {
    var s1 := Next(s0, Produce);
    var s2 := Next(s1, Save(true));
    var s3 := Next(s2, Crash(false));
    t := Next(s3, Save(true));
    es := [Produce, Save(true), Crash(false), Save(true)];
    assert es[..3] == [Produce, Save(true), Crash(false)] && es[..3][..2] == [Produce, Save(true)];
    assert es[..3][..2][..1] == [Produce] && [Produce][..0] == [];
    assert Exec(s0, [Produce]) == Some(s1) && Exec(s0, es[..3][..2]) == Some(s2) && Exec(s0, es[..3]) == Some(s3);
  }

  /** An acknowledgement removes exactly the batch that was sent, although results were queued since. */
  lemma AckRemovesWhatWasSent(s0: Sys, es: seq<Event>)
    requires Started(s0) && Exec(s0, es).Some? && Enabled(Exec(s0, es).value, Answer(true))
    ensures var s := Exec(s0, es).value; var t := Next(s, Answer(true));
            s.mem == s.awaiting.value + t.mem && forall x :: x in s.awaiting.value ==> x in s.server
  {
    RunQueued(s0, es);
    var s := Exec(s0, es).value;
    forall x | x in s.awaiting.value ensures x in s.server {
      assert x in Elements(s.awaiting.value);
    }
  }

  // ----- Draining

  /** How many requests were accepted, and how many results were produced. */
  function Acks(es: seq<Event>): nat {
    if es == [] then 0 else Acks(es[..|es| - 1]) + (if es[|es| - 1] == Answer(true) then 1 else 0)
  }

  function Produced(es: seq<Event>): nat {
    if es == [] then 0 else Produced(es[..|es| - 1]) + (if es[|es| - 1].Produce? then 1 else 0)
  }

  /** No request is empty and the agent does not restart. */
  ghost predicate Steady(es: seq<Event>) {
    forall e :: e in es ==> !e.Crash? && (e.Send? ==> e.n >= 1)
  }

  lemma {:induction false} ExecAppend(s: Sys, es: seq<Event>, fs: seq<Event>)
    requires Exec(s, es).Some?
    ensures Exec(s, es + fs) == Exec(Exec(s, es).value, fs)
  {
    if fs == [] {
      assert es + fs == es;
    } else {
      ExecAppend(s, es, fs[..|fs| - 1]);
      assert (es + fs)[..|es + fs| - 1] == es + fs[..|fs| - 1];
    }
  }

  /** The queue and the request in flight after a run that began between two requests. */
  ghost predicate Shrunk(s: Sys, es: seq<Event>, t: Sys) {
    && |t.mem| + Acks(es) <= |s.mem| + Produced(es)
    && (t.awaiting.Some? ==> t.awaiting.value != [])
  }

  /** In every run between restarts, each accepted request takes at least one result off the queue. */
  lemma {:induction false} EachAckShortens(s0: Sys, es: seq<Event>, fs: seq<Event>)
    requires Started(s0) && Exec(s0, es).Some? && Exec(s0, es).value.awaiting.None?
    requires Exec(s0, es + fs).Some? && Steady(fs)
    ensures Shrunk(Exec(s0, es).value, fs, Exec(s0, es + fs).value)
  {
    var s := Exec(s0, es).value;
    if fs == [] {
      assert es + fs == es;
    } else {
      var gs, e := fs[..|fs| - 1], fs[|fs| - 1];
      assert (es + fs)[..|es + fs| - 1] == es + gs;
      EachAckShortens(s0, es, gs);
      var u := Exec(s0, es + gs).value;
      RunQueued(s0, es + gs);
      assert e in fs;
      hide Exec;
    }
  }

  /** Check-ins accepted one after the other, each sending the head that pick chooses. */
  function Rounds(q: seq<nat>, pick: seq<nat> -> nat): seq<Event>
    decreases |q|
  {
    var n := pick(q);
    if q == [] || n == 0 || n > |q| then []
    else [Send(n), Arrive(q[..n]), Answer(true)] + Rounds(q[n..], pick)
  }

  lemma OneRound(s: Sys, n: nat) returns (t: Sys)
    requires s.awaiting.None? && 1 <= n <= |s.mem|
    ensures Exec(s, [Send(n), Arrive(s.mem[..n]), Answer(true)]) == Some(t)
    ensures t.awaiting.None? && t.mem == s.mem[n..] && t.server == s.server + Elements(s.mem[..n])
  {
    var b := s.mem[..n];
    var s1 := Next(s, Send(n));
    var s2 := Next(s1, Arrive(b));
    t := Next(s2, Answer(true));
    assert [Send(n)][..0] == [] && [Send(n), Arrive(b)][..1] == [Send(n)];
    assert [Send(n), Arrive(b), Answer(true)][..2] == [Send(n), Arrive(b)];
    assert Exec(s, [Send(n)]) == Some(s1);
    assert Exec(s, [Send(n), Arrive(b)]) == Some(s2);
  }

  lemma RoundsFirst(q: seq<nat>, n: nat, pick: seq<nat> -> nat)
    requires n == pick(q) && 1 <= n <= |q|
    ensures Rounds(q, pick) == [Send(n), Arrive(q[..n]), Answer(true)] + Rounds(q[n..], pick)
  {
  }

  lemma CutElements(q: seq<nat>, n: nat)
    requires n <= |q|
    ensures forall x :: x in q ==> x in Elements(q[..n]) || x in q[n..]
  {
    assert q == q[..n] + q[n..];
  }

  lemma {:induction false} RoundsDrain(s: Sys, pick: seq<nat> -> nat) returns (t: Sys)
    requires s.awaiting.None? && forall q :: q != [] ==> 1 <= pick(q) <= |q|
    ensures Exec(s, Rounds(s.mem, pick)) == Some(t) && t.mem == [] && |Rounds(s.mem, pick)| <= 3 * |s.mem|
    ensures forall x :: x in s.mem || x in s.server ==> x in t.server
    decreases |s.mem|
  {
    if s.mem == [] {
      t := s;
    } else {
      hide Exec, Rounds, Elements;
      var n := pick(s.mem);
      var u := OneRound(s, n);
      t := RoundsDrain(u, pick);
      RoundsFirst(s.mem, n, pick);
      ExecAppend(s, [Send(n), Arrive(s.mem[..n]), Answer(true)], Rounds(u.mem, pick));
      CutElements(s.mem, n);
    }
  }

  /**
   * From any reachable state between two requests, accepted check-ins that each send the non-empty head of
   * the queue empty it, in as many rounds as there are results at most, and the server then has them all.
   */
  lemma QueueDrains(s0: Sys, es: seq<Event>, pick: seq<nat> -> nat) returns (t: Sys)
    requires Started(s0) && Exec(s0, es).Some? && Exec(s0, es).value.awaiting.None?
    requires forall q :: q != [] ==> 1 <= pick(q) <= |q|
    ensures var q := Exec(s0, es).value.mem;
            && Exec(s0, es + Rounds(q, pick)) == Some(t) && |Rounds(q, pick)| <= 3 * |q|
            && t.mem == [] && (forall x :: x in q ==> x in t.server)
    ensures AllRead(es) ==> forall x :: x in Exec(s0, es).value.saved ==> x in t.server
  {
    var s := Exec(s0, es).value;
    if AllRead(es) {
      RunFaithful(s0, es);
    }
    t := RoundsDrain(s, pick);
    ExecAppend(s0, es, Rounds(s.mem, pick));
  }
}
