/**
 * The registry of console sessions under any interleaving of its goroutines: the reader of the
 * WebSocket, which opens and closes sessions and finally closes them all, and one pump per
 * session, which removes its session when the shell ends. A step is a critical section of the
 * mutex, or an effect outside it.
 */
module ConsoleMachine {
  import opened Prelude

  type Id = string

  /** A pseudo-terminal is named by its rank of creation; so is its pump. */
  datatype Thread = Reader | Pump(pty: nat)

  /** What removeSession returns to: the next frame, the rest of closeAll, or the end of a pump. */
  datatype Cont = Serve | Finish(rest: seq<Id>) | Stop

  datatype Local =
    | Ready
    | Checked(id: Id)
    | Spawned(id: Id, pty: nat)
    | Starting(pty: nat)
    | Ending(rest: seq<Id>)
    | Done
    | Reading
    | Gone
    | Removing(id: Id, k: Cont)
    | Holding(pty: nat, k: Cont)

  datatype Cause = ByPump(pump: nat) | ByFrame(id: Id) | ByCloseAll

  /**
   * ids: the id each pseudo-terminal was spawned for; closed counts the closings; ended is bookkeeping:
   * who took a session out.
   */
  datatype Sys = Sys(
    sessions: map<Id, nat>,
    ids: seq<Id>,
    threads: map<Thread, Local>,
    closed: multiset<nat>,
    ended: map<nat, Cause>)

  datatype Event =
    | OpenFrame(id: Id)
    | Spawn(ok: bool)
    | Register
    | Start
    | CloseFrame(id: Id)
    | Hangup(ids: seq<Id>)
    | Proceed
    | Eof(pty: nat)
    | WriteFailure(pty: nat)
    | Take(t: Thread)
    | Close(t: Thread)

  function Actor(e: Event): Thread {
    match e
    case Eof(p) => Pump(p)
    case WriteFailure(p) => Pump(p)
    case Take(t) => t
    case Close(t) => t
    case _ => Reader
  }

  predicate NoDup(ids: seq<Id>) {
    forall i, j :: 0 <= i < j < |ids| ==> ids[i] != ids[j]
  }

  function Keys(ids: seq<Id>): set<Id> {
    set id | id in ids
  }

  predicate Enabled(s: Sys, e: Event) {
    Actor(e) in s.threads && var l := s.threads[Actor(e)];
    match e
    case OpenFrame(_) => l.Ready?
    case Spawn(_) => l.Checked?
    case Register => l.Spawned?
    case Start => l.Starting?
    case CloseFrame(_) => l.Ready?
    case Hangup(ids) => l.Ready? && NoDup(ids) && Keys(ids) == s.sessions.Keys
    case Proceed => l.Ending?
    case Eof(p) => l.Reading? && p < |s.ids|
    case WriteFailure(_) => l.Reading?
    case Take(_) => l.Removing?
    case Close(_) => l.Holding?
  }

  function Go(s: Sys, t: Thread, l: Local): Sys {
    s.(threads := s.threads[t := l])
  }

  function After(k: Cont): Local {
    match k
    case Serve => Ready
    case Finish(rest) => Ending(rest)
    case Stop => Gone
  }

  function CauseOf(t: Thread, id: Id, k: Cont): Cause {
    match t
    case Pump(p) => ByPump(p)
    case Reader => if k.Serve? then ByFrame(id) else ByCloseAll
  }

  /** The locked part of removeSession: whatever session has that id now leaves the map. */
  function OnTake(s: Sys, t: Thread, id: Id, k: Cont): Sys {
    if id in s.sessions then
      var p := s.sessions[id];
      Go(s.(sessions := s.sessions - {id}, ended := s.ended[p := CauseOf(t, id, k)]), t, Holding(p, k))
    else Go(s, t, After(k))
  }

  function OnClose(s: Sys, t: Thread, p: nat, k: Cont): Sys {
    Go(s.(closed := s.closed + multiset{p}), t, After(k))
  }

  function Next(s: Sys, e: Event): Sys
    requires Enabled(s, e)
  {
    var l := s.threads[Actor(e)];
    match e
    case OpenFrame(id) => if id in s.sessions then s else Go(s, Reader, Checked(id))
    case Spawn(ok) => if ok then Go(s.(ids := s.ids + [l.id]), Reader, Spawned(l.id, |s.ids|)) else Go(s, Reader, Ready)
    case Register => Go(s.(sessions := s.sessions[l.id := l.pty]), Reader, Starting(l.pty))
    case Start => Go(Go(s, Pump(l.pty), Reading), Reader, Ready)
    case CloseFrame(id) => Go(s, Reader, Removing(id, Serve))
    case Hangup(ids) => Go(s, Reader, Ending(ids))
    case Proceed => Go(s, Reader, if l.rest == [] then Done else Removing(l.rest[0], Finish(l.rest[1..])))
    case Eof(p) => Go(s, Pump(p), Removing(s.ids[p], Stop))
    case WriteFailure(p) => Go(s, Pump(p), Gone)
    case Take(t) => OnTake(s, t, l.id, l.k)
    case Close(t) => OnClose(s, t, l.pty, l.k)
  }

  function Exec(s: Sys, es: seq<Event>): Option<Sys> {
    if es == [] then Some(s)
    else match Exec(s, es[..|es| - 1])
      case None => None
      case Some(t) => if Enabled(t, es[|es| - 1]) then Some(Next(t, es[|es| - 1])) else None
  }

  /** A manager as it is created with the connection. */
  function Connected(): Sys {
    Sys(map[], [], map[Reader := Ready], multiset{}, map[])
  }
}
