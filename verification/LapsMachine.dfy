/**
 * The rotation of the local administrator password as a transition system.
 *
 * One step per external effect: a POST of an escrowed password, a save of the state
 * file, a look at the local account, the generation of a password, its application.
 * What the agent does in memory between two effects belongs to the step before, since a
 * crash (memory := disk) may come after every step.
 */
module LapsMachine {
  import opened Prelude

  // Instants and durations in seconds. The instant 0 is the zero time of the state file.
  const ROTATION_INTERVAL := 2592000
  const BACKOFF_BASE := 900
  const BACKOFF_MAX := 86400

  const ACCOUNT_DESCRIPTION := "Opale recovery account (LAPS-rotated)"
  const BANNED_NAMES := ["administrator", "administrateur", "admin", "root", "system"]

  /** An escrowed password: encryption and base64 are injective, so a ciphertext is its password. */
  datatype Cipher = Cipher(cred: nat) | Unreadable

  datatype Phase = Legacy | Prepared | Escrowed
  datatype Stash = Stash(user: string, enc: Cipher, at: nat, phase: Phase)
  datatype Record = Record(user: string, enc: Cipher, at: nat)

  /** A SID of the form S-1-5-21-machine-RID, or any other text. */
  datatype Sid = LocalSid(machine: string, rid: nat) | OtherSid(text: string)
  datatype Account = Account(sid: Sid, description: string, password: nat)
  /** What a look at an account shows of it. */
  datatype View = View(sid: Sid, description: string)

  /** The part of state.json the rotation reads and writes. */
  datatype State = State(
    pending: Option<Stash>,
    current: Option<Record>,
    lastRotation: nat,
    managed: seq<Sid>,
    failures: int,
    retryAfter: nat)

  /** The single escrow row the server keeps for this machine. */
  datatype Row = Row(user: string, enc: Cipher)

  /** Inputs of one cycle; accounts is false where no local account store exists. */
  datatype Cycle = Cycle(now: nat, user: string, accounts: bool)

  datatype Reply = Accepted | Refused(permanent: bool)
  datatype Outcome = SetOk | SetUnchanged | SetPartial | SetUncertain

  datatype PC =
    | Idle
    | FlushPost
    | DropSave
    | ResyncPost
    | ResyncSave
    | Looking
    | Generating(acct: Option<View>)
    | StashSave(acct: Option<View>, cred: nat, previous: Option<Stash>)
    | EscrowPost(acct: Option<View>, cred: nat)
    | PhaseSave(acct: Option<View>, cred: nat)
    | Applying(acct: Option<View>, cred: nat)
    | RestorePost
    | LastSave

  /** A Save at Idle is one of the check-in cycle, which writes the same file between two rotations. */
  datatype Event =
    | Crash
    | Begin(cycle: Cycle)
    | Post(reply: Reply, effective: bool)
    | Save(ok: bool)
    | Look(found: Option<Option<View>>)
    | Generate(cred: Option<nat>)
    | Apply(outcome: Outcome, changed: bool, sid: Sid, printed: bool)

  /**
   * Memory, disk, server and machine. applied and accepted are the passwords ever handed
   * to the machine and ever accepted by the server. lostMem (lostDisk) says that a password
   * was changed by an attempt that the memory (the disk) has no record of.
   */
  datatype Sys = Sys(
    pc: PC,
    cycle: Cycle,
    mem: State,
    disk: State,
    server: Option<Row>,
    local: map<string, Account>,
    applied: set<nat>,
    accepted: set<nat>,
    lostMem: bool,
    lostDisk: bool,
    posts: nat,
    done: bool)

  function Pow2(n: nat): (r: nat)
    ensures r >= 1
  {
    if n == 0 then 1 else 2 * Pow2(n - 1)
  }

  function Backoff(failures: int): nat {
    if failures <= 1 then BACKOFF_BASE
    else if BACKOFF_BASE * Pow2(failures - 1) >= BACKOFF_MAX then BACKOFF_MAX
    else BACKOFF_BASE * Pow2(failures - 1)
  }

  predicate Manageable(user: string, acct: Option<View>, managed: seq<Sid>) {
    && Lower(Trim(user)) !in BANNED_NAMES
    && (acct.Some? ==>
          && acct.value.sid.LocalSid?
          && acct.value.sid.rid >= 1000
          && (|| acct.value.sid in managed
              || (Trim(ACCOUNT_DESCRIPTION) != "" && Trim(acct.value.description) == Trim(ACCOUNT_DESCRIPTION))))
  }

  function RecordSid(managed: seq<Sid>, sid: Sid): seq<Sid> {
    if sid in managed then managed else managed + [sid]
  }

  function Fail(st: State, now: nat): State {
    st.(failures := st.failures + 1, retryAfter := now + Backoff(st.failures + 1))
  }

  predicate Gated(st: State, now: nat) {
    0 < st.retryAfter - now <= BACKOFF_MAX
  }

  predicate Due(st: State, now: nat, force: bool) {
    force || st.lastRotation == 0 || now - st.lastRotation >= ROTATION_INTERVAL
  }

  predicate CanRestore(st: State) {
    st.current.Some? && st.current.value.enc.Cipher?
  }

  function Failed(s: Sys): Sys {
    s.(mem := Fail(s.mem, s.cycle.now), pc := LastSave)
  }

  /** The rotation proper starts: nothing to do without an account name. */
  function StartRotation(s: Sys): Sys {
    if s.cycle.user == "" then Failed(s) else s.(pc := Looking)
  }

  /** After the legacy stash: is a rotation interrupted or due? */
  function Decide(s: Sys, force: bool): Sys {
    if !s.cycle.accounts then s.(pc := Idle)
    else if s.mem.pending.None? && !Due(s.mem, s.cycle.now, force) then s.(pc := Idle)
    else if s.mem.pending.Some? && s.mem.pending.value.phase.Prepared? && CanRestore(s.mem) then s.(pc := ResyncPost)
    else StartRotation(s)
  }

  function OnBegin(s0: Sys, c: Cycle): Sys {
    var s := s0.(cycle := c, posts := 0, done := false);
    if Gated(s.mem, c.now) then s
    else if s.mem.pending.Some? && s.mem.pending.value.phase.Legacy? then
      var p := s.mem.pending.value;
      if s.mem.lastRotation != 0 && s.mem.lastRotation > p.at then s.(mem := s.mem.(pending := None), pc := LastSave)
      else if p.enc.Unreadable? || p.user == "" then s.(mem := s.mem.(pending := None), pc := DropSave)
      else s.(pc := FlushPost)
    else Decide(s, false)
  }

  /** The row a POST carries, where the agent is about to send one. */
  function Target(s: Sys): Option<Row> {
    match s.pc
    case FlushPost => if s.mem.pending.Some? then Some(Row(s.mem.pending.value.user, s.mem.pending.value.enc)) else None
    case EscrowPost(_, cred) => Some(Row(s.cycle.user, Cipher(cred)))
    case ResyncPost =>
      if s.mem.current.Some? then Some(Row(s.mem.current.value.user, s.mem.current.value.enc)) else None
    case RestorePost =>
      if s.mem.current.Some? then Some(Row(s.mem.current.value.user, s.mem.current.value.enc)) else None
    case _ => None
  }

  function AfterPost(s: Sys, reply: Reply): Sys {
    match s.pc
    case FlushPost =>
      if reply.Accepted? && s.mem.pending.Some? then
        var p := s.mem.pending.value;
        s.(mem := s.mem.(current := Some(Record(p.user, p.enc, s.cycle.now)), lastRotation := s.cycle.now,
                         pending := None, failures := 0, retryAfter := 0),
           done := true, pc := LastSave)
      else if reply == Refused(true) then s.(mem := s.mem.(pending := None), pc := DropSave)
      else Failed(s)
    case ResyncPost =>
      if reply.Accepted? then s.(mem := s.mem.(pending := None), pc := ResyncSave) else StartRotation(s)
    case EscrowPost(acct, cred) =>
      if reply.Accepted? && s.mem.pending.Some? then
        s.(mem := s.mem.(pending := Some(s.mem.pending.value.(phase := Escrowed))), pc := PhaseSave(acct, cred))
      else Failed(s)
    case RestorePost =>
      if reply.Accepted? then Failed(s.(mem := s.mem.(pending := None))) else Failed(s)
    case _ => s
  }

  function OnPost(s: Sys, reply: Reply, effective: bool): Sys {
    var row := Target(s);
    AfterPost(s.(server := if effective then row else s.server,
                 accepted := if reply.Accepted? && row.Some? && row.value.enc.Cipher?
                             then s.accepted + {row.value.enc.cred} else s.accepted,
                 posts := s.posts + 1),
              reply)
  }

  function AfterSave(s: Sys, ok: bool): Sys {
    match s.pc
    case DropSave => Decide(s, true)
    case ResyncSave => StartRotation(s)
    case StashSave(acct, cred, previous) =>
      if ok then s.(pc := EscrowPost(acct, cred))
      else s.(mem := Fail(s.mem.(pending := previous), s.cycle.now), pc := Idle)
    case PhaseSave(acct, cred) =>
      if ok then s.(pc := Applying(acct, cred))
      else if s.mem.pending.Some? then
        var t := s.(mem := s.mem.(pending := Some(s.mem.pending.value.(phase := Prepared))));
        if CanRestore(t.mem) then t.(pc := RestorePost) else Failed(t)
      else s
    case _ => s.(pc := Idle)
  }

  function OnSave(s: Sys, ok: bool): Sys {
    AfterSave(if ok then s.(disk := s.mem, lostDisk := s.lostMem) else s, ok)
  }

  function OnLook(s: Sys, found: Option<Option<View>>): Sys {
    if found.None? || !Manageable(s.cycle.user, found.value, s.mem.managed) then Failed(s)
    else s.(pc := Generating(found.value))
  }

  function OnGenerate(s: Sys, cred: Option<nat>): Sys {
    if cred.None? || !s.pc.Generating? then Failed(s)
    else s.(mem := s.mem.(pending := Some(Stash(s.cycle.user, Cipher(cred.value), s.cycle.now, Prepared))),
            pc := StashSave(s.pc.acct, cred.value, s.mem.pending))
  }

  /** The local accounts after the password of the cycle's account was changed (account created if absent). */
  function Changed(s: Sys, sid: Sid, cred: nat): map<string, Account> {
    if s.cycle.user in s.local then s.local[s.cycle.user := s.local[s.cycle.user].(password := cred)]
    else s.local[s.cycle.user := Account(sid, ACCOUNT_DESCRIPTION, cred)]
  }

  function Managed(s: Sys, sid: Sid, printed: bool): seq<Sid> {
    if printed then RecordSid(s.mem.managed, sid)
    else if s.pc.Applying? && s.pc.acct.Some? then RecordSid(s.mem.managed, s.pc.acct.value.sid)
    else s.mem.managed
  }

  function OnApply(s: Sys, outcome: Outcome, changed: bool, sid: Sid, printed: bool): Sys
    requires s.pc.Applying?
  {
    var cred := s.pc.cred;
    var now := s.cycle.now;
    var t := s.(local := if changed then Changed(s, sid, cred) else s.local,
                applied := s.applied + {cred},
                lostDisk := changed || s.lostDisk,
                lostMem := if changed then outcome.SetUncertain? else s.lostMem);
    var settled := s.mem.(current := Some(Record(s.cycle.user, Cipher(cred), now)), pending := None,
                          managed := Managed(s, sid, printed));
    match outcome
    case SetOk =>
      t.(mem := settled.(lastRotation := now, failures := 0, retryAfter := 0), done := true, pc := LastSave)
    case SetPartial => Failed(t.(mem := settled))
    case SetUnchanged => if CanRestore(s.mem) then t.(pc := RestorePost) else Failed(t)
    case SetUncertain => Failed(t)
  }

  /** The meaning of the four outcomes; the script behind them keeps it (module LapsScript). */
  predicate OutcomeSound(outcome: Outcome, changed: bool) {
    match outcome
    case SetOk => changed
    case SetPartial => changed
    case SetUnchanged => !changed
    case SetUncertain => true
  }

  /** An update touches the account that was looked at; a creation gets a new SID. */
  predicate ChangePossible(s: Sys, acct: Option<View>, sid: Sid) {
    match acct
    case Some(v) => s.cycle.user in s.local && s.local[s.cycle.user].sid == v.sid == sid
    case None => s.cycle.user !in s.local && forall u :: u in s.local ==> s.local[u].sid != sid
  }

  predicate Enabled(s: Sys, e: Event) {
    match e
    case Crash => true
    case Begin(_) => s.pc.Idle?
    case Post(reply, effective) => Target(s).Some? && (reply.Accepted? ==> effective)
    case Save(_) =>
      s.pc.Idle? || s.pc.DropSave? || s.pc.ResyncSave? || s.pc.StashSave? || s.pc.PhaseSave? || s.pc.LastSave?
    case Look(found) =>
      s.pc.Looking? &&
      (found.Some? ==>
         if s.cycle.user in s.local
         then found.value == Some(View(s.local[s.cycle.user].sid, s.local[s.cycle.user].description))
         else found.value == None)
    case Generate(cred) => s.pc.Generating? && (cred.Some? ==> cred.value !in s.applied)
    case Apply(outcome, changed, sid, printed) =>
      && s.pc.Applying?
      && OutcomeSound(outcome, changed)
      && (changed ==> ChangePossible(s, s.pc.acct, sid))
  }

  function Next(s: Sys, e: Event): Sys
    requires Enabled(s, e)
  {
    match e
    case Crash => s.(pc := Idle, mem := s.disk, lostMem := s.lostDisk, posts := 0, done := false)
    case Begin(c) => OnBegin(s, c)
    case Post(reply, effective) => OnPost(s, reply, effective)
    case Save(ok) => OnSave(s, ok)
    case Look(found) => OnLook(s, found)
    case Generate(cred) => OnGenerate(s, cred)
    case Apply(outcome, changed, sid, printed) => OnApply(s, outcome, changed, sid, printed)
  }

  /** The state after the events es, if they can happen one after the other from s. */
  function Exec(s: Sys, es: seq<Event>): Option<Sys> {
    if es == [] then Some(s)
    else match Exec(s, es[..|es| - 1])
      case None => None
      case Some(t) => if Enabled(t, es[|es| - 1]) then Some(Next(t, es[|es| - 1])) else None
  }
}
