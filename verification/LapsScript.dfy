/**
 * The script that applies a password, and what its end tells the rotation. Every command
 * may succeed or fail, and the script may be killed or break down between two commands.
 */
module LapsScript {
  import opened Prelude
  import opened LapsMachine

  const EXIT_OK := 0
  const EXIT_BROKEN := 1
  const EXIT_REFUSED := 10
  const EXIT_SET_FAILED := 11
  const EXIT_CHANGED_PARTIAL := 12

  /** create: no account is expected; update: the account of that SID; otherwise the mode is unknown. */
  datatype Mode = Create | Update(expected: Sid) | Unknown

  /** Where the script stops if it is stopped from outside or by an error nothing catches. */
  datatype Point = AtStart | BeforeSet | AfterSet | AfterSid | Never

  /**
   * What the machine answers to the script: whether it starts, where it is cut and whether
   * by the timeout, the account it finds, and which commands succeed. A command that sets
   * a password and fails leaves the account as it was.
   */
  datatype Machine = Machine(
    started: bool, cut: Point, timedOut: bool,
    findFails: bool, existing: Option<Sid>,
    setWorks: bool, enabled: bool, memberAdded: bool, memberExists: bool)

  /** A process status, and (what the agent cannot see) whether the password changed. */
  datatype End = End(started: bool, exitCode: int, timedOut: bool, changed: bool)

  function Cut(m: Machine, changed: bool): End {
    End(true, if m.timedOut then -1 else EXIT_BROKEN, m.timedOut, changed)
  }

  function Exit(code: int, changed: bool): End {
    End(true, code, false, changed)
  }

  /** The script, command by command. */
  function Script(mode: Mode, m: Machine): End {
    if !m.started then End(false, -1, false, false)
    else if m.cut.AtStart? then Cut(m, false)
    else if m.findFails then Exit(EXIT_REFUSED, false)
    else if m.cut.BeforeSet? then Cut(m, false)
    else match mode
      case Create =>
        if m.existing.Some? then Exit(EXIT_REFUSED, false)
        else if !m.setWorks then Exit(EXIT_SET_FAILED, false)
        else AfterPassword(m)
      case Update(expected) =>
        if m.existing.None? then Exit(EXIT_REFUSED, false)
        else if m.existing.value != expected then Exit(EXIT_REFUSED, false)
        else if !m.setWorks then Exit(EXIT_SET_FAILED, false)
        else AfterPassword(m)
      case Unknown => Exit(EXIT_REFUSED, false)
  }

  function AfterPassword(m: Machine): End {
    if m.cut.AfterSet? || m.cut.AfterSid? then Cut(m, true)
    else if !m.enabled then Exit(EXIT_CHANGED_PARTIAL, true)
    else if !m.memberAdded && !m.memberExists then Exit(EXIT_CHANGED_PARTIAL, true)
    else Exit(EXIT_OK, true)
  }

  function Classify(started: bool, exitCode: int, timedOut: bool): Outcome {
    if !started then SetUnchanged
    else if timedOut then SetUncertain
    else if exitCode == EXIT_OK then SetOk
    else if exitCode == EXIT_REFUSED || exitCode == EXIT_SET_FAILED then SetUnchanged
    else if exitCode == EXIT_CHANGED_PARTIAL then SetPartial
    else SetUncertain
  }

  function Reported(mode: Mode, m: Machine): Outcome {
    var e := Script(mode, m);
    Classify(e.started, e.exitCode, e.timedOut)
  }

  /** The outcome reported is one the rotation's step relation allows, for every machine. */
  lemma OutcomeRefinesMachine(mode: Mode, m: Machine)
    ensures OutcomeSound(Reported(mode, m), Script(mode, m).changed)
  {
  }

  ghost predicate Happens(outcome: Outcome, changed: bool) {
    exists mode, m :: Reported(mode, m) == outcome && Script(mode, m).changed == changed
  }

  /** The step relation allows exactly what some script on some machine does: no less, and no more. */
  lemma OutcomesAreExact(outcome: Outcome, changed: bool)
    ensures OutcomeSound(outcome, changed) <==> Happens(outcome, changed)
  {
    if Happens(outcome, changed) {
      var mode, m :| Reported(mode, m) == outcome && Script(mode, m).changed == changed;
      OutcomeRefinesMachine(mode, m);
    }
    if OutcomeSound(outcome, changed) {
      var cut := if !outcome.SetUncertain? then Never else if changed then AfterSet else AtStart;
      var m := Machine(true, cut, true, false, None, !outcome.SetUnchanged?, outcome.SetOk?, true, false);
      assert Reported(Create, m) == outcome && Script(Create, m).changed == changed;
    }
  }

  /** A password only changes on the account the mode names: no account before, or the one of that SID. */
  lemma ChangeHitsExpectedAccount(mode: Mode, m: Machine)
    requires Script(mode, m).changed
    ensures match mode
            case Create => m.existing.None?
            case Update(expected) => m.existing == Some(expected)
            case Unknown => false
  {
  }

  /** Uncertain is said only of a script that was cut; whether the password changed is a matter of where. */
  lemma UncertainOnlyWhenCut(mode: Mode, m: Machine)
    ensures Reported(mode, m).SetUncertain? ==>
              m.started && !m.cut.Never? && (Script(mode, m).changed <==> m.cut.AfterSet? || m.cut.AfterSid?)
  {
  }

  /** Success means the whole job: password set, account enabled, account in the administrators' group. */
  lemma OkMeansAdministrator(mode: Mode, m: Machine)
    ensures Reported(mode, m).SetOk? <==>
              && m.started && m.cut.Never? && !m.findFails && m.setWorks && m.enabled
                 && (m.memberAdded || m.memberExists)
              && (match mode
                  case Create => m.existing.None?
                  case Update(x) => m.existing == Some(x)
                  case Unknown => false)
  {
  }
}
