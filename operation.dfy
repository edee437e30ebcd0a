/** `ServiceRow._perform_service_operation`: the command line a start or stop
    request runs, and how the finished command is classified into a success flag
    and an error message. */
module Operation {
  import opened Host

  datatype Action = Start | Stop {
    function Verb(): string {
      match this
      case Start => "start"
      case Stop => "stop"
    }
  }

  /** `on_switch_activated`: the requested switch state picks the action. */
  function ActionFor(state: bool): (a: Action)
    ensures a == Start <==> state
    ensures a.Verb() == (if state then "start" else "stop")
  {
    if state then Start else Stop
  }

  /** The action a command-line verb names, if any. */
  function ActionNamed(verb: string): (a: Option<Action>)
    ensures a.Some? <==> verb == "start" || verb == "stop"
    ensures a.Some? ==> a.value.Verb() == verb
  {
    if verb == "start" then Some(Start) else if verb == "stop" then Some(Stop) else None
  }

  /** The command of one start or stop request: PM2's own command for
      "shinobi", `systemctl` behind `pkexec` for every other service. */
  function OperationCommand(name: string, action: Action): (inv: Invocation)
    ensures inv.timeoutSecs == 30
    ensures name == Shinobi ==> inv.argv == ["pm2", action.Verb(), name]
    ensures name != Shinobi ==> inv.argv == ["pkexec", "systemctl", action.Verb(), name]
  {
    match BackendOf(name)
    case Pm2 => Invocation(["pm2", action.Verb(), name], 30)
    case Systemd => Invocation(["pkexec", "systemctl", action.Verb(), name], 30)
  }

  /** Reads a single-service control command back into its service and action. */
  function CommandTarget(argv: seq<string>): (t: Option<(string, Action)>)
    ensures t.Some? ==> |argv| >= 3 && argv[|argv| - 1] == t.value.0
    ensures t.Some? ==> argv[|argv| - 2] == t.value.1.Verb()
  {
    if |argv| == 3 && argv[0] == "pm2" && argv[2] == Shinobi && argv[1] in {"start", "stop"} then
      Some((argv[2], if argv[1] == "start" then Start else Stop))
    else if |argv| == 4 && argv[0] == "pkexec" && argv[1] == "systemctl" && argv[3] != Shinobi
            && argv[2] in {"start", "stop"} then
      Some((argv[3], if argv[2] == "start" then Start else Stop))
    else None
  }

  /** The command line names exactly the service and the action it was built
      from, so no two requests share a command. */
  lemma OperationCommandRoundTrip(name: string, action: Action)
    ensures CommandTarget(OperationCommand(name, action).argv) == Some((name, action))
  {
  }

  const CancelledMsg: string := "Operación cancelada por el usuario"
  const TimeoutMsg: string := "La operación tardó demasiado tiempo"

  /** `(success, error_msg)` as handed to `_operation_completed`. */
  datatype Outcome = Outcome(success: bool, errorMsg: Option<string>)

  /** The `try`/`except` of `_perform_service_operation`: nothing escapes it, and
      every failure carries a message. */
  function Classify(r: CmdResult): (o: Outcome)
    ensures o.success <==> r.Ran? && r.returncode == 0
    ensures o.success <==> o.errorMsg.None?
    ensures r.Ran? && r.returncode != 0 ==>
              o.errorMsg == Some(if r.stderr != "" then r.stderr else CancelledMsg)
    ensures r.Timeout? ==> o.errorMsg == Some(TimeoutMsg)
    ensures r.Exc? ==> o.errorMsg == Some(r.msg)
  {
    match r
    case Ran(code, _, err) =>
      if code == 0 then Outcome(true, None)
      else Outcome(false, Some(if err != "" then err else CancelledMsg))
    case Timeout => Outcome(false, Some(TimeoutMsg))
    case Exc(msg) => Outcome(false, Some(msg))
  }

  /** A tool that refuses (nonzero exit) always yields a non-empty message: its
      own diagnostics, or the cancellation text when it printed none. */
  lemma RejectionHasMessage(code: int, out: string, err: string)
    requires code != 0
    ensures Classify(Ran(code, out, err)).errorMsg.Some?
    ensures Classify(Ran(code, out, err)).errorMsg.value != ""
  {
  }

  /** Delay, in milliseconds, of the extra `_verify_operation` probe scheduled
      after a successful command. */
  const VerifyDelayMs: nat := 1000

  /** What one run of `_perform_service_operation` produces: the command it ran,
      the outcome it posts to the main loop, and the delay of the verification
      probe it schedules, if any. */
  datatype Performed = Performed(command: Invocation, outcome: Outcome, verifyAfterMs: Option<nat>)

  /** `_perform_service_operation`; `run` says what a command line answers on
      the host, and `desiredState` is received but never read. */
  function PerformOperation(name: string, action: Action, desiredState: bool, run: Invocation -> CmdResult)
    : (p: Performed)
    ensures p.command == OperationCommand(name, action)
    ensures CommandTarget(p.command.argv) == Some((name, action))
    ensures p.outcome == Classify(run(p.command))
    ensures p.outcome.success <==> run(p.command).Ran? && run(p.command).returncode == 0
    ensures p.verifyAfterMs.Some? <==> p.outcome.success
    ensures p.verifyAfterMs.Some? ==> p.verifyAfterMs.value == VerifyDelayMs
  {
    var command := OperationCommand(name, action);
    var outcome := Classify(run(command));
    Performed(command, outcome, if outcome.success then Some(VerifyDelayMs) else None)
  }

  /** A command that exits with status 0 is a success, reported without a
      message and followed by the verification probe, whatever it printed. */
  lemma SuccessfulOperation(name: string, action: Action, desiredState: bool, run: Invocation -> CmdResult,
                            out: string, err: string)
    requires run(OperationCommand(name, action)) == Ran(0, out, err)
    ensures PerformOperation(name, action, desiredState, run).outcome == Outcome(true, None)
    ensures PerformOperation(name, action, desiredState, run).verifyAfterMs == Some(VerifyDelayMs)
  {
  }

  /** The requested switch state has no influence on what is run or reported. */
  lemma DesiredStateUnused(name: string, action: Action, run: Invocation -> CmdResult)
    ensures PerformOperation(name, action, true, run) == PerformOperation(name, action, false, run)
  {
  }
}
