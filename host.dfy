/** Values exchanged with the host: what an external command answered, and the
    command lines the panel asks the host to run. */
module Host {

  datatype Option<+T> = None | Some(value: T)

  /** The outcome of one `subprocess.run` call: the process ran and exited with
      `returncode` (no caller of this core ever asks for a nonzero code to
      raise), the call raised `TimeoutExpired`, or it raised any other
      exception, whose string form is `msg`. */
  datatype CmdResult =
    | Ran(returncode: int, stdout: string, stderr: string)
    | Timeout
    | Exc(msg: string)
  {
    /** True when the call raised instead of returning a completed process. */
    predicate Raised() { !Ran? }
  }

  /** An argument vector and the timeout, in seconds, it is run with. */
  datatype Invocation = Invocation(argv: seq<string>, timeoutSecs: nat)

  /** Which control tool manages a service. */
  datatype Backend = Systemd | Pm2

  /** The one service that lives under PM2 rather than systemd. */
  const Shinobi: string := "shinobi"

  /** Every branch of the panel that picks a tool compares the name with "shinobi". */
  function BackendOf(name: string): (b: Backend)
    ensures b == Pm2 <==> name == Shinobi
  {
    if name == Shinobi then Pm2 else Systemd
  }
}
