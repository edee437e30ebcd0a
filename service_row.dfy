/** `ServiceRow`: one configured service's row, with the `is_operating` flag
    that keeps at most one start or stop request in flight. The asynchronous
    flow of the panel is cut into the sequential steps the main loop runs: a
    toggle, the completion callback, and the status probes. */
module Row {
  import opened Host
  import opened ServiceValidator
  import opened Operation
  import PyStr

  /** The mutable part of a row (plus its fixed existence flag): whether an
      operation is in flight, the switch's state and sensitivity, and the last
      status probed (None before the first probe). */
  datatype RowState = RowState(
    serviceExists: bool,
    isOperating: bool,
    switchActive: bool,
    switchSensitive: bool,
    lastStatus: Option<Status>)

  /** The switch is greyed out exactly while an operation is in flight. */
  predicate Consistent(st: RowState) {
    st.isOperating == !st.switchSensitive
  }

  /** `check_status`: nothing happens for a service that is not installed;
      otherwise the switch is set to whether the probe answered "active". */
  function ProbeStep(st: RowState, status: Status): (r: RowState)
    ensures !st.serviceExists ==> r == st
    ensures st.serviceExists ==> r.switchActive == (status.Text() == "active")
    ensures st.serviceExists ==> r.lastStatus == Some(status)
    ensures r.serviceExists == st.serviceExists && r.isOperating == st.isOperating
    ensures r.switchSensitive == st.switchSensitive
  {
    if !st.serviceExists then st
    else st.(switchActive := status == Active, lastStatus := Some(status))
  }

  /** A freshly built row: idle, switch off, probed once if the service exists. */
  function InitialState(serviceExists: bool, status: Status): (r: RowState)
    ensures Consistent(r) && !r.isOperating
    ensures r.serviceExists == serviceExists
    ensures serviceExists ==> r.lastStatus == Some(status) && r.switchActive == (status == Active)
    ensures !serviceExists ==> r.lastStatus == None && !r.switchActive
  {
    ProbeStep(RowState(serviceExists, false, false, true, None), status)
  }

  /** What `on_switch_activated` does: the new row state, the operation it
      started (if any), and its return value, which stops GTK from moving the
      switch itself. */
  datatype Toggled = Toggled(next: RowState, dispatched: Option<Action>, handled: bool)

  function ToggleStep(st: RowState, state: bool): (t: Toggled)
    ensures t.handled
    ensures st.isOperating ==> t.next == st && t.dispatched == None
    ensures !st.isOperating ==> t.dispatched == Some(ActionFor(state))
    ensures !st.isOperating ==> t.next == st.(isOperating := true, switchSensitive := false)
    ensures t.next.switchActive == st.switchActive && t.next.lastStatus == st.lastStatus
  {
    if st.isOperating then Toggled(st, None, true)
    else Toggled(st.(isOperating := true, switchSensitive := false), Some(ActionFor(state)), true)
  }

  /** `_operation_completed`, success or not: the flag is cleared first, then
      the row is probed, so the switch ends up showing what the probe saw. */
  function CompleteStep(st: RowState, status: Status): (r: RowState)
    ensures !r.isOperating && r.switchSensitive
    ensures r.serviceExists == st.serviceExists
    ensures st.serviceExists ==> r.switchActive == (status == Active) && r.lastStatus == Some(status)
    ensures !st.serviceExists ==> r.switchActive == st.switchActive && r.lastStatus == st.lastStatus
  {
    ProbeStep(st.(isOperating := false, switchSensitive := true), status)
  }

  /** One row's part of `auto_refresh`: busy rows are skipped. */
  function PollStep(st: RowState, status: Status): (r: RowState)
    ensures st.isOperating ==> r == st
    ensures !st.isOperating ==> r == ProbeStep(st, status)
  {
    if st.isOperating then st else ProbeStep(st, status)
  }

  // ---------------------------------------------------------------------------
  // Traces of main-loop events for one row

  /** The main-loop callbacks that touch a row: a user toggle, the completion of
      the operation in flight, an unconditional probe (`refresh_all`, or the
      delayed `_verify_operation`), and a poll from `auto_refresh`. Each probe
      event carries the status the probe answered. */
  datatype Event =
    | UserToggle(state: bool)
    | OperationDone(status: Status)
    | Refresh(status: Status)
    | Tick(status: Status)

  function Step(st: RowState, e: Event): RowState {
    match e
    case UserToggle(state) => ToggleStep(st, state).next
    case OperationDone(status) => CompleteStep(st, status)
    case Refresh(status) => ProbeStep(st, status)
    case Tick(status) => PollStep(st, status)
  }

  /** The row state after a trace of events. */
  function Run(st: RowState, es: seq<Event>): RowState
    decreases |es|
  {
    if es == [] then st else Run(Step(st, es[0]), es[1..])
  }

  /** The operation an event starts, if any: only an accepted toggle starts one. */
  function Dispatched(st: RowState, e: Event): Option<Action> {
    if e.UserToggle? then ToggleStep(st, e.state).dispatched else None
  }

  /** How many operations the trace starts. */
  function Dispatches(st: RowState, es: seq<Event>): nat
    decreases |es|
  {
    if es == [] then 0
    else (if Dispatched(st, es[0]).Some? then 1 else 0) + Dispatches(Step(st, es[0]), es[1..])
  }

  /** How many completions the trace delivers. */
  function Completions(es: seq<Event>): nat {
    if es == [] then 0 else (if es[0].OperationDone? then 1 else 0) + Completions(es[1..])
  }

  /** A completion is delivered only for an operation in flight, as it comes
      from the worker that the accepted toggle started. */
  predicate Delivered(st: RowState, es: seq<Event>)
    decreases |es|
  {
    es == [] || ((es[0].OperationDone? ==> st.isOperating) && Delivered(Step(st, es[0]), es[1..]))
  }

  /** At most one operation is ever in flight: the operations started so far,
      plus the one in flight at the start, are the completions delivered plus
      the one still in flight at the end (0 or 1 each). */
  lemma {:induction false} AtMostOneInFlight(st: RowState, es: seq<Event>)
    requires Delivered(st, es)
    ensures Dispatches(st, es) + (if st.isOperating then 1 else 0)
         == Completions(es) + (if Run(st, es).isOperating then 1 else 0)
    decreases |es|
  {
    if es != [] {
      AtMostOneInFlight(Step(st, es[0]), es[1..]);
    }
  }

  /** Every step keeps the switch greyed out exactly while busy. */
  lemma {:induction false} ConsistentAlongRun(st: RowState, es: seq<Event>)
    requires Consistent(st)
    ensures Consistent(Run(st, es))
    decreases |es|
  {
    if es != [] {
      var e := es[0];
      assert Consistent(Step(st, e)) by {
        match e
        case UserToggle(state) =>
        case OperationDone(status) =>
        case Refresh(status) =>
        case Tick(status) =>
      }
      ConsistentAlongRun(Step(st, e), es[1..]);
    }
  }

  /** Only a completion clears the busy flag: without one, a busy row stays busy
      and no further operation is started. */
  lemma {:induction false} BusyUntilCompletion(st: RowState, es: seq<Event>)
    requires st.isOperating
    requires Completions(es) == 0
    ensures Run(st, es).isOperating
    ensures Dispatches(st, es) == 0
    decreases |es|
  {
    if es != [] {
      assert !es[0].OperationDone?;
      BusyUntilCompletion(Step(st, es[0]), es[1..]);
    }
  }

  /** Every toggle in the trace with its requested state replaced by `false`. */
  function WithoutDesire(es: seq<Event>): (r: seq<Event>)
    ensures |r| == |es|
  {
    if es == [] then []
    else [if es[0].UserToggle? then UserToggle(false) else es[0]] + WithoutDesire(es[1..])
  }

  /** The requested state is never trusted: the row ends in the same state
      whatever states the toggles asked for, so the switch only ever shows
      what a probe answered. */
  lemma {:induction false} DesireNeverTrusted(st: RowState, es: seq<Event>)
    ensures Run(st, es) == Run(st, WithoutDesire(es))
    decreases |es|
  {
    if es != [] {
      var w := WithoutDesire(es);
      assert w[0] == (if es[0].UserToggle? then UserToggle(false) else es[0]);
      assert w[1..] == WithoutDesire(es[1..]);
      assert Step(st, w[0]) == Step(st, es[0]);
      DesireNeverTrusted(Step(st, es[0]), es[1..]);
    }
  }

  /** A row whose service is not installed never changes what it shows. */
  lemma {:induction false} MissingServiceShowsNothing(st: RowState, es: seq<Event>)
    requires !st.serviceExists
    ensures !Run(st, es).serviceExists
    ensures Run(st, es).switchActive == st.switchActive
    ensures Run(st, es).lastStatus == st.lastStatus
    decreases |es|
  {
    if es != [] {
      MissingServiceShowsNothing(Step(st, es[0]), es[1..]);
    }
  }

  /** What a systemd row's probe reads from `systemctl is-active` printing a
      state followed by whitespace (its newline). */
  lemma {:induction false} ProbedSystemdState(name: string, host: HostView, code: int, st: Status, post: string, err: string)
    requires name != Shinobi
    requires st == Active || st == Inactive || st == Failed
    requires PyStr.AllSpace(post)
    requires host.run(IsActiveProbe(name)) == Ran(code, st.Text() + post, err)
    ensures ServiceStatus(name, host) == st
  {
    SystemdPaddedAnswer(code, [], st, post, err);
    assert [] + st.Text() + post == st.Text() + post;
  }

  /** `systemctl is-active docker` printing "inactive" and its newline makes the
      docker row's status Inactive. */
  lemma DockerInactiveProbe(host: HostView)
    requires host.run(IsActiveProbe("docker")) == Ran(3, "inactive\n", "")
    ensures ServiceStatus("docker", host) == Inactive
  {
    ProbedSystemdState("docker", host, 3, Inactive, "\n", "");
  }

  /** Starting docker runs `pkexec systemctl start docker`; exit status 0 makes
      it a success. */
  lemma DockerStartRuns(run: Invocation -> CmdResult)
    requires run(OperationCommand("docker", Start)) == Ran(0, "", "")
    ensures PerformOperation("docker", Start, true, run).outcome == Outcome(true, None)
    ensures PerformOperation("docker", Start, true, run).command.argv == ["pkexec", "systemctl", "start", "docker"]
  {
    SuccessfulOperation("docker", Start, true, run, "", "");
  }

  /** Scenario: an idle "docker" row whose probe says inactive (as
      `DockerInactiveProbe` derives from `systemctl is-active` printing
      "inactive\n") is switched on; the command succeeds and, on the host as it
      is afterwards, the probe says active. The row ends idle with its switch
      value set to on, and exactly one `pkexec systemctl start docker` ran. */
  lemma DockerStartScenario(before: HostView, after: HostView)
    requires ServiceStatus("docker", before) == Inactive
    requires before.run(OperationCommand("docker", Start)) == Ran(0, "", "")
    requires ServiceStatus("docker", after) == Active
    ensures var st0 := InitialState(true, ServiceStatus("docker", before));
            var t := ToggleStep(st0, true);
            && !st0.switchActive
            && t.dispatched == Some(Start)
            && CompleteStep(t.next, ServiceStatus("docker", after)) == RowState(true, false, true, true, Some(Active))
    ensures var p := PerformOperation("docker", Start, true, before.run);
            p.command.argv == ["pkexec", "systemctl", "start", "docker"] && p.outcome == Outcome(true, None)
  {
    DockerStartRuns(before.run);
  }

  // ---------------------------------------------------------------------------
  // The row object

  /** How `_operation_completed` reports the outcome in the info bar. */
  datatype Notice = OperationSucceeded(action: Action) | OperationFailed(action: Action, error: Option<string>)

  class ServiceRow {
    const name: string
    const serviceExists: bool
    var isOperating: bool
    var switchActive: bool
    var switchSensitive: bool
    var lastStatus: Option<Status>

    function State(): RowState
      reads this
    {
      RowState(serviceExists, isOperating, switchActive, switchSensitive, lastStatus)
    }

    ghost predicate Valid()
      reads this
    {
      Consistent(State())
    }

    /** `__init__`: asks the host whether the service exists and, if so,
        probes its status once. */
    constructor (name: string, host: HostView)
      ensures this.name == name && serviceExists == ServiceExistsOn(host, name)
      ensures State() == InitialState(ServiceExistsOn(host, name), ServiceStatus(name, host))
      ensures Valid()
    {
      this.name := name;
      this.serviceExists := ServiceExistsOn(host, name);
      isOperating := false;
      switchActive := false;
      switchSensitive := true;
      lastStatus := None;
      new;
      if serviceExists {
        CheckStatus(host);
      }
    }

    /** `check_status`; the switch is set with its handler blocked, so no toggle follows. */
    method CheckStatus(host: HostView)
      requires Valid()
      modifies this
      ensures Valid()
      ensures State() == ProbeStep(old(State()), ServiceStatus(name, host))
    {
      if !serviceExists {
        return;
      }
      var status := GetServiceStatus(name, host);
      switchActive := status == Active;
      lastStatus := Some(status);
    }

    /** `on_switch_activated`: `dispatched` is the operation handed to the worker thread. */
    method OnSwitchActivated(state: bool) returns (handled: bool, dispatched: Option<Action>)
      requires Valid()
      modifies this
      ensures Valid()
      ensures var t := ToggleStep(old(State()), state);
              State() == t.next && dispatched == t.dispatched && handled == t.handled
    {
      if isOperating {
        return true, None;
      }
      var action := ActionFor(state);
      isOperating := true;
      switchSensitive := false;
      return true, Some(action);
    }

    /** `_perform_service_operation` as run by the worker thread: it reads the
        row's name and nothing else of the row, runs the command for the
        action once and classifies its answer. */
    method PerformServiceOperation(action: Action, desiredState: bool, host: HostView) returns (p: Performed)
      ensures CommandTarget(p.command.argv) == Some((name, action))
      ensures p.outcome == Classify(host.run(p.command))
      ensures p.verifyAfterMs == if p.outcome.success then Some(VerifyDelayMs) else None
      ensures p == PerformOperation(name, action, desiredState, host.run)
    {
      var command := OperationCommand(name, action);
      var result := host.run(command);
      var outcome := Classify(result);
      if outcome.success {
        p := Performed(command, outcome, Some(VerifyDelayMs));
      } else {
        p := Performed(command, outcome, None);
      }
    }

    /** `_verify_operation`: the delayed probe after a successful command; it
        runs once. */
    method VerifyOperation(action: Action, host: HostView) returns (repeat: bool)
      requires Valid()
      modifies this
      ensures Valid()
      ensures State() == ProbeStep(old(State()), ServiceStatus(name, host))
      ensures !repeat
    {
      CheckStatus(host);
      return false;
    }

    /** `_operation_completed`: clears the flag whatever the outcome, then probes. */
    method OperationCompleted(success: bool, action: Action, errorMsg: Option<string>, host: HostView)
      returns (repeat: bool, notice: Notice)
      modifies this
      ensures Valid()
      ensures State() == CompleteStep(old(State()), ServiceStatus(name, host))
      ensures notice == if success then OperationSucceeded(action) else OperationFailed(action, errorMsg)
      ensures !repeat
    {
      switchSensitive := true;
      isOperating := false;
      if success {
        notice := OperationSucceeded(action);
        CheckStatus(host);
      } else {
        notice := OperationFailed(action, errorMsg);
        CheckStatus(host);
      }
      return false, notice;
    }
  }

  /** One request on a row from start to finish, through the row's own methods:
      the toggle is accepted exactly when the row was idle, and afterwards the
      row is idle again with its switch showing the second probe. */
  method RequestLifecycle(row: ServiceRow, state: bool, host: HostView)
    returns (p: Option<Performed>)
    requires row.Valid()
    modifies row
    ensures row.Valid()
    ensures p.Some? <==> !old(row.isOperating)
    ensures p.Some? ==> p.value.command == OperationCommand(row.name, ActionFor(state))
    ensures p.Some? ==> p.value.outcome == Classify(host.run(p.value.command))
    ensures p.Some? ==> row.State() == CompleteStep(old(row.State()), ServiceStatus(row.name, host))
    ensures p.None? ==> row.State() == old(row.State())
  {
    var handled, dispatched := row.OnSwitchActivated(state);
    if dispatched.None? {
      return None;
    }
    var performed := row.PerformServiceOperation(dispatched.value, state, host);
    var repeat, notice := row.OperationCompleted(performed.outcome.success, dispatched.value,
                                                 performed.outcome.errorMsg, host);
    return Some(performed);
  }
}
