# Service-supervision core of the Dragwaysk control panel

`dragwaysk-panel.py` is a GTK window that lists a fixed set of host services
(PostgreSQL, MariaDB and Docker under systemd, Shinobi CCTV under PM2), shows
whether each is running, and lets the user start or stop them one by one or
all at once. This project models the control logic inside it and proves
properties of that model:

- **`ServiceValidator`** (`validator.dfy`, with `pystr.dfy` for Python's
  `str.strip()` and the `in` substring test): whether a service exists is a
  substring test on a listing command's output. Its status comes from the
  stripped `systemctl is-active` answer, or from a linear search of the decoded
  `pm2 jlist` records for the first one named `shinobi`.
- **`_perform_service_operation`** (`operation.dfy`): the argv of a start or
  stop request (`pm2 …` for `shinobi`, `pkexec systemctl …` otherwise), and
  how the command's result is classified into `(success, error_msg)`.
- **`ServiceRow`** (`service_row.dfy`): the `is_operating` flag that lets at
  most one start/stop request run per row (the bulk requests do not consult
  it). A toggle is ignored while busy. Completion
  clears the flag and re-probes. The switch value is only ever set from a probe's answer,
  never the requested state. The per-step behaviour is stated on a `RowState`
  value, and the class `ServiceRow` implements it with fields and methods.
  Lemmas over traces of main-loop events prove mutual exclusion and that the
  requested state is never trusted.
- **`ControlPanelWindow`** (`control_panel.dfy`): building the rows from
  `SERVICES_CONFIG`, `refresh_all` and `auto_refresh` over the rows, and the
  filter/partition/dispatch logic of `activate_all` and `stop_all`, plus the
  worker loop that runs the bulk commands.

The host is an input value, `HostView`. Its `run` field says what one
`subprocess.run` call of a given argv and timeout gives: `Ran(returncode,
stdout, stderr)`, `Timeout` (the call raised `TimeoutExpired`) or `Exc(msg)`
(any other exception). Its `decodeJlist` field says what `json.loads` makes
of a `pm2 jlist` output (`None` when it raises). Every probe and every
command of the model is an argv looked up in a host view, so the contracts
say which command line was asked and what was made of its answer. A step
that runs after other commands (the completion probe, the refresh after a
bulk run) takes the host as it is then. Threads
and GLib callbacks become sequential steps: the toggle, the worker's
classification, the completion callback, the delayed verification probe and
the timer tick.

Behaviour of the code that the model keeps as written:
- `refresh_all` probes every row, also busy ones (`Row.ProbeStep` on every
  row in `Panel.ControlPanel.RefreshAll`). Only `auto_refresh` skips busy rows.
- The bulk worker runs all its `subprocess.run` calls inside one `try`. Return
  codes are ignored, but the first call that raises (a timeout included) stops
  the later commands and skips the final `refresh_all`, so the fan-out is not
  best-effort (`Panel.ExecuteBulk`).
- A toggle while busy just returns `True`; the code has no "already in
  progress" result. A row has no `lastError` field; the error message only
  reaches the notification (`Row.Notice`).
- `on_switch_activated` does not look at whether the service exists. The row
  of a missing service is made insensitive, so GTK never delivers a toggle to
  it, and `Row.ServiceRow.OnSwitchActivated` likewise does not check it.
- `is_operating` only keeps two requests on the same row from overlapping.
  "Activar Todo" and "Detener Todo" never look at it, so a bulk run can start
  a service whose own row has a start or stop in flight (`Panel.ActivateAll`
  and `Panel.StopAll` take no row state).
- The model's switch is the value `check_status` last passed to
  `set_active`. A toggle never writes it: the handler only updates the flag
  and the sensitivity and returns `True`.

## Model

| member | source | states |
|---|---|---|
| `Host.BackendOf` | dragwaysk-panel.py:226-229 | PM2 is chosen exactly for the name "shinobi", systemd for every other name |
| `PyStr.TrimLeft` | dragwaysk-panel.py:95 | `lstrip`: the result is a suffix, everything dropped is whitespace, and the result does not start with whitespace |
| `PyStr.TrimRight` | dragwaysk-panel.py:95 | `rstrip`: the result is a prefix, everything dropped is whitespace, and the result does not end with whitespace |
| `PyStr.Strip` | dragwaysk-panel.py:95 | `strip()`: the result is a slice of the input with only whitespace cut from both sides, and it starts and ends with non-whitespace |
| `PyStr.StripPadded` | dragwaysk-panel.py:95 | a word with whitespace on both sides strips back to exactly that word |
| `PyStr.Contains` | dragwaysk-panel.py:41 | `in` on strings: a found needle fits inside the text, a text that starts with the needle contains it, and the empty needle is always found |
| `PyStr.ContainsIffOccurs` | dragwaysk-panel.py:41 | the substring search is true iff some window of the text equals the needle (both directions) |
| `ServiceValidator.ServiceExists` | dragwaysk-panel.py:30-57 | a listing call that raised (timeout or any exception) means the service does not exist; a found name fits inside the output |
| `ServiceValidator.ServiceExistsMeaning` | dragwaysk-panel.py:41-54 | a service exists iff the listing completed (any exit code) and its name occurs in stdout |
| `ServiceValidator.ServiceExistsOn` | dragwaysk-panel.py:30-57 | on a host, a service exists iff its listing command (`pm2 list` for shinobi, `systemctl list-unit-files <name>.service` otherwise) completed, with any exit code, and the name occurs in its stdout |
| `ServiceValidator.ProbesAreQueries` | dragwaysk-panel.py:33-94 | every probe is a `systemctl` or `pm2` listing or status query with a 5 s timeout, and the systemd probes name the service they ask about |
| `ServiceValidator.SystemdStatus` | dragwaysk-panel.py:88-99 | a raised call, and only that, gives "error"; a stripped answer of active/inactive/failed is returned unchanged; any other answer gives "unknown" |
| `ServiceValidator.SystemdPaddedAnswer` | dragwaysk-panel.py:95-96 | `is-active` answers surrounded by whitespace (its trailing newline) map to the matching status |
| `ServiceValidator.FirstStop` | dragwaysk-panel.py:73-74 | the loop stops at the first record it raises on or that is named shinobi, and no earlier record stops it |
| `ServiceValidator.RecordStatus` | dragwaysk-panel.py:75-81 | on the matching record: online gives active, stopped gives inactive, a pm2_env that is not an object gives error, and any other case (status missing, not a string, or another word) gives failed |
| `ServiceValidator.Pm2Verdict` | dragwaysk-panel.py:63-85 | the PM2 status never is "unknown"; a failed call or an undecodable output gives "error" |
| `ServiceValidator.ScanPm2` | dragwaysk-panel.py:73-85 | the `for proc in processes` loop with early returns computes exactly the loop-free verdict |
| `ServiceValidator.FirstShinobiDecides` | dragwaysk-panel.py:73-81 | the first well-formed record named shinobi decides the status, and records after it are never looked at |
| `ServiceValidator.NoShinobiIsInactive` | dragwaysk-panel.py:82 | a list of well-formed records with no shinobi gives "inactive" |
| `ServiceValidator.JlistReply` | dragwaysk-panel.py:63-84 | a raised `pm2 jlist` call gives the failed-call reply; a completed one gives the decoded records, or the undecodable reply when decoding raises |
| `ServiceValidator.ServiceStatus` | dragwaysk-panel.py:60-99 | on a host, shinobi's status is the PM2 verdict on the `pm2 jlist` reply (never "unknown"); every other service's is the systemd mapping of what `systemctl is-active <name>` answered |
| `ServiceValidator.GetServiceStatus` | dragwaysk-panel.py:60-99 | the method that runs the probe on the host and scans the records returns exactly the specified status |
| `Operation.ActionFor` | dragwaysk-panel.py:206 | the action is start iff the requested state is true, with verbs "start"/"stop" |
| `Operation.ActionNamed` | dragwaysk-panel.py:206 | only "start" and "stop" name an action, and the action read back has that verb |
| `Operation.OperationCommand` | dragwaysk-panel.py:226-240 | exactly `["pm2", verb, name]` for shinobi and `["pkexec", "systemctl", verb, name]` otherwise, with a 30 s timeout |
| `Operation.CommandTarget` | dragwaysk-panel.py:226-229 | reading a control command back yields its last argument as the service and the one before as the verb |
| `Operation.OperationCommandRoundTrip` | dragwaysk-panel.py:226-229 | every built command reads back as exactly the service and action it was built from |
| `Operation.Classify` | dragwaysk-panel.py:231-256 | success iff the command ran with code 0, and then no message; nonzero gives stderr or the cancellation text when stderr is empty; a timeout gives the "too long" text; any other exception gives its message |
| `Operation.RejectionHasMessage` | dragwaysk-panel.py:248 | a nonzero exit always yields a non-empty error message |
| `Operation.PerformOperation` | dragwaysk-panel.py:223-259 | the command run is the row's own control command for the action; the outcome is the classification of what the host answered, so success iff exit code 0; the 1000 ms verification probe is scheduled iff it succeeded |
| `Operation.SuccessfulOperation` | dragwaysk-panel.py:241-247 | a command that exits with 0 is a success without message and is followed by the verification probe |
| `Operation.DesiredStateUnused` | dragwaysk-panel.py:223 | the requested switch state changes nothing in what is run or reported |
| `Row.ProbeStep` | dragwaysk-panel.py:171-188 | a row whose service does not exist is unchanged; otherwise the switch is on iff the status text is "active" and the status is recorded; the busy flag is untouched |
| `Row.InitialState` | dragwaysk-panel.py:102-169 | a new row is idle with a sensitive switch; if the service exists it shows the first probe, otherwise it stays off and unprobed |
| `Row.ToggleStep` | dragwaysk-panel.py:201-221 | always handled; while busy nothing changes and nothing is dispatched; otherwise the row becomes busy and exactly the action for the requested state is dispatched; the switch never moves |
| `Row.CompleteStep` | dragwaysk-panel.py:266-286 | whatever the outcome the row ends idle and sensitive and keeps its existence flag; an existing row's switch shows exactly the new probe, a missing one's is unchanged |
| `Row.PollStep` | dragwaysk-panel.py:521-523 | a busy row is left as is; an idle row is probed |
| `Row.AtMostOneInFlight` | dragwaysk-panel.py:203-221 | over any trace whose completions answer started operations, operations started equal completions, give or take the one in flight, so two operations never overlap |
| `Row.ConsistentAlongRun` | dragwaysk-panel.py:212 | along any trace the switch is greyed out exactly while an operation is in flight |
| `Row.BusyUntilCompletion` | dragwaysk-panel.py:203-204 | without a completion a busy row stays busy and starts no new operation, even when `refresh_all` probes it |
| `Row.DesireNeverTrusted` | dragwaysk-panel.py:277-284 | the row's final state is the same whatever states the toggles requested |
| `Row.MissingServiceShowsNothing` | dragwaysk-panel.py:173-174 | a row for a service that is not installed never changes its switch or status |
| `Row.ProbedSystemdState` | dragwaysk-panel.py:88-96 | a systemd row whose `is-active` answer is a state followed by whitespace gets exactly that state |
| `Row.DockerInactiveProbe` | dragwaysk-panel.py:88-96 | `systemctl is-active docker` answering "inactive" and a newline gives docker the inactive status |
| `Row.DockerStartRuns` | dragwaysk-panel.py:226-247 | starting docker runs `pkexec systemctl start docker`, and exit status 0 makes it a success |
| `Row.DockerStartScenario` | dragwaysk-panel.py:201-286 | switching on an inactive docker row dispatches a start, runs `pkexec systemctl start docker` and, after a successful run and an "active" probe, leaves the row idle with `set_active(True)` as its switch value |
| `Row.ServiceRow.constructor` | dragwaysk-panel.py:102-169 | the row asks the host once whether its service exists, and its state is the initial state for that answer and the first probe |
| `Row.ServiceRow.CheckStatus` | dragwaysk-panel.py:171-188 | keeps the switch greyed out exactly while busy; the new state is the probe step applied to the old state and the status the host reports |
| `Row.ServiceRow.OnSwitchActivated` | dragwaysk-panel.py:201-221 | keeps the switch greyed out exactly while busy; new state, dispatched action and return value are those of the toggle step |
| `Row.ServiceRow.PerformServiceOperation` | dragwaysk-panel.py:223-259 | the worker runs one command that names the row's service and the action, its outcome is the classification of the host's answer, and the verification probe follows exactly a success; it reads no row state |
| `Row.ServiceRow.VerifyOperation` | dragwaysk-panel.py:261-264 | the delayed verification is one probe step on the host as it is then and does not repeat |
| `Row.ServiceRow.OperationCompleted` | dragwaysk-panel.py:266-286 | the new state is the completion step, with the switch sensitive again; the notice reports success or the error message; the callback does not repeat |
| `Row.RequestLifecycle` | dragwaysk-panel.py:201-286 | a request runs a command iff the row was idle: the row's own command, whose outcome is the classified answer, and the row then ends completed with the answer of the completion probe; otherwise the row is unchanged; the delayed verification probe a success schedules is only returned as `verifyAfterMs` and left to `VerifyOperation` |
| `Panel.ServicesConfigShape` | dragwaysk-panel.py:19-24 | the configuration lists postgresql, mariadb, docker and shinobi, in that order, with distinct names, and only the last one runs under PM2 |
| `Panel.ServiceNames` | dragwaysk-panel.py:528-529 | the names of the configuration, one per entry and in order |
| `Panel.Available` | dragwaysk-panel.py:528-531 | the services whose existence check succeeds on the host are at most the configured ones |
| `Panel.AvailableMembers` | dragwaysk-panel.py:528-531 | a name is available iff some configured entry names it and its existence check succeeds on the host |
| `Panel.AvailableKeepsOrder` | dragwaysk-panel.py:528-531 | filtering a split configuration gives the two filtered parts in order, so configuration order is kept |
| `Panel.AllInstalledAllAvailable` | dragwaysk-panel.py:528-531 | when every existence check succeeds, all configured names are available, in order |
| `Panel.SystemdGroup` | dragwaysk-panel.py:542 | holds exactly the available names other than shinobi |
| `Panel.Pm2Group` | dragwaysk-panel.py:543 | holds only shinobi, and holds it iff it is available |
| `Panel.GroupsPartition` | dragwaysk-panel.py:542-543 | the two groups together are a permutation of the available services |
| `Panel.SystemdGroupKeepsOrder` | dragwaysk-panel.py:542 | the systemd group of a split list is the systemd groups of the parts, in order |
| `Panel.Pm2GroupKeepsOrder` | dragwaysk-panel.py:543 | the PM2 group of a split list is the PM2 groups of the parts, in order |
| `Panel.Pm2Commands` | dragwaysk-panel.py:553-558 | one `pm2 <verb> <service>` command (30 s timeout) per PM2 service, in order |
| `Panel.ReadBulk` | dragwaysk-panel.py:545-558 | reading a bulk command line back accepts only `pkexec systemctl <start/stop> <names...>` with 60 s and `pm2 <start/stop> <name>` with 30 s; the names read are a non-empty tail of the argv |
| `Panel.SystemdCommandRead` | dragwaysk-panel.py:545-550 | the batched systemd command is run under pkexec and reads back as the action on exactly the systemd group |
| `Panel.Pm2CommandsRead` | dragwaysk-panel.py:553-558 | each PM2 command reads back as the action on its own service |
| `Panel.BulkCommands` | dragwaysk-panel.py:533-558 | no service available means no command; every command reads back as a bulk command for the requested action; the first is the pkexec one iff some systemd service is available, every later one is a `pm2` command |
| `Panel.BulkNamesEachAvailableService` | dragwaysk-panel.py:545-558 | the commands name the systemd services in order, then the PM2 ones; together every available service is named exactly as often as it is available |
| `Panel.BulkCommandCount` | dragwaysk-panel.py:545-558 | one batched systemd command when some systemd service is available, plus one command per PM2 service |
| `Panel.ActivateAll` | dragwaysk-panel.py:526-567 | nothing is run iff nothing is available; otherwise the available services are started by the bulk commands, and there is at least one |
| `Panel.StopAll` | dragwaysk-panel.py:569-628 | nothing available gives a warning only; a declined confirmation runs nothing; otherwise the available services are stopped by the bulk commands |
| `Panel.ConfiguredBulkStart` | dragwaysk-panel.py:542-558 | for the four configured services the start commands are `pkexec systemctl start postgresql mariadb docker` (60 s) then `pm2 start shinobi` (30 s) |
| `Panel.ActivateAllConfigured` | dragwaysk-panel.py:19-24 | with every configured service installed, "activate all" dispatches exactly those two commands |
| `Panel.NothingInstalledRunsNothing` | dragwaysk-panel.py:533-535 | when every existence check raises on the host, neither bulk request runs a command |
| `Panel.FirstRaise` | dragwaysk-panel.py:540-563 | locates the first command whose call raises on the host: all before it returned |
| `Panel.ExecuteBulk` | dragwaysk-panel.py:539-563 | the commands are issued in order up to and including the first one whose call raises; the run completes iff none raises |
| `Panel.FirstRaiseAt` | dragwaysk-panel.py:540-563 | the first raising call is the one right after a run of calls that returned |
| `Panel.NoRaiseRunsAll` | dragwaysk-panel.py:547-558 | nonzero exit codes do not stop the run: if no call raises, every command is issued |
| `Panel.ControlPanel.constructor` | dragwaysk-panel.py:351-357 | one fresh, distinct row per configured entry, in order, each in its initial state for what the host answers |
| `Panel.ControlPanel.RefreshAll` | dragwaysk-panel.py:512-517 | every row, busy or not, takes one probe step; the callback does not repeat |
| `Panel.ControlPanel.AutoRefresh` | dragwaysk-panel.py:519-524 | each row takes one poll step (busy rows unchanged) and the timer keeps running |
| `Panel.ControlPanel.RunBulk` | dragwaysk-panel.py:539-567 | the bulk worker issues the commands up to the first raise, and all rows are refreshed, on the host as it is afterwards, iff nothing raised |

## Left out

- `Row.ToggleStep` / `Row.ProbeStep`: the switch is one bit, the value `check_status` passes to `set_active`. GTK keeps the handle position (`active`, moved by the click) apart from the switch's `state`, and `set_active` reaches `state` only when `active` changes. So after a click that starts the service, a probe answering "active" leaves GTK's `state` unchanged while the model says the switch is on. This split between `active` and `state` is not modelled, because GTK's widget behaviour is not part of this code.

- GTK widgets, CSS, the spinner, tooltips, the status label markup and the InfoBar. They are presentation; the recorded `lastStatus` stands for what the label and tooltip show.
- Notification wording. Only the two error texts of the classification are modelled exactly. The success or failure notice of a single operation is the `Notice` value; the bulk notices ("Activando N servicios", the warnings, the final message) are not modelled.
- Threads, `GLib.idle_add` and `GLib.timeout_add*` scheduling. The flow is cut into sequential steps. Interleavings of different rows' workers, and the one-second timer and five-second poll cadence as time, are not modelled.
- Running commands, `pkexec` prompting and timeouts as elapsed time. Results come in as `CmdResult` values; timeout lengths appear only as constants of `Invocation`.
- JSON decoding of `pm2 jlist`. The decoded value is an input: `Listed` records, `Undecodable`, or `CallFailed`. A decoded top-level value that is iterable but not a list (an object or a string) is to be given as its elements, each `NotAnObject`. A `name` or `status` member that is not a string is given as `None`, since it never equals the compared strings.
- The `stop_all` confirmation dialog. Only its answer is modelled, as the `confirmed` input.
- The exception branch of the bulk worker's `except` notification. The model records only that the run stops there and that the refresh is skipped.
- Logging to `/tmp/dragwaysk-panel.log`.
- The `__main__` block and window setup.
