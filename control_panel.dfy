/** `ControlPanelWindow`: the rows built from the fixed service list, the
    refresh and polling passes over them, and the bulk start-all and stop-all
    requests. */
module Panel {
  import opened Host
  import opened ServiceValidator
  import opened Operation
  import opened Row

  /** One entry of the configured service list. */
  datatype ServiceEntry = ServiceEntry(displayLabel: string, service: string, icon: string)

  /** `SERVICES_CONFIG`, in display order. */
  const ServicesConfig: seq<ServiceEntry> := [
    ServiceEntry("PostgreSQL", "postgresql", "server-database"),
    ServiceEntry("MariaDB", "mariadb", "drive-harddisk"),
    ServiceEntry("Docker Engine", "docker", "system-run"),
    ServiceEntry("Shinobi CCTV", "shinobi", "camera-video")
  ]

  /** The configuration holds four distinct services, in display order; only
      "shinobi" is run under PM2. */
  lemma ServicesConfigShape()
    ensures ServiceNames(ServicesConfig) == ["postgresql", "mariadb", "docker", Shinobi]
    ensures forall i, j :: 0 <= i < j < |ServicesConfig| ==> ServicesConfig[i].service != ServicesConfig[j].service
    ensures forall i :: 0 <= i < |ServicesConfig| ==>
              (BackendOf(ServicesConfig[i].service) == Pm2 <==> i == |ServicesConfig| - 1)
  {
  }

  /** The service names of the configuration, in order. */
  function ServiceNames(config: seq<ServiceEntry>): (names: seq<string>)
    ensures |names| == |config|
    ensures forall i :: 0 <= i < |config| ==> names[i] == config[i].service
  {
    if config == [] then [] else [config[0].service] + ServiceNames(config[1..])
  }

  // ---------------------------------------------------------------------------
  // Bulk requests: filtering and partitioning

  /** `available_services`: the configured services whose existence check, run
      afresh on the host, succeeds, in configuration order. */
  function Available(config: seq<ServiceEntry>, host: HostView): (avail: seq<string>)
    ensures |avail| <= |config|
  {
    if config == [] then []
    else
      var rest := Available(config[1..], host);
      if ServiceExistsOn(host, config[0].service) then [config[0].service] + rest else rest
  }

  /** A service is available exactly when some configuration entry names it
      and its existence check succeeds. */
  lemma {:induction false} AvailableMembers(config: seq<ServiceEntry>, host: HostView, x: string)
    ensures x in Available(config, host) <==>
              (exists i :: 0 <= i < |config| && config[i].service == x) && ServiceExistsOn(host, x)
  {
    if config != [] {
      AvailableMembers(config[1..], host, x);
      assert forall i :: 1 <= i < |config| ==> config[1..][i - 1] == config[i];
      if exists i :: 0 <= i < |config| && config[i].service == x {
        var i :| 0 <= i < |config| && config[i].service == x;
        if i > 0 {
          assert config[1..][i - 1].service == x;
        }
      }
    }
  }

  /** Filtering keeps configuration order: the services available from a split
      list are those available from each part, one part after the other. */
  lemma {:induction false} AvailableKeepsOrder(c1: seq<ServiceEntry>, c2: seq<ServiceEntry>, host: HostView)
    ensures Available(c1 + c2, host) == Available(c1, host) + Available(c2, host)
    decreases |c1|
  {
    if c1 != [] {
      assert (c1 + c2)[1..] == c1[1..] + c2;
      AvailableKeepsOrder(c1[1..], c2, host);
    } else {
      assert c1 + c2 == c2;
    }
  }

  /** `systemd_services`: the available services other than "shinobi", in order. */
  function SystemdGroup(avail: seq<string>): (r: seq<string>)
    ensures forall x :: x in r <==> x in avail && x != Shinobi
  {
    if avail == [] then []
    else (if avail[0] != Shinobi then [avail[0]] else []) + SystemdGroup(avail[1..])
  }

  /** `pm2_services`: one "shinobi" for each time it is available. */
  function Pm2Group(avail: seq<string>): (r: seq<string>)
    ensures forall x :: x in r ==> x == Shinobi
    ensures Shinobi in r <==> Shinobi in avail
  {
    if avail == [] then []
    else (if avail[0] == Shinobi then [avail[0]] else []) + Pm2Group(avail[1..])
  }

  /** The two groups split the available services: every occurrence lands in
      exactly one of them. */
  lemma {:induction false} GroupsPartition(avail: seq<string>)
    ensures multiset(SystemdGroup(avail)) + multiset(Pm2Group(avail)) == multiset(avail)
    ensures |SystemdGroup(avail)| + |Pm2Group(avail)| == |avail|
  {
    if avail != [] {
      GroupsPartition(avail[1..]);
      assert avail == [avail[0]] + avail[1..];
    }
  }

  /** The systemd group keeps the order of the available list: grouping a
      list split in two groups each part, one after the other. */
  lemma {:induction false} SystemdGroupKeepsOrder(a: seq<string>, b: seq<string>)
    ensures SystemdGroup(a + b) == SystemdGroup(a) + SystemdGroup(b)
    decreases |a|
  {
    if a != [] {
      assert (a + b)[0] == a[0] && (a + b)[1..] == a[1..] + b;
      SystemdGroupKeepsOrder(a[1..], b);
    } else {
      assert a + b == b;
    }
  }

  /** Likewise for the PM2 group. */
  lemma {:induction false} Pm2GroupKeepsOrder(a: seq<string>, b: seq<string>)
    ensures Pm2Group(a + b) == Pm2Group(a) + Pm2Group(b)
    decreases |a|
  {
    if a != [] {
      assert (a + b)[0] == a[0] && (a + b)[1..] == a[1..] + b;
      Pm2GroupKeepsOrder(a[1..], b);
    } else {
      assert a + b == b;
    }
  }

  // ---------------------------------------------------------------------------
  // Bulk requests: the commands

  /** One `pm2 <verb> <service>` command for each PM2 service, in order. */
  function Pm2Commands(action: Action, pm2: seq<string>): (cmds: seq<Invocation>)
    ensures |cmds| == |pm2|
    ensures forall k :: 0 <= k < |pm2| ==> cmds[k] == Invocation(["pm2", action.Verb(), pm2[k]], 30)
  {
    if pm2 == [] then []
    else [Invocation(["pm2", action.Verb(), pm2[0]], 30)] + Pm2Commands(action, pm2[1..])
  }

  /** The body of `run_activation` / `run_stop`: one batched `pkexec systemctl`
      command naming every systemd service (if there is any), then one PM2
      command per PM2 service. */
  function BulkCommands(action: Action, avail: seq<string>): (cmds: seq<Invocation>)
    ensures avail == [] ==> cmds == []
    ensures SystemdGroup(avail) != [] <==> (cmds != [] && |cmds[0].argv| > 0 && cmds[0].argv[0] == "pkexec")
    ensures forall k :: 0 <= k < |cmds| ==> ReadBulk(cmds[k]).Some? && ReadBulk(cmds[k]).value.0 == action
    ensures forall k :: 0 < k < |cmds| ==> |cmds[k].argv| == 3 && cmds[k].argv[0] == "pm2"
  {
    var sys := SystemdGroup(avail);
    var pm2 := Pm2Commands(action, Pm2Group(avail));
    Pm2CommandsRead(action, Pm2Group(avail));
    if sys != [] then
      SystemdCommandRead(action, sys);
      var cmds := [SystemdCommand(action, sys)] + pm2;
      assert forall k :: 0 < k < |cmds| ==> cmds[k] == pm2[k - 1];
      cmds
    else pm2
  }

  /** The batched command for the systemd group. */
  function SystemdCommand(action: Action, sys: seq<string>): Invocation {
    Invocation(["pkexec", "systemctl", action.Verb()] + sys, 60)
  }

  /** The batched systemd command reads back as the action on the group. */
  lemma SystemdCommandRead(action: Action, sys: seq<string>)
    requires sys != []
    ensures ReadBulk(SystemdCommand(action, sys)) == Some((action, sys))
    ensures SystemdCommand(action, sys).argv[0] == "pkexec"
  {
    assert SystemdCommand(action, sys).argv[3..] == sys;
  }

  /** Each PM2 command reads back as the action on its one service. */
  lemma Pm2CommandsRead(action: Action, pm2: seq<string>)
    ensures forall k :: 0 <= k < |pm2| ==> ReadBulk(Pm2Commands(action, pm2)[k]) == Some((action, [pm2[k]]))
  {
    forall k | 0 <= k < |pm2|
      ensures ReadBulk(Pm2Commands(action, pm2)[k]) == Some((action, [pm2[k]]))
    {
      var argv := Pm2Commands(action, pm2)[k].argv;
      assert argv == ["pm2", action.Verb(), pm2[k]];
      assert argv[2..] == [pm2[k]];
    }
  }

  /** Reads a bulk command line back into its action and the services it
      names: `pkexec systemctl <verb> <names...>` bounded by 60 seconds, or
      `pm2 <verb> <name>` bounded by 30. */
  function ReadBulk(inv: Invocation): (r: Option<(Action, seq<string>)>)
    ensures r.Some? ==> 0 < |r.value.1| < |inv.argv| && r.value.1 == inv.argv[|inv.argv| - |r.value.1|..]
    ensures r.Some? ==> inv.argv[0] in {"pkexec", "pm2"} && r.value.0.Verb() in inv.argv
  {
    var argv := inv.argv;
    if |argv| >= 4 && argv[0] == "pkexec" && argv[1] == "systemctl" && inv.timeoutSecs == 60
       && ActionNamed(argv[2]).Some? then
      Some((ActionNamed(argv[2]).value, argv[3..]))
    else if |argv| == 3 && argv[0] == "pm2" && inv.timeoutSecs == 30 && ActionNamed(argv[1]).Some? then
      Some((ActionNamed(argv[1]).value, argv[2..]))
    else None
  }

  /** The services a sequence of bulk command lines names, in order. */
  function NamedServices(cmds: seq<Invocation>): seq<string> {
    if cmds == [] then []
    else (match ReadBulk(cmds[0]) case Some(r) => r.1 case None => []) + NamedServices(cmds[1..])
  }

  lemma {:induction false} NamedServicesAppend(a: seq<Invocation>, b: seq<Invocation>)
    ensures NamedServices(a + b) == NamedServices(a) + NamedServices(b)
  {
    if a != [] {
      assert (a + b)[1..] == a[1..] + b;
      NamedServicesAppend(a[1..], b);
    } else {
      assert a + b == b;
    }
  }

  lemma {:induction false} Pm2CommandsNames(action: Action, pm2: seq<string>)
    ensures NamedServices(Pm2Commands(action, pm2)) == pm2
  {
    if pm2 != [] {
      Pm2CommandsNames(action, pm2[1..]);
      assert Pm2Commands(action, pm2)[1..] == Pm2Commands(action, pm2[1..]);
      assert ReadBulk(Pm2Commands(action, pm2)[0]) == Some((action, [pm2[0]]));
    }
  }

  /** Between them the bulk commands name every available service exactly as
      often as it is available: the systemd ones first, in order, then the PM2
      ones. */
  lemma BulkNamesEachAvailableService(action: Action, avail: seq<string>)
    ensures NamedServices(BulkCommands(action, avail)) == SystemdGroup(avail) + Pm2Group(avail)
    ensures multiset(NamedServices(BulkCommands(action, avail))) == multiset(avail)
  {
    var sys := SystemdGroup(avail);
    var head := if sys != [] then [SystemdCommand(action, sys)] else [];
    assert BulkCommands(action, avail) == head + Pm2Commands(action, Pm2Group(avail));
    NamedServicesAppend(head, Pm2Commands(action, Pm2Group(avail)));
    Pm2CommandsNames(action, Pm2Group(avail));
    if sys != [] {
      SystemdCommandRead(action, sys);
      assert NamedServices(head) == sys + NamedServices([]);
    }
    GroupsPartition(avail);
  }

  /** The number of commands is one batched systemd command (when some
      systemd service is available) plus one per PM2 service. */
  lemma BulkCommandCount(action: Action, avail: seq<string>)
    ensures |BulkCommands(action, avail)| == (if SystemdGroup(avail) != [] then 1 else 0) + |Pm2Group(avail)|
  {
  }

  /** What pressing "Activar Todo" or "Detener Todo" decides before any command
      runs: nothing is available (a warning, no command), the user declined the
      stop confirmation, or the commands handed to the worker thread. */
  datatype BulkPlan =
    | NothingAvailable
    | Declined
    | Dispatch(services: seq<string>, commands: seq<Invocation>)

  /** `activate_all`. */
  function ActivateAll(config: seq<ServiceEntry>, host: HostView): (plan: BulkPlan)
    ensures plan.NothingAvailable? <==> Available(config, host) == []
    ensures !plan.Declined?
    ensures plan.Dispatch? ==> (&& plan.services == Available(config, host)
                                && plan.commands == BulkCommands(Start, plan.services)
                                && plan.commands != [])
  {
    var avail := Available(config, host);
    if avail == [] then NothingAvailable
    else
      GroupsPartition(avail);
      Dispatch(avail, BulkCommands(Start, avail))
  }

  /** `stop_all`; `confirmed` is the answer to the confirmation dialog, which
      is only shown when something is available. */
  function StopAll(config: seq<ServiceEntry>, host: HostView, confirmed: bool): (plan: BulkPlan)
    ensures plan.NothingAvailable? <==> Available(config, host) == []
    ensures plan.Declined? <==> Available(config, host) != [] && !confirmed
    ensures plan.Dispatch? ==> (&& plan.services == Available(config, host)
                                && plan.commands == BulkCommands(Stop, plan.services)
                                && plan.commands != [])
  {
    var avail := Available(config, host);
    if avail == [] then NothingAvailable
    else if !confirmed then Declined
    else
      GroupsPartition(avail);
      Dispatch(avail, BulkCommands(Stop, avail))
  }

  /** When every existence check succeeds, every configured service is
      available, in configuration order. */
  lemma {:induction false} AllInstalledAllAvailable(config: seq<ServiceEntry>, host: HostView)
    requires forall i :: 0 <= i < |config| ==> ServiceExistsOn(host, config[i].service)
    ensures Available(config, host) == ServiceNames(config)
  {
    if config != [] {
      assert forall i :: 0 <= i < |config| - 1 ==> config[1..][i] == config[i + 1];
      AllInstalledAllAvailable(config[1..], host);
    }
  }

  /** For the configured services, a bulk start is
      `pkexec systemctl start postgresql mariadb docker`, then `pm2 start shinobi`. */
  lemma ConfiguredBulkStart()
    ensures BulkCommands(Start, ["postgresql", "mariadb", "docker", "shinobi"]) ==
              [Invocation(["pkexec", "systemctl", "start", "postgresql", "mariadb", "docker"], 60),
               Invocation(["pm2", "start", "shinobi"], 30)]
  {
    var avail: seq<string> := ["postgresql", "mariadb", "docker", "shinobi"];
    assert SystemdGroup(avail[3..]) == [] && Pm2Group(avail[3..]) == ["shinobi"] by {
      assert avail[3..][1..] == [];
    }
    assert SystemdGroup(avail[2..]) == ["docker"] && Pm2Group(avail[2..]) == ["shinobi"] by {
      assert avail[2..][1..] == avail[3..];
    }
    assert SystemdGroup(avail[1..]) == ["mariadb", "docker"] && Pm2Group(avail[1..]) == ["shinobi"] by {
      assert avail[1..][1..] == avail[2..];
    }
    assert SystemdGroup(avail) == ["postgresql", "mariadb", "docker"];
    assert Pm2Group(avail) == ["shinobi"];
    assert Pm2Commands(Start, ["shinobi"]) == [Invocation(["pm2", "start", "shinobi"], 30)];
    assert ["pkexec", "systemctl", "start"] + ["postgresql", "mariadb", "docker"]
        == ["pkexec", "systemctl", "start", "postgresql", "mariadb", "docker"];
  }

  /** With every configured service installed, "Activar Todo" dispatches the
      four services with the two commands above. */
  lemma ActivateAllConfigured(host: HostView)
    requires forall i :: 0 <= i < |ServicesConfig| ==> ServiceExistsOn(host, ServicesConfig[i].service)
    ensures ActivateAll(ServicesConfig, host) == Dispatch(
              ["postgresql", "mariadb", "docker", "shinobi"],
              [Invocation(["pkexec", "systemctl", "start", "postgresql", "mariadb", "docker"], 60),
               Invocation(["pm2", "start", "shinobi"], 30)])
  {
    AllInstalledAllAvailable(ServicesConfig, host);
    ServicesConfigShape();
    ConfiguredBulkStart();
  }

  /** When the existence checks all fail, a bulk request runs nothing. */
  lemma NothingInstalledRunsNothing(config: seq<ServiceEntry>, host: HostView, confirmed: bool)
    requires forall i :: 0 <= i < |config| ==> host.run(ExistsProbe(config[i].service)).Raised()
    ensures ActivateAll(config, host) == NothingAvailable
    ensures StopAll(config, host, confirmed) == NothingAvailable
  {
    if Available(config, host) != [] {
      var x := Available(config, host)[0];
      AvailableMembers(config, host, x);
    }
  }

  // ---------------------------------------------------------------------------
  // Bulk requests: running the commands

  /** Index of the first command whose call raises on the host, or `|cmds|`
      when none does. */
  function FirstRaise(cmds: seq<Invocation>, run: Invocation -> CmdResult): (k: nat)
    ensures k <= |cmds|
    ensures forall j :: 0 <= j < k ==> run(cmds[j]).Ran?
    ensures k < |cmds| ==> run(cmds[k]).Raised()
  {
    if cmds == [] then 0
    else if run(cmds[0]).Raised() then 0
    else 1 + FirstRaise(cmds[1..], run)
  }

  /** The worker of a bulk request: runs the commands in order inside one `try`.
      Exit codes are not checked, but the first call that raises (a timeout
      included) ends the run, so later commands are not issued and the final
      refresh is skipped. */
  method ExecuteBulk(cmds: seq<Invocation>, host: HostView) returns (issued: seq<Invocation>, completed: bool)
    ensures completed <==> FirstRaise(cmds, host.run) == |cmds|
    ensures issued == cmds[..if completed then |cmds| else FirstRaise(cmds, host.run) + 1]
  {
    issued := [];
    var i := 0;
    while i < |cmds|
      invariant 0 <= i <= |cmds|
      invariant issued == cmds[..i]
      invariant forall j :: 0 <= j < i ==> host.run(cmds[j]).Ran?
    {
      issued := issued + [cmds[i]];
      var result := host.run(cmds[i]);
      if result.Raised() {
        FirstRaiseAt(cmds, host.run, i);
        return issued, false;
      }
      i := i + 1;
    }
    FirstRaiseAt(cmds, host.run, i);
    assert cmds[..i] == cmds;
    return issued, true;
  }

  /** The first raising call is the one after a run of calls that returned. */
  lemma FirstRaiseAt(cmds: seq<Invocation>, run: Invocation -> CmdResult, k: nat)
    requires k <= |cmds|
    requires forall j :: 0 <= j < k ==> run(cmds[j]).Ran?
    requires k < |cmds| ==> run(cmds[k]).Raised()
    ensures FirstRaise(cmds, run) == k
  {
  }

  /** A command that returns, even with a nonzero code, lets the run go on: a
      bulk run in which nothing raises issues every command. */
  lemma NoRaiseRunsAll(cmds: seq<Invocation>, run: Invocation -> CmdResult)
    requires forall j :: 0 <= j < |cmds| ==> run(cmds[j]).Ran?
    ensures FirstRaise(cmds, run) == |cmds|
  {
    FirstRaiseAt(cmds, run, |cmds|);
  }

  // ---------------------------------------------------------------------------
  // The window

  class ControlPanel {
    const config: seq<ServiceEntry>
    /** `service_rows`, one per configured entry and in the same order. */
    const rows: seq<ServiceRow>

    ghost predicate Valid()
      reads this, rows
    {
      && |rows| == |config|
      && (forall i, j :: 0 <= i < |rows| && 0 <= j < |rows| && i != j ==> rows[i] != rows[j])
      && (forall i :: 0 <= i < |rows| ==> rows[i].name == config[i].service && rows[i].Valid())
    }

    /** `__init__`: one row per entry, each asking the host whether its
        service exists and probing it once. The 5-second `auto_refresh` timer
        it installs is driven from outside. */
    constructor (config: seq<ServiceEntry>, host: HostView)
      ensures this.config == config && Valid()
      ensures forall i :: 0 <= i < |rows| ==> fresh(rows[i])
      ensures forall i :: 0 <= i < |rows| ==>
                rows[i].State() == InitialState(ServiceExistsOn(host, config[i].service),
                                                ServiceStatus(config[i].service, host))
    {
      var rs: seq<ServiceRow> := [];
      var i := 0;
      while i < |config|
        invariant 0 <= i <= |config| && |rs| == i
        invariant forall k :: 0 <= k < i ==> fresh(rs[k])
        invariant forall k, j :: 0 <= k < j < i ==> rs[k] != rs[j]
        invariant forall k :: 0 <= k < i ==> rs[k].name == config[k].service && rs[k].Valid()
        invariant forall k :: 0 <= k < i ==>
                    rs[k].State() == InitialState(ServiceExistsOn(host, config[k].service),
                                                  ServiceStatus(config[k].service, host))
      {
        var row := new ServiceRow(config[i].service, host);
        rs := rs + [row];
        i := i + 1;
      }
      this.config := config;
      this.rows := rs;
    }

    /** `refresh_all`: every row is probed, busy or not; the busy flags are
        left alone. */
    method RefreshAll(host: HostView) returns (repeat: bool)
      requires Valid()
      modifies rows
      ensures Valid()
      ensures forall i :: 0 <= i < |rows| ==>
                rows[i].State() == ProbeStep(old(rows[i].State()), ServiceStatus(rows[i].name, host))
      ensures !repeat
    {
      var i := 0;
      while i < |rows|
        invariant 0 <= i <= |rows|
        invariant Valid()
        invariant forall k :: 0 <= k < i ==>
                    rows[k].State() == ProbeStep(old(rows[k].State()), ServiceStatus(rows[k].name, host))
        invariant forall k :: i <= k < |rows| ==> rows[k].State() == old(rows[k].State())
      {
        rows[i].CheckStatus(host);
        assert forall k :: 0 <= k < |rows| && k != i ==> rows[k] != rows[i];
        i := i + 1;
      }
      return false;
    }

    /** `auto_refresh`, one tick of the timer: only idle rows are probed, and
        the timer stays installed. */
    method AutoRefresh(host: HostView) returns (keepRunning: bool)
      requires Valid()
      modifies rows
      ensures Valid()
      ensures forall i :: 0 <= i < |rows| ==>
                rows[i].State() == PollStep(old(rows[i].State()), ServiceStatus(rows[i].name, host))
      ensures keepRunning
    {
      var i := 0;
      while i < |rows|
        invariant 0 <= i <= |rows|
        invariant Valid()
        invariant forall k :: 0 <= k < i ==>
                    rows[k].State() == PollStep(old(rows[k].State()), ServiceStatus(rows[k].name, host))
        invariant forall k :: i <= k < |rows| ==> rows[k].State() == old(rows[k].State())
      {
        if !rows[i].isOperating {
          rows[i].CheckStatus(host);
        }
        i := i + 1;
      }
      return true;
    }

    /** The worker of `activate_all` / `stop_all` followed by the `refresh_all`
        it posts when no call raised; `after` is the host as the refresh finds
        it once the commands have run. */
    method RunBulk(cmds: seq<Invocation>, host: HostView, after: HostView)
      returns (issued: seq<Invocation>, refreshed: bool)
      requires Valid()
      modifies rows
      ensures Valid()
      ensures refreshed <==> FirstRaise(cmds, host.run) == |cmds|
      ensures issued == cmds[..if refreshed then |cmds| else FirstRaise(cmds, host.run) + 1]
      ensures forall i :: 0 <= i < |rows| ==>
                rows[i].State() == if refreshed
                                   then ProbeStep(old(rows[i].State()), ServiceStatus(rows[i].name, after))
                                   else old(rows[i].State())
    {
      issued, refreshed := ExecuteBulk(cmds, host);
      if refreshed {
        var _ := RefreshAll(after);
      }
    }
  }
}
