/** `ServiceValidator`: whether a configured service is installed on the host,
    and what state it is in, computed from what the listing and status commands
    answered. */
module ServiceValidator {
  import opened Host
  import opened PyStr

  /** The status strings `get_service_status` can return. */
  datatype Status = Active | Inactive | Failed | Unknown | Error {
    function Text(): string {
      match this
      case Active => "active"
      case Inactive => "inactive"
      case Failed => "failed"
      case Unknown => "unknown"
      case Error => "error"
    }
  }

  /** The three raw answers of `systemctl is-active` that are passed through unchanged. */
  predicate IsSystemdState(t: string) {
    t == "active" || t == "inactive" || t == "failed"
  }

  // ---------------------------------------------------------------------------
  // service_exists

  /** The listing command `service_exists` runs for a service. */
  function ExistsProbe(name: string): Invocation
  {
    match BackendOf(name)
    case Pm2 => Invocation(["pm2", "list"], 5)
    case Systemd => Invocation(["systemctl", "list-unit-files", name + ".service"], 5)
  }

  /** The test `service_exists` applies to what its listing command answered:
      the service exists exactly when that command completed and its standard
      output contains the name; a raised call (timeout included) means the
      service is taken as absent. */
  function ServiceExists(name: string, listing: CmdResult): (b: bool)
    ensures listing.Raised() ==> !b
    ensures b ==> |name| <= |listing.stdout|
  {
    match listing
    case Ran(_, out, _) =>
      if name == Shinobi then Contains(out, Shinobi) else Contains(out, name)
    case Timeout => false
    case Exc(_) => false
  }

  /** The existence test is exactly "the name occurs somewhere in the output of
      a listing command that completed", whatever its exit code. */
  lemma ServiceExistsMeaning(name: string, listing: CmdResult)
    ensures ServiceExists(name, listing) <==>
              listing.Ran? && exists k :: OccursAt(listing.stdout, name, k)
  {
    if listing.Ran? {
      ContainsIffOccurs(listing.stdout, name);
    }
  }

  // ---------------------------------------------------------------------------
  // get_service_status, systemd branch

  /** The status command run for a systemd unit. */
  function IsActiveProbe(name: string): Invocation
  {
    Invocation(["systemctl", "is-active", name], 5)
  }

  /** The status command run for the PM2 process. */
  const JlistProbe: Invocation := Invocation(["pm2", "jlist"], 5)

  /** The systemd branch of `get_service_status`; the exit code of
      `systemctl is-active` is not looked at, only its stripped output. */
  function SystemdStatus(reply: CmdResult): (s: Status)
    ensures reply.Raised() <==> s == Error
    ensures reply.Ran? ==> var t := Strip(reply.stdout);
      (IsSystemdState(t) ==> s.Text() == t) && (!IsSystemdState(t) ==> s == Unknown)
  {
    match reply
    case Ran(_, out, _) =>
      var status := Strip(out);
      if status == "active" then Active
      else if status == "inactive" then Inactive
      else if status == "failed" then Failed
      else Unknown
    case Timeout => Error
    case Exc(_) => Error
  }

  /** `systemctl is-active` prints its answer followed by a newline; any such
      whitespace padding is ignored and the answer is passed through. */
  lemma {:induction false} SystemdPaddedAnswer(code: int, pre: string, st: Status, post: string, err: string)
    requires AllSpace(pre) && AllSpace(post)
    requires st == Active || st == Inactive || st == Failed
    ensures SystemdStatus(Ran(code, pre + st.Text() + post, err)) == st
  {
    StripPadded(pre, st.Text(), post);
    assert Strip(pre + st.Text() + post) == st.Text();
  }

  // ---------------------------------------------------------------------------
  // get_service_status, PM2 branch

  /** The `pm2_env` member of a decoded `pm2 jlist` record: absent, an object
      whose `status` member is `status` (None when it is missing or not a
      string), or present but not an object (so `.get` on it raises). */
  datatype Pm2Env = NoEnv | Env(status: Option<string>) | BadEnv

  /** One element of the decoded `pm2 jlist` array: an object with the given
      `name` member (None when missing or not a string) and `pm2_env`, or a value
      that is not an object, on which `proc.get` raises. */
  datatype ProcRecord = Proc(name: Option<string>, env: Pm2Env) | NotAnObject

  /** The answer of `pm2 jlist`: the call raised, its output did not decode, or
      it decoded to the listed elements. */
  datatype Pm2Reply = CallFailed | Undecodable | Listed(procs: seq<ProcRecord>)

  /** The record at which the search loop leaves: one it raises on, or the first
      named "shinobi". */
  predicate StopsScan(p: ProcRecord) {
    p.NotAnObject? || p.name == Some(Shinobi)
  }

  /** Index of the first record that stops the scan, or `|procs|` when none does. */
  function FirstStop(procs: seq<ProcRecord>): (k: nat)
    ensures k <= |procs|
    ensures forall j :: 0 <= j < k ==> !StopsScan(procs[j])
    ensures k < |procs| ==> StopsScan(procs[k])
  {
    if procs == [] then 0
    else if StopsScan(procs[0]) then 0
    else 1 + FirstStop(procs[1..])
  }

  lemma FirstStopIsUnique(procs: seq<ProcRecord>, k: nat)
    requires k <= |procs|
    requires forall j :: 0 <= j < k ==> !StopsScan(procs[j])
    requires k < |procs| ==> StopsScan(procs[k])
    ensures FirstStop(procs) == k
  {
  }

  /** What the loop returns at the record it stops on. */
  function RecordStatus(p: ProcRecord): (s: Status)
    ensures p.Proc? && p.env.Env? && p.env.status == Some("online") ==> s == Active
    ensures p.Proc? && p.env.Env? && p.env.status == Some("stopped") ==> s == Inactive
    ensures s == Error <==> p.NotAnObject? || p.env.BadEnv?
    ensures (p.Proc? && !p.env.BadEnv? && !(p.env.Env? && p.env.status in {Some("online"), Some("stopped")}))
            ==> s == Failed
    ensures s in {Active, Inactive, Failed, Error}
  {
    match p
    case NotAnObject => Error
    case Proc(_, env) =>
      match env
      case BadEnv => Error
      case NoEnv => Failed
      case Env(status) =>
        if status == Some("online") then Active
        else if status == Some("stopped") then Inactive
        else Failed
  }

  /** The PM2 branch of `get_service_status`, stated without the loop. */
  function Pm2Verdict(reply: Pm2Reply): (s: Status)
    ensures s != Unknown
    ensures reply.CallFailed? || reply.Undecodable? ==> s == Error
  {
    match reply
    case CallFailed => Error
    case Undecodable => Error
    case Listed(procs) =>
      var k := FirstStop(procs);
      if k == |procs| then Inactive else RecordStatus(procs[k])
  }

  /** The `for proc in processes` loop of `get_service_status`, with its early
      returns; `proc.get` raising on a record becomes the `Error` answer of the
      enclosing `except`. */
  method ScanPm2(procs: seq<ProcRecord>) returns (s: Status)
    ensures s == Pm2Verdict(Listed(procs))
  {
    var i := 0;
    while i < |procs|
      invariant 0 <= i <= |procs|
      invariant forall j :: 0 <= j < i ==> !StopsScan(procs[j])
    {
      var proc := procs[i];
      if proc.NotAnObject? {
        FirstStopIsUnique(procs, i);
        return Error;
      }
      if proc.name == Some(Shinobi) {
        FirstStopIsUnique(procs, i);
        match proc.env
        case BadEnv =>
          return Error;
        case NoEnv =>
          return Failed;
        case Env(status) =>
          if status == Some("online") {
            return Active;
          } else if status == Some("stopped") {
            return Inactive;
          } else {
            return Failed;
          }
      }
      i := i + 1;
    }
    FirstStopIsUnique(procs, i);
    return Inactive;
  }

  /** The first well-formed record named "shinobi" decides the answer when every
      record before it is a well-formed object; what follows it is never read. */
  lemma {:induction false} FirstShinobiDecides(procs: seq<ProcRecord>, i: nat, rest: seq<ProcRecord>)
    requires i < |procs| && procs[i].Proc? && procs[i].name == Some(Shinobi)
    requires forall j :: 0 <= j < i ==> procs[j].Proc? && procs[j].name != Some(Shinobi)
    ensures Pm2Verdict(Listed(procs)) == RecordStatus(procs[i])
    ensures Pm2Verdict(Listed(procs[..i + 1] + rest)) == RecordStatus(procs[i])
  {
    FirstStopIsUnique(procs, i);
    var q := procs[..i + 1] + rest;
    assert q[i] == procs[i];
    assert forall j :: 0 <= j < i ==> q[j] == procs[j];
    FirstStopIsUnique(q, i);
  }

  /** A listing of well-formed records none of which is named "shinobi" means
      the process is not running under PM2. */
  lemma {:induction false} NoShinobiIsInactive(procs: seq<ProcRecord>)
    requires forall j :: 0 <= j < |procs| ==> procs[j].Proc? && procs[j].name != Some(Shinobi)
    ensures Pm2Verdict(Listed(procs)) == Inactive
  {
    FirstStopIsUnique(procs, |procs|);
  }

  // ---------------------------------------------------------------------------
  // get_service_status

  /** The host as the panel sees it at one moment: what each command line would
      answer, and what `json.loads` makes of a `pm2 jlist` output (None when it
      raises). */
  datatype HostView = HostView(run: Invocation -> CmdResult, decodeJlist: string -> Option<seq<ProcRecord>>)

  /** `service_exists` as run on the host: the listing command for the name. */
  function ServiceExistsOn(host: HostView, name: string): (b: bool)
    ensures b <==> var listing := host.run(ExistsProbe(name));
                   listing.Ran? && exists k :: OccursAt(listing.stdout, name, k)
  {
    ServiceExistsMeaning(name, host.run(ExistsProbe(name)));
    ServiceExists(name, host.run(ExistsProbe(name)))
  }

  /** What the `pm2 jlist` call and the decoding of its output give. */
  function JlistReply(host: HostView): (reply: Pm2Reply)
    ensures host.run(JlistProbe).Raised() ==> reply == CallFailed
    ensures host.run(JlistProbe).Ran? ==>
              reply == match host.decodeJlist(host.run(JlistProbe).stdout)
                       case None => Undecodable
                       case Some(procs) => Listed(procs)
  {
    match host.run(JlistProbe)
    case Ran(_, out, _) =>
      (match host.decodeJlist(out)
       case None => Undecodable
       case Some(procs) => Listed(procs))
    case Timeout => CallFailed
    case Exc(_) => CallFailed
  }

  /** `get_service_status` as run on the host, stated without the loop:
      shinobi's status comes from `pm2 jlist`, every other service's from
      `systemctl is-active <name>`. */
  function ServiceStatus(name: string, host: HostView): (s: Status)
    ensures name == Shinobi ==> s == Pm2Verdict(JlistReply(host)) && s != Unknown
    ensures name != Shinobi ==> s == SystemdStatus(host.run(IsActiveProbe(name)))
  {
    match BackendOf(name)
    case Pm2 => Pm2Verdict(JlistReply(host))
    case Systemd => SystemdStatus(host.run(IsActiveProbe(name)))
  }

  /** The probes only look: every argv is a listing or status query bounded
      by 5 seconds, names the service it asks about (systemd) and carries no
      start or stop verb, so no probe is a control command. */
  lemma ProbesAreQueries(name: string)
    ensures ExistsProbe(name).timeoutSecs == 5 && IsActiveProbe(name).timeoutSecs == 5
    ensures JlistProbe.timeoutSecs == 5
    ensures name != Shinobi ==> ExistsProbe(name).argv[|ExistsProbe(name).argv| - 1] == name + ".service"
    ensures IsActiveProbe(name).argv[|IsActiveProbe(name).argv| - 1] == name
    ensures forall inv :: inv in {ExistsProbe(name), IsActiveProbe(name), JlistProbe} ==>
              |inv.argv| >= 2 && inv.argv[0] in {"systemctl", "pm2"}
              && inv.argv[1] in {"list", "jlist", "list-unit-files", "is-active"}
  {
  }

  /** `get_service_status`: runs the probe command on the host. */
  method GetServiceStatus(name: string, host: HostView) returns (s: Status)
    ensures s == ServiceStatus(name, host)
  {
    if name == Shinobi {
      var result := host.run(JlistProbe);
      if result.Raised() {
        return Error;
      }
      var decoded := host.decodeJlist(result.stdout);
      if decoded.None? {
        return Error;
      }
      s := ScanPm2(decoded.value);
    } else {
      var result := host.run(IsActiveProbe(name));
      s := SystemdStatus(result);
    }
  }
}
