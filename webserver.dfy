/**
 * The web-server panel of src/components/webserver.rs: the Apache and Nginx status
 * and uptime as `systemctl` reports them, read once when the panel is built, and an
 * enable flag switched by `ChangeMode` actions.
 *
 * The host is a parameter: whether each server's configuration directory exists,
 * what `systemctl is-active` printed (nothing when the command could not run), and
 * what `systemctl show --property=ActiveEnterTimestamp` printed.
 */
module WebserverPanel {
  import opened Wrappers
  import opened Text
  import opened Actions

  datatype Host = Host(
    apacheInstalled: bool,
    nginxInstalled: bool,
    isActiveOutput: string -> Option<string>,
    showOutput: string -> string)

  const Apache: string := "apache2"
  const Nginx: string := "nginx"
  const Unknown: string := "Unknown"
  const TimestampKey: string := "ActiveEnterTimestamp="

  /** `get_service_status`: the trimmed output, if the command ran. */
  function ServiceStatus(output: Option<string>): (r: Option<string>)
    ensures r.Some? <==> output.Some?
    ensures r.Some? ==> IsTrimmed(r.value)
  {
    match output
    case None => None
    case Some(text) => Some(Trim(text))
  }

  /** `get_uptime`: the first output line without the property name, or "Unknown" when there is no line. */
  function Uptime(output: string): (r: string)
    ensures Lines(output) == [] ==> r == Unknown
    ensures Lines(output) != [] ==> |r| <= |Lines(output)[0]|
  {
    var lines := Lines(output);
    if lines != [] then RemoveAll(lines[0], TimestampKey) else Unknown
  }

  /** The status text `draw_webserver_info` shows for `service`. */
  function StatusText(service: string, apacheStatus: Option<string>, nginxStatus: Option<string>): (r: string)
    ensures service == Apache ==> r == apacheStatus.GetOr(Unknown)
    ensures service == Nginx ==> r == nginxStatus.GetOr(Unknown)
    ensures service != Apache && service != Nginx ==> r == Unknown
  {
    if service == Apache then apacheStatus.GetOr(Unknown)
    else if service == Nginx then nginxStatus.GetOr(Unknown)
    else Unknown
  }

  datatype Color = LightGreen | LightRed

  /** The colour of a status text: green exactly for an active service. */
  function StatusColor(statusText: string): (c: Color)
    ensures c == LightGreen <==> statusText == "active"
  {
    if statusText == "active" then LightGreen else LightRed
  }

  /** The number of side-by-side sections `draw_info` lays out. */
  function Sections(apacheInstalled: bool, nginxInstalled: bool): (n: nat)
    ensures n == 2 <==> apacheInstalled && nginxInstalled
    ensures n == 1 <==> !(apacheInstalled && nginxInstalled)
  {
    if apacheInstalled && nginxInstalled then 2 else 1
  }

  /** The section Nginx is drawn in: the second when Apache is drawn too. */
  function NginxSection(apacheInstalled: bool): (r: nat)
    ensures r < Sections(apacheInstalled, true)
    ensures apacheInstalled ==> r != 0
  {
    if apacheInstalled then 1 else 0
  }

  class Webserver {
    var hasCommandTx: bool
    var enabled: bool
    var apacheUptime: Option<string>
    var apacheStatus: Option<string>
    var nginxUptime: Option<string>
    var nginxStatus: Option<string>

    /** `Webserver::new`: hidden; a server that is not installed has neither uptime nor status. */
    constructor(host: Host)
      ensures !enabled && !hasCommandTx
      ensures apacheUptime == (if host.apacheInstalled then Some(Uptime(host.showOutput(Apache))) else None)
      ensures apacheStatus == (if host.apacheInstalled then ServiceStatus(host.isActiveOutput(Apache)) else None)
      ensures nginxUptime == (if host.nginxInstalled then Some(Uptime(host.showOutput(Nginx))) else None)
      ensures nginxStatus == (if host.nginxInstalled then ServiceStatus(host.isActiveOutput(Nginx)) else None)
    {
      hasCommandTx := false;
      enabled := false;
      apacheUptime := if host.apacheInstalled then Some(Uptime(host.showOutput(Apache))) else None;
      apacheStatus := if host.apacheInstalled then ServiceStatus(host.isActiveOutput(Apache)) else None;
      nginxUptime := if host.nginxInstalled then Some(Uptime(host.showOutput(Nginx))) else None;
      nginxStatus := if host.nginxInstalled then ServiceStatus(host.isActiveOutput(Nginx)) else None;
    }

    method RegisterActionHandler()
      modifies this
      ensures hasCommandTx && enabled == old(enabled)
      ensures apacheUptime == old(apacheUptime) && apacheStatus == old(apacheStatus)
      ensures nginxUptime == old(nginxUptime) && nginxStatus == old(nginxStatus)
    {
      hasCommandTx := true;
    }

    /** `update`: `ChangeMode(Webserver)` shows the panel; `ChangeMode(Home)` hides it and asks for a cleared screen, shown or not. */
    method Update(action: Action) returns (r: Option<Action>)
      modifies this
      ensures hasCommandTx == old(hasCommandTx)
      ensures apacheUptime == old(apacheUptime) && apacheStatus == old(apacheStatus)
      ensures nginxUptime == old(nginxUptime) && nginxStatus == old(nginxStatus)
      ensures action == ChangeMode(Module.Webserver) ==> enabled && r == None
      ensures action == ChangeMode(Module.Home) ==> !enabled && r == Some(ClearScreen)
      ensures action != ChangeMode(Module.Webserver) && action != ChangeMode(Module.Home) ==> enabled == old(enabled) && r == None
    {
      if action == ChangeMode(Module.Webserver) {
        enabled := true;
      }
      if action == ChangeMode(Module.Home) {
        enabled := false;
        return Some(ClearScreen);
      }
      return None;
    }
  }

  // ---------------------------------------------------------------------------
  // What the panel guarantees

  /** The first line of a text whose first line is plain. */
  lemma FirstOutputLine(line: string, rest: string)
    requires IsPlainLine(line)
    ensures Lines(line + "\n" + rest) != [] && Lines(line + "\n" + rest)[0] == line
  {
    var s := line + "\n" + rest;
    assert forall i :: 0 <= i < |line| ==> s[i] == line[i];
    assert s[|line|] == '\n';
    assert s[..|line|] == line;
  }

  /** Deleting a pattern from a text that starts with it deletes that occurrence first. */
  lemma RemoveLeading(pat: string, t: string)
    requires pat != []
    ensures RemoveAll(pat + t, pat) == RemoveAll(t, pat)
  {
    assert (pat + t)[..|pat|] == pat;
    assert (pat + t)[|pat|..] == t;
  }

  /** For the usual `systemctl show` output, the uptime is the timestamp after the property name. */
  lemma UptimeOfShowOutput(timestamp: string, rest: string)
    requires IsPlainLine(TimestampKey + timestamp) && !Contains(timestamp, TimestampKey)
    ensures Uptime(TimestampKey + timestamp + "\n" + rest) == timestamp
  {
    FirstOutputLine(TimestampKey + timestamp, rest);
    RemoveLeading(TimestampKey, timestamp);
  }

  /** The status shown for a server is "Unknown" exactly when none was read or it read "Unknown"; only "active" shows green. */
  lemma StatusShown(service: string, apacheStatus: Option<string>, nginxStatus: Option<string>)
    requires service == Apache || service == Nginx
    ensures var st := if service == Apache then apacheStatus else nginxStatus;
      && (st.None? ==> StatusText(service, apacheStatus, nginxStatus) == Unknown)
      && (st.Some? ==> StatusText(service, apacheStatus, nginxStatus) == st.value)
      && (StatusColor(StatusText(service, apacheStatus, nginxStatus)) == LightGreen <==> st == Some("active"))
  {
  }
}
