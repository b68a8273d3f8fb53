/** The two actions of scripts/grab_archive.py, `run_capture_dev` and `run_deploy`.

    An action either returns its `(ok, message)` pair or raises; `Step` says which. The
    wait for `active_application` is its outcome, `appReady`; the time stamp of the
    commit message is the parameter `stamp`. */
module Orchestrator {
  import opened Text
  import opened Session
  import opened Probe
  import opened Deploy
  import opened Git
  import opened Tiers

  const Timeout: string := "active_application timeout"

  /** The result `run_deploy` builds from the probe. */
  function Downloaded(p: Report): (r: Step)
    ensures r.Done? && r.ok == p.ok
    ensures p.ok ==> r.msg == "deployed (" + p.message + ")"
    ensures !p.ok ==> r.msg == "download failed (" + p.message + ")"
  {
    if p.ok then Done(true, "deployed (" + p.message + ")")
    else Done(false, "download failed (" + p.message + ")")
  }

  /** `run_deploy` reports a deployment exactly when `OnlineChangeOption` is defined and
      some exposed download method, with some option or with no arguments, returns. */
  lemma DeployedIff(exposes: set<string>, failing: map<Call, string>, options: Option<set<string>>)
    ensures Downloaded(Probe.Probe(exposes, failing, options)).ok <==>
              options.Some? && !AllFail(Candidates(MethodNames, OptionNames, exposes, options.value), failing)
  {
    ProbeSucceedsIff(exposes, failing, options);
  }

  /** Whether `_open_project_primary(path)` raises: no project stays open after the
      close, and opening `path` raises. */
  predicate OpenRaises(projects: Projects, path: string)
    reads projects
  {
    AfterClose(projects.primary, projects.closable, projects.failing).None? && Open(path) in projects.failing
  }

  /** The teardown's calls on the device once it reads as connected. */
  function DisconnectCalls(exposes: set<string>): seq<string>
  {
    if "disconnect" in exposes then ["disconnect"] else []
  }

  /** The teardown's calls on the application. */
  function LogoutCalls(exposes: set<string>): seq<Call>
  {
    if "logout" in exposes then [LogoutCall] else []
  }

  /** What the source pull of `run_capture_dev` raises, if anything. */
  function PullError(app: OnlineApp): Option<string>
    reads app
  {
    var pull := SourceCalls(app.exposes, false);
    if pull == [] then None else app.Outcome(pull[0])
  }

  // ---------------------------------------------------------------------------------
  // `run_deploy`

  /** `run_deploy`: the git gate, then the deployment itself. */
  method RunDeploy(repo: Repo, projects: Projects, app: OnlineApp, dev: Device, appReady: bool,
                   branch: string, path: string, user: string, pw: string, polls: nat,
                   options: Option<set<string>>) returns (step: Step)
    modifies repo`log, projects`log, projects`primary, app`log, app`loggedIn,
             dev`log, dev`connectErrors, dev`linking, dev`connected, dev`linkDelay
    ensures repo.log == old(repo.log) + GateRun(repo.answer, |old(repo.log)|, branch).trace
    ensures var g := GateRun(repo.answer, |old(repo.log)|, branch);
            !g.proceed ==> step == Done(g.ok, g.note) && projects.log == old(projects.log) &&
                           app.log == old(app.log) && dev.log == old(dev.log)
    ensures GateRun(repo.answer, |old(repo.log)|, branch).proceed ==>
              var kept := AfterClose(old(projects.primary), projects.closable, projects.failing);
              projects.log == old(projects.log) + Closing(old(projects.primary), projects.closable) +
                              (if kept.None? then [Open(path)] else [])
    ensures GateRun(repo.answer, |old(repo.log)|, branch).proceed && old(OpenRaises(projects, path)) ==>
              step == Raised(projects.failing[Open(path)]) && app.log == old(app.log) && dev.log == old(dev.log)
    ensures GateRun(repo.answer, |old(repo.log)|, branch).proceed && !old(OpenRaises(projects, path)) && !appReady ==>
              step == Done(false, Timeout) && app.log == old(app.log) && dev.log == old(dev.log)
    ensures GateRun(repo.answer, |old(repo.log)|, branch).proceed && !old(OpenRaises(projects, path)) && appReady &&
            old(SessionError(app, dev, SingleConnect, polls, options)).Some? ==>
              step == Raised(old(SessionError(app, dev, SingleConnect, polls, options)).value) &&
              app.log == old(app.log) + (if old(ComesUp(dev, SingleConnect, polls)) then LoginCalls(old(app.loggedIn), options) else []) &&
              dev.log == old(dev.log) + old(ConnectCalls(dev, SingleConnect, user, pw))
    ensures GateRun(repo.answer, |old(repo.log)|, branch).proceed && !old(OpenRaises(projects, path)) && appReady &&
            old(SessionError(app, dev, SingleConnect, polls, options)).None? ==>
              var p := Probe.Probe(app.exposes, app.failing, options);
              step == Downloaded(p) &&
              app.log == old(app.log) + LoginCalls(old(app.loggedIn), options) + p.calls + LogoutCalls(app.exposes) &&
              dev.log == old(dev.log) + old(ConnectCalls(dev, SingleConnect, user, pw)) + DisconnectCalls(dev.exposes)
  {
    var proceed, ok, note := repo.DeployGate(branch);
    if !proceed {
      return Done(ok, note);
    }
    step := DeployPastGate(projects, app, dev, appReady, path, user, pw, polls, options);
  }

  /** `run_deploy` past the gate: open the project, wait for the application, connect
      (whose errors escape before the `try`), download and always tear down. */
  method DeployPastGate(projects: Projects, app: OnlineApp, dev: Device, appReady: bool,
                        path: string, user: string, pw: string, polls: nat,
                        options: Option<set<string>>) returns (step: Step)
    modifies projects`log, projects`primary, app`log, app`loggedIn,
             dev`log, dev`connectErrors, dev`linking, dev`connected, dev`linkDelay
    ensures var kept := AfterClose(old(projects.primary), projects.closable, projects.failing);
            projects.log == old(projects.log) + Closing(old(projects.primary), projects.closable) +
                            (if kept.None? then [Open(path)] else [])
    ensures old(OpenRaises(projects, path)) ==>
              step == Raised(projects.failing[Open(path)]) && app.log == old(app.log) && dev.log == old(dev.log)
    ensures !old(OpenRaises(projects, path)) && !appReady ==>
              step == Done(false, Timeout) && app.log == old(app.log) && dev.log == old(dev.log)
    ensures !old(OpenRaises(projects, path)) && appReady &&
            old(SessionError(app, dev, SingleConnect, polls, options)).Some? ==>
              step == Raised(old(SessionError(app, dev, SingleConnect, polls, options)).value) &&
              app.log == old(app.log) + (if old(ComesUp(dev, SingleConnect, polls)) then LoginCalls(old(app.loggedIn), options) else []) &&
              dev.log == old(dev.log) + old(ConnectCalls(dev, SingleConnect, user, pw))
    ensures !old(OpenRaises(projects, path)) && appReady &&
            old(SessionError(app, dev, SingleConnect, polls, options)).None? ==>
              var p := Probe.Probe(app.exposes, app.failing, options);
              step == Downloaded(p) &&
              app.log == old(app.log) + LoginCalls(old(app.loggedIn), options) + p.calls + LogoutCalls(app.exposes) &&
              dev.log == old(dev.log) + old(ConnectCalls(dev, SingleConnect, user, pw)) + DisconnectCalls(dev.exposes)
  {
    var proj, openErr := projects.OpenPrimary(path);
    if openErr.Some? {
      return Raised(openErr.value);
    }
    if !appReady {
      return Done(false, Timeout);
    }
    var err := ConnectAndLogin(app, dev, SingleConnect, user, pw, polls, options);
    if err.Some? {
      return Raised(err.value);
    }
    var downloaded, used := TryDownload(app, options);
    step := if downloaded then Done(true, "deployed (" + used + ")") else Done(false, "download failed (" + used + ")");
    DisconnectBestEffort(app, dev);
  }

  // ---------------------------------------------------------------------------------
  // `run_capture_dev`

  /** `run_capture_dev`: open the project, wait for the application, connect, pull the
      source, export, commit everything on `dev`, and tear down once connected.
      `exportErr` is what `export_xml` raises, if anything. */
  method RunCaptureDev(repo: Repo, projects: Projects, app: OnlineApp, dev: Device, appReady: bool,
                       path: string, user: string, pw: string, polls: nat, options: Option<set<string>>,
                       exportErr: Option<string>, stamp: string) returns (step: Step)
    modifies repo`log, projects`log, projects`primary, app`log, app`loggedIn,
             dev`log, dev`connectErrors, dev`linking, dev`connected, dev`linkDelay
    ensures var kept := AfterClose(old(projects.primary), projects.closable, projects.failing);
            projects.log == old(projects.log) + Closing(old(projects.primary), projects.closable) +
                            (if kept.None? then [Open(path)] else [])
    ensures old(OpenRaises(projects, path)) ==>
              step == Raised(projects.failing[Open(path)]) && repo.log == old(repo.log) &&
              app.log == old(app.log) && dev.log == old(dev.log)
    ensures !old(OpenRaises(projects, path)) && !appReady ==>
              step == Done(false, Timeout) && repo.log == old(repo.log) &&
              app.log == old(app.log) && dev.log == old(dev.log)
    ensures !old(OpenRaises(projects, path)) && appReady &&
            old(SessionError(app, dev, SingleConnect, polls, options)).Some? ==>
              step == Raised(old(SessionError(app, dev, SingleConnect, polls, options)).value) &&
              repo.log == old(repo.log) &&
              app.log == old(app.log) + (if old(ComesUp(dev, SingleConnect, polls)) then LoginCalls(old(app.loggedIn), options) else []) &&
              dev.log == old(dev.log) + old(ConnectCalls(dev, SingleConnect, user, pw))
    ensures !old(OpenRaises(projects, path)) && appReady &&
            old(SessionError(app, dev, SingleConnect, polls, options)).None? ==>
              app.log == old(app.log) + LoginCalls(old(app.loggedIn), options) + SourceCalls(app.exposes, false) +
                         LogoutCalls(app.exposes) &&
              dev.log == old(dev.log) + old(ConnectCalls(dev, SingleConnect, user, pw)) + DisconnectCalls(dev.exposes)
    ensures !old(OpenRaises(projects, path)) && appReady &&
            old(SessionError(app, dev, SingleConnect, polls, options)).None? && PullError(app).Some? ==>
              step == Raised(PullError(app).value) && repo.log == old(repo.log)
    ensures !old(OpenRaises(projects, path)) && appReady &&
            old(SessionError(app, dev, SingleConnect, polls, options)).None? && PullError(app).None? && exportErr.Some? ==>
              step == Raised(exportErr.value) && repo.log == old(repo.log)
    ensures !old(OpenRaises(projects, path)) && appReady &&
            old(SessionError(app, dev, SingleConnect, polls, options)).None? && PullError(app).None? && exportErr.None? ==>
              var c := CommitRun(repo.answer, |old(repo.log)|, "dev", "DEV capture " + stamp);
              repo.log == old(repo.log) + c.trace && step == Done(c.ok, c.note)
  {
    var proj, openErr := projects.OpenPrimary(path);
    if openErr.Some? {
      return Raised(openErr.value);
    }
    if !appReady {
      return Done(false, Timeout);
    }
    var err := ConnectAndLogin(app, dev, SingleConnect, user, pw, polls, options);
    if err.Some? {
      return Raised(err.value);
    }
    step := CaptureOnline(repo, app, dev, exportErr, stamp);
  }

  /** The `try` of `run_capture_dev`: pull the source, export, commit everything on
      `dev`, and tear down in the `finally` whatever happened. */
  method CaptureOnline(repo: Repo, app: OnlineApp, dev: Device, exportErr: Option<string>, stamp: string)
    returns (step: Step)
    modifies repo`log, app`log, app`loggedIn, dev`log, dev`connected, dev`linking
    ensures app.log == old(app.log) + SourceCalls(app.exposes, false) + LogoutCalls(app.exposes)
    ensures dev.log == old(dev.log) + (if old(dev.Connected()) then DisconnectCalls(dev.exposes) else [])
    ensures PullError(app).Some? ==> step == Raised(PullError(app).value) && repo.log == old(repo.log)
    ensures PullError(app).None? && exportErr.Some? ==> step == Raised(exportErr.value) && repo.log == old(repo.log)
    ensures PullError(app).None? && exportErr.None? ==>
              var c := CommitRun(repo.answer, |old(repo.log)|, "dev", "DEV capture " + stamp);
              repo.log == old(repo.log) + c.trace && step == Done(c.ok, c.note)
  {
    var pullErr := PullSource(app, false);
    if pullErr.Some? {
      step := Raised(pullErr.value);
    } else if exportErr.Some? {
      step := Raised(exportErr.value);
    } else {
      var ok, note := repo.CommitAllIfDirty("dev", "DEV capture " + stamp);
      step := Done(ok, note);
    }
    DisconnectBestEffort(app, dev);
  }
}
