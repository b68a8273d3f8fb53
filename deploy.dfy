/** The deployment helpers of scripts/deploy_staging.py and scripts/deploy_prod.py, and
    the source pull and PLCopen export fallback of scripts/dev_capture.py.

    The online application is the oracle `Session.OnlineApp`: a set of members `hasattr`
    finds and a map from call to the error it raises. Reading `application_state` is a
    call too, so it can raise like any other. The CODESYS `projects` global is the
    oracle `Projects` below. */
module Deploy {
  import opened Text
  import opened Session
  import opened SortedSet

  const StateCall: Call := Call("application_state", None)
  const StartCall: Call := Call("start", None)
  const CreateBootCall: Call := Call("create_boot_application", None)
  const NotAvailable: string := "create_boot_application not available"

  // ---------------------------------------------------------------------------------
  // `_start_if_needed` and `_deploy_boot_app` (scripts/deploy_staging.py)

  /** `str(st).lower().endswith(".run")`: the state names a running application. */
  predicate Running(state: string)
  {
    EndsWith(Lower(state), ".run")
  }

  /** The calls `_start_if_needed` makes: the state is read when the member exists, and
      `start` is called, when exposed, unless that read returned a running state. */
  function StartCalls(exposes: set<string>, failing: map<Call, string>, state: string): seq<Call>
  {
    var read := "application_state" in exposes;
    var running := read && StateCall !in failing && Running(state);
    (if read then [StateCall] else []) + (if !running && "start" in exposes then [StartCall] else [])
  }

  /** An application that reads as running is not started; one that does not is started
      whenever `start` exists, also when reading the state raised. */
  lemma StartOnlyWhenNotRunning(exposes: set<string>, failing: map<Call, string>, state: string)
    ensures "application_state" in exposes && StateCall !in failing && Running(state) ==>
              StartCalls(exposes, failing, state) == [StateCall]
    ensures StartCall in StartCalls(exposes, failing, state) <==>
              "start" in exposes && !("application_state" in exposes && StateCall !in failing && Running(state))
    ensures StartCall in StartCalls(exposes, failing, state) ==>
              StartCalls(exposes, failing, state)[|StartCalls(exposes, failing, state)| - 1] == StartCall
  {
  }

  lemma LowerCharIdempotent(c: char)
    ensures LowerChar(LowerChar(c)) == LowerChar(c)
  {
  }

  /** Lowercasing twice is lowercasing once. */
  lemma LowerIdempotent(s: string)
    ensures Lower(Lower(s)) == Lower(s)
  {
    forall i | 0 <= i < |s|
      ensures Lower(Lower(s))[i] == Lower(s)[i]
    {
      LowerCharIdempotent(s[i]);
    }
  }

  /** The running test ignores letter case: `RUN`, `Run` and `run` all count. */
  lemma RunningIgnoresCase(state: string)
    ensures Running(Lower(state)) == Running(state)
  {
    LowerIdempotent(state);
  }

  /** `_start_if_needed`: always true; failures of the read and of `start` are
      swallowed. */
  method StartIfNeeded(app: OnlineApp) returns (done: bool)
    modifies app`log
    ensures done
    ensures app.log == old(app.log) + StartCalls(app.exposes, app.failing, app.state)
  {
    if "application_state" in app.exposes {
      var e := app.Invoke(StateCall);
      if e.None? && EndsWith(Lower(app.state), ".run") {
        return true;
      }
    }
    if "start" in app.exposes {
      var e := app.Invoke(StartCall);
    }
    return true;
  }

  /** `_deploy_boot_app`: nothing is called when the member is missing; the create call
      is not guarded, so its error escapes (`err`) and the application is not started;
      after a create that returns, the application is started if needed. */
  method DeployBootApp(app: OnlineApp) returns (ok: bool, note: string, err: Option<string>)
    modifies app`log
    ensures "create_boot_application" !in app.exposes ==>
              !ok && note == NotAvailable && err == None && app.log == old(app.log)
    ensures "create_boot_application" in app.exposes && CreateBootCall in app.failing ==>
              !ok && err == Some(app.failing[CreateBootCall]) && app.log == old(app.log) + [CreateBootCall]
    ensures "create_boot_application" in app.exposes && CreateBootCall !in app.failing ==>
              ok && note == "create_boot_application" && err == None &&
              app.log == old(app.log) + [CreateBootCall] + StartCalls(app.exposes, app.failing, app.state)
    ensures ok ==> err == None
  {
    if "create_boot_application" !in app.exposes {
      return false, NotAvailable, None;
    }
    err := app.Invoke(CreateBootCall);
    if err.Some? {
      return false, "", err;
    }
    var _ := StartIfNeeded(app);
    return true, "create_boot_application", None;
  }

  // ---------------------------------------------------------------------------------
  // `_best_effort_restart` and `_deploy_via_boot_application` (scripts/deploy_prod.py)

  /** The call for a name when it is exposed. */
  function IfExposed(name: string, exposes: set<string>): seq<Call>
  {
    if name in exposes then [Call(name, None)] else []
  }

  /** The members of `names` that the application exposes, as argument-less calls, in the
      order of `names`. */
  function ExposedCalls(names: seq<string>, exposes: set<string>): seq<Call>
  {
    if |names| == 0 then []
    else ExposedCalls(names[..|names| - 1], exposes) + IfExposed(names[|names| - 1], exposes)
  }

  lemma {:induction false} ExposedCallsAppend(a: seq<string>, b: seq<string>, exposes: set<string>)
    ensures ExposedCalls(a + b, exposes) == ExposedCalls(a, exposes) + ExposedCalls(b, exposes)
    decreases |b|
  {
    if |b| > 0 {
      var b' := b[..|b| - 1];
      assert (a + b)[..|a + b| - 1] == a + b';
      assert (a + b)[|a + b| - 1] == b[|b| - 1];
      ExposedCallsAppend(a, b', exposes);
    } else {
      assert a + b == a;
    }
  }

  /** A call is made exactly for each exposed name, without an option. */
  lemma {:induction false} ExposedCallsMembers(names: seq<string>, exposes: set<string>, c: Call)
    ensures c in ExposedCalls(names, exposes) <==> c.option == None && c.name in names && c.name in exposes
  {
    if |names| > 0 {
      var init := names[..|names| - 1];
      ExposedCallsMembers(init, exposes, c);
      assert names == init + [names[|names| - 1]];
      assert c.name in names <==> c.name in init || c.name == names[|names| - 1];
    }
  }

  const StopStart: seq<string> := ["stop", "start"]
  const ResetRestart: seq<string> := ["reset", "restart"]

  /** The restart sequence: whichever of stop, start, reset and restart exist, in that
      order. */
  lemma RestartSequence(exposes: set<string>)
    ensures ExposedCalls(StopStart + ResetRestart, exposes) ==
            IfExposed("stop", exposes) + IfExposed("start", exposes) +
            IfExposed("reset", exposes) + IfExposed("restart", exposes)
  {
    ExposedCallsAppend(StopStart, ResetRestart, exposes);
    ExposedPair("stop", "start", exposes);
    ExposedPair("reset", "restart", exposes);
  }

  lemma ExposedPair(a: string, b: string, exposes: set<string>)
    ensures ExposedCalls([a, b], exposes) == IfExposed(a, exposes) + IfExposed(b, exposes)
  {
    assert ExposedCalls([a], exposes) == IfExposed(a, exposes) by {
      assert [a][..0] == [];
    }
    assert [a, b][..1] == [a];
  }

  /** One `for m in names` loop of `_best_effort_restart`: each exposed member is called
      and its failure swallowed. */
  method CallEach(app: OnlineApp, names: seq<string>)
    modifies app`log
    ensures app.log == old(app.log) + ExposedCalls(names, app.exposes)
  {
    var i := 0;
    while i < |names|
      invariant 0 <= i <= |names|
      invariant app.log == old(app.log) + ExposedCalls(names[..i], app.exposes)
    {
      assert names[..i + 1][..i] == names[..i];
      if names[i] in app.exposes {
        var _ := app.Invoke(Call(names[i], None));
      }
      i := i + 1;
    }
    assert names[..i] == names;
  }

  /** `_best_effort_restart`: stop and start, then reset and restart, each only when
      exposed; a failing call does not stop the later ones. */
  method BestEffortRestart(app: OnlineApp)
    modifies app`log
    ensures app.log == old(app.log) + ExposedCalls(StopStart + ResetRestart, app.exposes)
  {
    CallEach(app, StopStart);
    CallEach(app, ResetRestart);
    ExposedCallsAppend(StopStart, ResetRestart, app.exposes);
  }

  /** `_deploy_via_boot_application` */
  method DeployViaBootApplication(app: OnlineApp) returns (ok: bool, note: string)
    modifies app`log
    ensures "create_boot_application" !in app.exposes ==>
              !ok && note == NotAvailable && app.log == old(app.log)
    ensures "create_boot_application" in app.exposes && CreateBootCall in app.failing ==>
              !ok && note == "create_boot_application failed: " + app.failing[CreateBootCall] &&
              app.log == old(app.log) + [CreateBootCall]
    ensures "create_boot_application" in app.exposes && CreateBootCall !in app.failing ==>
              ok && note == "OnlineApp.create_boot_application()" &&
              app.log == old(app.log) + [CreateBootCall] + ExposedCalls(StopStart + ResetRestart, app.exposes)
  {
    if "create_boot_application" !in app.exposes {
      return false, NotAvailable;
    }
    var err := app.Invoke(CreateBootCall);
    if err.Some? {
      return false, "create_boot_application failed: " + err.value;
    }
    BestEffortRestart(app);
    return true, "OnlineApp.create_boot_application()";
  }

  // ---------------------------------------------------------------------------------
  // `_list_methods` (scripts/deploy_prod.py)

  /** A member `_list_methods` reports: its lowercased name contains one of the words. */
  predicate Listed(name: string)
  {
    var l := Lower(name);
    Contains(l, "download") || Contains(l, "boot") || Contains(l, "create") ||
    Contains(l, "start") || Contains(l, "stop") || Contains(l, "reset")
  }

  /** The listed members, in the order `dir` gives them. */
  function Selected(members: seq<string>): seq<string>
  {
    if |members| == 0 then []
    else Selected(members[..|members| - 1]) +
         (if Listed(members[|members| - 1]) then [members[|members| - 1]] else [])
  }

  lemma {:induction false} SelectedMembers(members: seq<string>)
    ensures Elems(Selected(members)) == set n | n in members && Listed(n)
  {
    if |members| > 0 {
      var init, last := members[..|members| - 1], members[|members| - 1];
      SelectedMembers(init);
      assert members == init + [last];
      var tail := if Listed(last) then [last] else [];
      assert Selected(members) == Selected(init) + tail;
      forall x
        ensures x in Elems(Selected(members)) <==> x in members && Listed(x)
      {
        assert x in members <==> x in init || x == last;
        assert x in Selected(members) <==> x in Selected(init) || x in tail;
        assert x in Elems(Selected(init)) <==> x in Selected(init);
        assert x in Elems(Selected(members)) <==> x in Selected(members);
      }
    }
  }

  /** `_list_methods`: exactly the members whose lowercased name contains `download`,
      `boot`, `create`, `start`, `stop` or `reset`, in ascending order. */
  method ListMethods(members: seq<string>) returns (listed: seq<string>)
    ensures StrictlySorted(Verbatim, listed)
    ensures forall n :: n in listed <==> n in members && Listed(n)
  {
    var names: seq<string> := [];
    var i := 0;
    while i < |members|
      invariant 0 <= i <= |members|
      invariant names == Selected(members[..i])
    {
      assert members[..i + 1][..i] == members[..i];
      var ln := Lower(members[i]);
      if Contains(ln, "download") || Contains(ln, "boot") || Contains(ln, "create") ||
         Contains(ln, "start") || Contains(ln, "stop") || Contains(ln, "reset") {
        names := names + [members[i]];
      }
      i := i + 1;
    }
    assert members[..i] == members;
    listed := SortUnique(Verbatim, names);
    SelectedMembers(members);
    assert forall n :: n in listed <==> n in Elems(listed);
  }

  // ---------------------------------------------------------------------------------
  // Source pull and PLCopen export (scripts/dev_capture.py and run_capture_dev in
  // scripts/grab_archive.py)

  const SourceDownload: Call := Call("source_download", None)
  const SourceUpload: Call := Call("source_upload", None)

  /** The pull: `source_download` when it exists, else (where the script has the
      fallback) `source_upload` when it exists, else nothing. */
  function SourceCalls(exposes: set<string>, uploadFallback: bool): seq<Call>
  {
    if "source_download" in exposes then [SourceDownload]
    else if uploadFallback && "source_upload" in exposes then [SourceUpload]
    else []
  }

  /** At most one pull is made, a download is preferred, and an upload is only made as
      the fallback. */
  lemma SourceCallsFacts(exposes: set<string>, uploadFallback: bool)
    ensures |SourceCalls(exposes, uploadFallback)| <= 1
    ensures SourceCalls(exposes, uploadFallback) == [] <==>
              "source_download" !in exposes && !(uploadFallback && "source_upload" in exposes)
    ensures SourceUpload in SourceCalls(exposes, uploadFallback) ==> uploadFallback && "source_download" !in exposes
  {
  }

  /** The pull; its call is not guarded, so its error escapes. */
  method PullSource(app: OnlineApp, uploadFallback: bool) returns (err: Option<string>)
    modifies app`log
    ensures app.log == old(app.log) + SourceCalls(app.exposes, uploadFallback)
    ensures SourceCalls(app.exposes, uploadFallback) == [] ==> err == None
    ensures SourceCalls(app.exposes, uploadFallback) != [] ==>
              err == app.Outcome(SourceCalls(app.exposes, uploadFallback)[0])
  {
    err := None;
    if "source_download" in app.exposes {
      err := app.Invoke(SourceDownload);
    } else if uploadFallback && "source_upload" in app.exposes {
      err := app.Invoke(SourceUpload);
    }
  }

  /** The two ways dev_capture.py exports the PLCopen file. */
  datatype ExportRoute = ViaApplication | ViaProject

  /** The export attempts and whether one of them worked. */
  datatype Export = Export(ok: bool, tried: seq<ExportRoute>)

  /** The export fallback of dev_capture.py, from the errors each export would raise:
      the application's `export_xml`, then, only when that raised, the project's. */
  function ExportFallback(appErr: Option<string>, projErr: Option<string>): (r: Export)
    ensures r.ok <==> appErr.None? || projErr.None?
    ensures |r.tried| >= 1 && r.tried[0] == ViaApplication
    ensures ViaProject in r.tried <==> appErr.Some?
    ensures r.ok ==> (r.tried[|r.tried| - 1] == ViaApplication ==> appErr.None?) &&
                     (r.tried[|r.tried| - 1] == ViaProject ==> projErr.None?)
  {
    if appErr.None? then Export(true, [ViaApplication])
    else Export(projErr.None?, [ViaApplication, ViaProject])
  }

  // ---------------------------------------------------------------------------------
  // The `projects` global: `_close_projects_best_effort`, `_open_project_primary` and
  // `_open_archive_as_project` (scripts/deploy_staging.py)

  datatype ProjectCall = Close | Open(path: string) | OpenArchive(path: string)

  const CannotOpenArchive: string :=
    "Could not open archive via scripting API (need different method on this install)"

  /** The close `_close_projects_best_effort` makes for a primary project `p`. */
  function Closing(p: Option<string>, closable: bool): seq<ProjectCall>
  {
    if p.Some? && closable then [Close] else []
  }

  /** The primary project after that close: gone only when the close returned. */
  function AfterClose(p: Option<string>, closable: bool, failing: map<ProjectCall, string>): Option<string>
  {
    if p.Some? && closable && Close !in failing then None else p
  }

  /** The calls `_open_archive_as_project` makes for an existing archive `path`. */
  function ArchiveCalls(exposes: set<string>, closable: bool, failing: map<ProjectCall, string>,
                        p: Option<string>, path: string): seq<ProjectCall>
  {
    if "open_archive" in exposes then
      Closing(p, closable) + [OpenArchive(path)] +
      (if OpenArchive(path) !in failing then [] else Closing(AfterClose(p, closable, failing), closable) + [Open(path)])
    else Closing(p, closable) + [Open(path)]
  }

  /** The archive opens by one of the two routes. */
  predicate ArchiveOpens(exposes: set<string>, failing: map<ProjectCall, string>, path: string)
  {
    ("open_archive" in exposes && OpenArchive(path) !in failing) || Open(path) !in failing
  }

  /** `open_archive` is tried first, and only when it exists; `open` is tried only when
      `open_archive` is missing or raised; at most one close precedes each open. */
  lemma ArchiveOrder(exposes: set<string>, closable: bool, failing: map<ProjectCall, string>,
                     p: Option<string>, path: string)
    ensures var cs := ArchiveCalls(exposes, closable, failing, p, path);
            (OpenArchive(path) in cs <==> "open_archive" in exposes) &&
            (Open(path) in cs <==> !("open_archive" in exposes && OpenArchive(path) !in failing)) &&
            ("open_archive" in exposes ==> cs[|Closing(p, closable)|] == OpenArchive(path)) &&
            cs[|cs| - 1] in {OpenArchive(path), Open(path)}
  {
  }

  class Projects {
    /** Members of `projects` that `hasattr` finds. */
    const exposes: set<string>
    /** Whether an open primary project has `close`. */
    const closable: bool
    /** Calls that raise, with their error text. */
    const failing: map<ProjectCall, string>
    /** The paths `os.path.isfile` accepts. */
    const files: set<string>
    /** `projects.primary`, by path. */
    var primary: Option<string>
    /** The calls made, in order. */
    var log: seq<ProjectCall>

    constructor (exposes: set<string>, closable: bool, failing: map<ProjectCall, string>,
                 files: set<string>, primary: Option<string>)
      ensures this.exposes == exposes && this.closable == closable && this.failing == failing
      ensures this.files == files && this.primary == primary && log == []
    {
      this.exposes := exposes;
      this.closable := closable;
      this.failing := failing;
      this.files := files;
      this.primary := primary;
      log := [];
    }

    /** `_close_projects_best_effort`: close the primary project when it has `close`;
        a close that raises leaves it open and is swallowed. */
    method CloseBestEffort()
      modifies this`log, this`primary
      ensures log == old(log) + Closing(old(primary), closable)
      ensures primary == AfterClose(old(primary), closable, failing)
    {
      if primary.Some? && closable {
        log := log + [Close];
        if Close !in failing {
          primary := None;
        }
      }
    }

    /** `projects.open(path, primary=True)` */
    method OpenPath(path: string) returns (err: Option<string>)
      modifies this`log, this`primary
      ensures log == old(log) + [Open(path)]
      ensures Open(path) in failing ==> err == Some(failing[Open(path)]) && primary == old(primary)
      ensures Open(path) !in failing ==> err == None && primary == Some(path)
    {
      log := log + [Open(path)];
      if Open(path) in failing {
        return Some(failing[Open(path)]);
      }
      primary := Some(path);
      return None;
    }

    /** `_open_project_primary`: close, then open `path` unless a primary project is
        still open, in which case that project is the one returned. */
    method OpenPrimary(path: string) returns (proj: string, err: Option<string>)
      modifies this`log, this`primary
      ensures var kept := AfterClose(old(primary), closable, failing);
              kept.Some? ==> proj == kept.value && err == None && primary == kept &&
                             log == old(log) + Closing(old(primary), closable)
      ensures var kept := AfterClose(old(primary), closable, failing);
              kept.None? ==> log == old(log) + Closing(old(primary), closable) + [Open(path)] &&
                             (Open(path) in failing ==> err == Some(failing[Open(path)])) &&
                             (Open(path) !in failing ==> err == None && proj == path && primary == Some(path))
    {
      CloseBestEffort();
      if primary.Some? {
        return primary.value, None;
      }
      err := OpenPath(path);
      proj := path;
    }

    /** `_open_archive_as_project` */
    method OpenArchiveAsProject(path: string) returns (proj: string, err: Option<string>)
      modifies this`log, this`primary
      ensures path !in files ==>
                err == Some("Latest archive not found: " + path) && log == old(log) && primary == old(primary)
      ensures path in files ==> log == old(log) + ArchiveCalls(exposes, closable, failing, old(primary), path)
      ensures path in files ==> (err.None? <==> ArchiveOpens(exposes, failing, path))
      ensures path in files && err.Some? ==> err == Some(CannotOpenArchive)
      ensures err.None? ==> proj == path && primary == Some(path)
    {
      if path !in files {
        return "", Some("Latest archive not found: " + path);
      }
      ghost var p0 := primary;
      if "open_archive" in exposes {
        CloseBestEffort();
        log := log + [OpenArchive(path)];
        if OpenArchive(path) !in failing {
          primary := Some(path);
          return path, None;
        }
      }
      CloseBestEffort();
      var e := OpenPath(path);
      if e.None? {
        return path, None;
      }
      return "", Some(CannotOpenArchive);
    }
  }
}
