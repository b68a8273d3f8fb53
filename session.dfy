/** The CODESYS online layer as the four scripts use it: a device that is connected or
    not, an online application that is logged in or not, and the session helpers
    `_connect_and_login` and `_disconnect_best_effort`.

    The runtime is an oracle. Which members `hasattr` finds is a fixed set per object,
    which calls raise (and with what error text) is a fixed map, `connect()` raises the
    errors of a script in order, and a successful `connect()` brings the link up only
    after a number of observations. Waiting for the link is a bounded number of
    observations instead of a wall-clock timeout. */
module Session {
  import opened Text

  /** A call on the online application: the member's name and, for download and login
      calls, the name of the `OnlineChangeOption` member passed. */
  datatype Call = Call(name: string, option: Option<string>)

  /** `_connect_and_login` in scripts/grab_archive.py calls `connect()` once and lets its
      error escape; the other three scripts try up to three times. The two also word
      their errors differently. */
  datatype Flavor = SingleConnect | RetryConnect

  const ConnectTries: nat := 3

  /** The outcome of the retry loop: how many `connect()` calls it made, the error of the
      last call that raised, and whether the last call returned normally. */
  datatype Attempts = Attempts(calls: nat, lastErr: Option<string>, linked: bool)

  function Repeat(x: string, n: nat): (r: seq<string>)
    ensures |r| == n && forall i :: 0 <= i < n ==> r[i] == x
  {
    if n == 0 then [] else Repeat(x, n - 1) + [x]
  }

  /** The retry loop over `n` remaining attempts on a device that is not connected, when
      the coming `connect()` calls raise `errs` in order and then succeed. */
  function Tries(errs: seq<string>, n: nat): (r: Attempts)
  {
    if n == 0 then Attempts(0, None, false)
    else if |errs| == 0 then Attempts(1, None, true)
    else
      var rest := Tries(errs[1..], n - 1);
      Attempts(rest.calls + 1, if rest.lastErr.Some? then rest.lastErr else Some(errs[0]), rest.linked)
  }

  function Min(a: nat, b: nat): nat { if a <= b then a else b }

  /** The retry loop stops at the first call that returns, makes at most `n` calls, and
      reports the error of the last call that raised (none if no call raised). */
  lemma {:induction false} TriesClosedForm(errs: seq<string>, n: nat)
    ensures Tries(errs, n).calls == (if |errs| < n then |errs| + 1 else n)
    ensures Tries(errs, n).linked <==> |errs| < n
    ensures Tries(errs, n).lastErr == (if Min(|errs|, n) == 0 then None else Some(errs[Min(|errs|, n) - 1]))
    decreases n
  {
    if n > 0 && |errs| > 0 {
      TriesClosedForm(errs[1..], n - 1);
    }
  }

  /** Calls `_connect_and_login` makes on the device before connecting: credentials are
      injected only when both the user and the password are non-empty, and the second
      injection only when the device offers it. */
  function CredentialCalls(user: string, pw: string, exposes: set<string>): (r: seq<string>)
    ensures (user == "" || pw == "") ==> r == []
    ensures user != "" && pw != "" ==> |r| >= 1 && r[0] == "set_specific_credentials"
    ensures "set_credentials_for_initial_user" in r <==>
              user != "" && pw != "" && "set_credentials_for_initial_user" in exposes
  {
    if user != "" && pw != "" then
      ["set_specific_credentials"] +
      (if "set_credentials_for_initial_user" in exposes then ["set_credentials_for_initial_user"] else [])
    else []
  }

  /** The error raised when the link is not up after the wait. `repr(None)` is `None`. */
  function NotConnected(flavor: Flavor, lastErr: Option<string>): string
  {
    match flavor
    case SingleConnect => "Device did not connect within timeout"
    case RetryConnect => "Device did not connect (last_err=" + (if lastErr.Some? then lastErr.value else "None") + ")"
  }

  /** The error raised when login is needed and `OnlineChangeOption` is not defined. */
  function OptionMissing(flavor: Flavor): string
  {
    match flavor
    case SingleConnect => "OnlineChangeOption not found in globals()"
    case RetryConnect => "OnlineChangeOption missing"
  }

  /** The error raised when `OnlineChangeOption` is defined but has no `Keep` member: the
      attribute lookup raises before `login` is called. */
  const KeepMissing: string := "OnlineChangeOption has no attribute 'Keep'"

  /** Whether the login step calls `login`: the session is logged out and
      `OnlineChangeOption.Keep` exists. `options` holds the members of
      `OnlineChangeOption`, or nothing when it is not defined. */
  predicate CallsLogin(loggedIn: bool, options: Option<set<string>>)
  {
    !loggedIn && options.Some? && "Keep" in options.value
  }

  /** What the login step raises, given whether the session was logged in, the members
      of `OnlineChangeOption`, what `login` raises and whether a `login` that returns
      logs the session in. It raises nothing exactly when the session was logged in
      already or `login` is called, returns and works. */
  function LoginError(flavor: Flavor, loggedIn: bool, options: Option<set<string>>,
                      outcome: Option<string>, works: bool): (r: Option<string>)
    ensures r.None? <==> loggedIn || (CallsLogin(loggedIn, options) && outcome.None? && works)
    ensures r.Some? && !CallsLogin(loggedIn, options) ==>
              r.value == OptionMissing(flavor) || r.value == KeepMissing
  {
    if loggedIn then None
    else if options.None? then Some(OptionMissing(flavor))
    else if "Keep" !in options.value then Some(KeepMissing)
    else if outcome.Some? then outcome
    else if works then None
    else Some("Login failed")
  }

  const LoginCall: Call := Call("login", Some("Keep"))
  const LogoutCall: Call := Call("logout", None)

  /** The calls the login step makes on the application. */
  function LoginCalls(loggedIn: bool, options: Option<set<string>>): seq<Call>
  {
    if CallsLogin(loggedIn, options) then [LoginCall] else []
  }

  class Device {
    /** Members `hasattr(dev, …)` finds, such as "connected", "disconnect" and
        "set_credentials_for_initial_user". */
    const exposes: set<string>
    /** Device calls other than `connect()` that raise, with their error text. */
    const failing: map<string, string>
    var connected: bool
    /** Errors the coming `connect()` calls raise, in order; once used up, `connect()` returns. */
    var connectErrors: seq<string>
    /** A `connect()` has returned and the link is on its way up. */
    var linking: bool
    /** Observations still needed, once linking, before the link reads as up. */
    var linkDelay: nat
    /** Names of the calls made on the device, in order. */
    var log: seq<string>

    constructor (exposes: set<string>, failing: map<string, string>, connected: bool,
                 connectErrors: seq<string>, linkDelay: nat)
      ensures this.exposes == exposes && this.failing == failing && this.connected == connected
      ensures this.connectErrors == connectErrors && this.linkDelay == linkDelay
      ensures !linking && log == []
    {
      this.exposes := exposes;
      this.failing := failing;
      this.connected := connected;
      this.connectErrors := connectErrors;
      this.linkDelay := linkDelay;
      linking := false;
      log := [];
    }

    /** `hasattr(dev, "connected") and dev.connected` */
    predicate Connected()
      reads this
    {
      "connected" in exposes && connected
    }

    /** A call that swallows nothing: it is logged, and raises if it is a failing one. */
    method Invoke(name: string) returns (err: Option<string>)
      modifies this`log
      ensures log == old(log) + [name]
      ensures err == (if name in failing then Some(failing[name]) else None)
    {
      log := log + [name];
      err := if name in failing then Some(failing[name]) else None;
    }

    method Connect() returns (err: Option<string>)
      modifies this`log, this`connectErrors, this`linking
      ensures log == old(log) + ["connect"]
      ensures |old(connectErrors)| > 0 ==>
                err == Some(old(connectErrors)[0]) && connectErrors == old(connectErrors)[1..] && linking == old(linking)
      ensures |old(connectErrors)| == 0 ==> err == None && connectErrors == [] && linking
    {
      log := log + ["connect"];
      if |connectErrors| > 0 {
        err := Some(connectErrors[0]);
        connectErrors := connectErrors[1..];
      } else {
        err := None;
        linking := true;
      }
    }

    /** One observation of the device while waiting: a link on its way up comes closer. */
    method Observe()
      modifies this`connected, this`linking, this`linkDelay
      ensures old(linking) && old(linkDelay) == 0 ==> connected && !linking
      ensures old(linking) && old(linkDelay) > 0 ==>
                connected == old(connected) && linking && linkDelay == old(linkDelay) - 1
      ensures !old(linking) ==> connected == old(connected) && !linking && linkDelay == old(linkDelay)
    {
      if linking {
        if linkDelay == 0 {
          connected := true;
          linking := false;
        } else {
          linkDelay := linkDelay - 1;
        }
      }
    }

    method Disconnect() returns (err: Option<string>)
      modifies this`log, this`connected, this`linking
      ensures log == old(log) + ["disconnect"]
      ensures err == (if "disconnect" in failing then Some(failing["disconnect"]) else None)
      ensures err.None? ==> !connected && !linking
      ensures err.Some? ==> connected == old(connected) && linking == old(linking)
    {
      log := log + ["disconnect"];
      if "disconnect" in failing {
        err := Some(failing["disconnect"]);
      } else {
        err := None;
        connected := false;
        linking := false;
      }
    }
  }

  class OnlineApp {
    /** Members `hasattr(online_app, …)` finds. */
    const exposes: set<string>
    /** Calls that raise, with their error text. */
    const failing: map<Call, string>
    /** Whether `login(OnlineChangeOption.Keep, False)`, when it returns, leaves the
        session logged in. */
    const loginWorks: bool
    /** `online_app.application_state` as text. */
    const state: string
    var loggedIn: bool
    /** The calls made, in order. */
    var log: seq<Call>

    constructor (exposes: set<string>, failing: map<Call, string>, loginWorks: bool, state: string, loggedIn: bool)
      ensures this.exposes == exposes && this.failing == failing && this.loginWorks == loginWorks
      ensures this.state == state && this.loggedIn == loggedIn && log == []
    {
      this.exposes := exposes;
      this.failing := failing;
      this.loginWorks := loginWorks;
      this.state := state;
      this.loggedIn := loggedIn;
      log := [];
    }

    function Outcome(c: Call): Option<string>
      reads this
    {
      if c in failing then Some(failing[c]) else None
    }

    method Invoke(c: Call) returns (err: Option<string>)
      modifies this`log
      ensures log == old(log) + [c]
      ensures err == Outcome(c)
    {
      log := log + [c];
      err := Outcome(c);
    }

    method Login() returns (err: Option<string>)
      modifies this`log, this`loggedIn
      ensures log == old(log) + [LoginCall]
      ensures err == Outcome(LoginCall)
      ensures loggedIn == (if err.None? then loginWorks else old(loggedIn))
    {
      log := log + [LoginCall];
      err := Outcome(LoginCall);
      if err.None? {
        loggedIn := loginWorks;
      }
    }

    method Logout() returns (err: Option<string>)
      modifies this`log, this`loggedIn
      ensures log == old(log) + [LogoutCall]
      ensures err == Outcome(LogoutCall)
      ensures loggedIn == (err.Some? && old(loggedIn))
    {
      log := log + [LogoutCall];
      err := Outcome(LogoutCall);
      if err.None? {
        loggedIn := false;
      }
    }
  }

  /** Credential injection: both calls' failures are only warned about. */
  method InjectCredentials(dev: Device, user: string, pw: string)
    modifies dev`log
    ensures dev.log == old(dev.log) + CredentialCalls(user, pw, dev.exposes)
  {
    if user != "" && pw != "" {
      var e1 := dev.Invoke("set_specific_credentials");
      if "set_credentials_for_initial_user" in dev.exposes {
        var e2 := dev.Invoke("set_credentials_for_initial_user");
      }
    }
  }

  /** The connect loop of scripts/dev_capture.py, scripts/deploy_staging.py and
      scripts/deploy_prod.py: up to `tries` attempts, leaving at once when the device
      already reads as connected, and at the first `connect()` that returns. */
  method ConnectLoop(dev: Device, tries: nat) returns (lastErr: Option<string>)
    modifies dev`log, dev`connectErrors, dev`linking
    ensures old(dev.Connected()) ==>
              lastErr == None && dev.log == old(dev.log) && dev.connectErrors == old(dev.connectErrors) &&
              dev.linking == old(dev.linking)
    ensures !old(dev.Connected()) ==>
              var r := Tries(old(dev.connectErrors), tries);
              lastErr == r.lastErr && dev.log == old(dev.log) + Repeat("connect", r.calls) &&
              dev.connectErrors == old(dev.connectErrors)[Min(|old(dev.connectErrors)|, r.calls)..] &&
              dev.linking == (r.linked || old(dev.linking))
  {
    ghost var e0 := dev.connectErrors;
    TriesClosedForm(e0, tries);
    lastErr := None;
    var attempt := 0;
    while attempt < tries
      invariant attempt <= tries && attempt <= |e0|
      invariant dev.connectErrors == e0[attempt..]
      invariant lastErr == (if attempt == 0 then None else Some(e0[attempt - 1]))
      invariant dev.log == old(dev.log) + Repeat("connect", attempt)
      invariant dev.linking == old(dev.linking) && dev.connected == old(dev.connected)
      invariant attempt > 0 ==> !old(dev.Connected())
    {
      if dev.Connected() {
        return;
      }
      var err := dev.Connect();
      if err.None? {
        return;
      }
      lastErr := err;
      attempt := attempt + 1;
    }
  }

  /** The wait for the link: the device is observed until it reads as connected, at most
      `polls` times. It reads as connected afterwards exactly when it already did, or
      the link was on its way up and needed fewer observations than allowed. */
  method WaitConnected(dev: Device, polls: nat)
    modifies dev`connected, dev`linking, dev`linkDelay
    ensures dev.Connected() <==>
              "connected" in dev.exposes &&
              (old(dev.connected) || (old(dev.linking) && old(dev.linkDelay) < polls))
  {
    var k := 0;
    while k < polls && !dev.Connected()
      invariant k <= polls
      invariant dev.connected == (old(dev.connected) || (old(dev.linking) && old(dev.linkDelay) < k))
      invariant dev.linking ==> old(dev.linking) && k <= old(dev.linkDelay) && dev.linkDelay == old(dev.linkDelay) - k
      invariant old(dev.linking) && k <= old(dev.linkDelay) ==> dev.linking
    {
      dev.Observe();
      k := k + 1;
    }
  }

  /** The login step: only when not logged in, once, with `OnlineChangeOption.Keep`,
      and an error when the session is still logged out afterwards. */
  method Login(app: OnlineApp, flavor: Flavor, options: Option<set<string>>) returns (err: Option<string>)
    modifies app`log, app`loggedIn
    ensures old(app.loggedIn) ==> err == None && app.log == old(app.log) && app.loggedIn
    ensures !old(app.loggedIn) && options.None? ==> err == Some(OptionMissing(flavor)) && app.log == old(app.log)
    ensures !old(app.loggedIn) && options.Some? && "Keep" !in options.value ==>
              err == Some(KeepMissing) && app.log == old(app.log)
    ensures CallsLogin(old(app.loggedIn), options) ==>
              app.log == old(app.log) + [LoginCall] &&
              err == (if app.Outcome(LoginCall).Some? then app.Outcome(LoginCall)
                      else if app.loginWorks then None else Some("Login failed"))
    ensures err == LoginError(flavor, old(app.loggedIn), options, app.Outcome(LoginCall), app.loginWorks)
    ensures err.None? <==> app.loggedIn
  {
    if app.loggedIn {
      return None;
    }
    if options.None? {
      return Some(OptionMissing(flavor));
    }
    if "Keep" !in options.value {
      return Some(KeepMissing);
    }
    err := app.Login();
    if err.None? && !app.loggedIn {
      err := Some("Login failed");
    }
  }

  /** Whether the connect step raises: the one `connect()` of `_connect_and_login` in
      scripts/dev_capture.py, made on a device that does not read as connected, raises.
      The retrying flavour never raises from its connect loop. */
  predicate ConnectRaises(dev: Device, flavor: Flavor)
    reads dev
  {
    flavor == SingleConnect && !dev.Connected() && |dev.connectErrors| > 0
  }

  /** Whether a `connect()` of the connect step returns, which starts the link. */
  predicate ConnectReturns(dev: Device, flavor: Flavor)
    reads dev
  {
    !dev.Connected() &&
    (if flavor == SingleConnect then |dev.connectErrors| == 0 else Tries(dev.connectErrors, ConnectTries).linked)
  }

  /** Whether the device reads as connected after the connect step and at most `polls`
      observations: it already was, or the link is (or, after the connect step, gets) on
      its way up and needs fewer observations than allowed. */
  predicate LinkUp(dev: Device, flavor: Flavor, polls: nat)
    reads dev
  {
    "connected" in dev.exposes &&
    (dev.connected || ((dev.linking || ConnectReturns(dev, flavor)) && dev.linkDelay < polls))
  }

  /** Whether the device reads as connected once `_connect_and_login` is past its wait:
      the connect step does not raise and the link comes up in time. */
  predicate ComesUp(dev: Device, flavor: Flavor, polls: nat)
    reads dev
  {
    !ConnectRaises(dev, flavor) && LinkUp(dev, flavor, polls)
  }

  /** The calls the credential and connect steps make on the device. */
  function ConnectCalls(dev: Device, flavor: Flavor, user: string, pw: string): seq<string>
    reads dev
  {
    CredentialCalls(user, pw, dev.exposes) +
    (if dev.Connected() then []
     else if flavor == SingleConnect then ["connect"]
     else Repeat("connect", Tries(dev.connectErrors, ConnectTries).calls))
  }

  /** What `_connect_and_login` raises, from the state before it: the connect error,
      the "not connected" error, or the login step's. It raises nothing exactly when the
      connect step does not raise, the link comes up in time and the session is, or
      gets, logged in. */
  function SessionError(app: OnlineApp, dev: Device, flavor: Flavor, polls: nat,
                        options: Option<set<string>>): (r: Option<string>)
    reads app, dev
    ensures r.None? <==>
              !ConnectRaises(dev, flavor) && LinkUp(dev, flavor, polls) &&
              (app.loggedIn || (CallsLogin(app.loggedIn, options) && app.Outcome(LoginCall).None? && app.loginWorks))
    ensures ConnectRaises(dev, flavor) ==> r == Some(dev.connectErrors[0])
  {
    if ConnectRaises(dev, flavor) then Some(dev.connectErrors[0])
    else if !LinkUp(dev, flavor, polls) then
      Some(NotConnected(flavor, if flavor == RetryConnect && !dev.Connected()
                                then Tries(dev.connectErrors, ConnectTries).lastErr else None))
    else LoginError(flavor, app.loggedIn, options, app.Outcome(LoginCall), app.loginWorks)
  }

  /** `_connect_and_login`: credentials, connect, wait, then log in. `err` is the error it
      raises, if any. Once the device reads as connected the error is the login step's;
      before that there is always one. */
  method ConnectAndLogin(app: OnlineApp, dev: Device, flavor: Flavor, user: string, pw: string,
                         polls: nat, options: Option<set<string>>) returns (err: Option<string>)
    modifies app`log, app`loggedIn, dev`log, dev`connectErrors, dev`linking, dev`connected, dev`linkDelay
    ensures err.None? <==> dev.Connected() && app.loggedIn
    ensures dev.Connected() ==>
              err == LoginError(flavor, old(app.loggedIn), options, app.Outcome(LoginCall), app.loginWorks) &&
              app.log == old(app.log) + LoginCalls(old(app.loggedIn), options)
    ensures !dev.Connected() ==> err.Some? && app.log == old(app.log)
    ensures !old(dev.Connected()) && flavor == SingleConnect && |old(dev.connectErrors)| > 0 ==>
              err == Some(old(dev.connectErrors)[0]) &&
              dev.log == old(dev.log) + CredentialCalls(user, pw, dev.exposes) + ["connect"] &&
              app.log == old(app.log)
    ensures !old(dev.Connected()) && flavor == SingleConnect && |old(dev.connectErrors)| == 0 ==>
              dev.log == old(dev.log) + CredentialCalls(user, pw, dev.exposes) + ["connect"] &&
              (!dev.Connected() ==> err == Some(NotConnected(SingleConnect, None)))
    ensures !old(dev.Connected()) && flavor == RetryConnect ==>
              var r := Tries(old(dev.connectErrors), ConnectTries);
              dev.log == old(dev.log) + CredentialCalls(user, pw, dev.exposes) + Repeat("connect", r.calls) &&
              (!dev.Connected() ==> err == Some(NotConnected(flavor, r.lastErr)) && app.log == old(app.log))
    ensures old(dev.Connected()) ==> dev.log == old(dev.log) + CredentialCalls(user, pw, dev.exposes)
    ensures old(app.loggedIn) ==> app.log == old(app.log)
    ensures |app.log| <= |old(app.log)| + 1
    ensures err == old(SessionError(app, dev, flavor, polls, options))
    ensures dev.log == old(dev.log) + old(ConnectCalls(dev, flavor, user, pw))
    ensures old(ConnectRaises(dev, flavor)) ==> !dev.Connected()
    ensures !old(ConnectRaises(dev, flavor)) ==> (dev.Connected() <==> old(LinkUp(dev, flavor, polls)))
    ensures dev.Connected() <==> old(ComesUp(dev, flavor, polls))
  {
    InjectCredentials(dev, user, pw);
    ghost var injected := dev.log;
    var lastErr: Option<string> := None;
    if flavor == SingleConnect {
      if !dev.Connected() {
        var e := dev.Connect();
        if e.Some? {
          return e;
        }
      }
    } else {
      lastErr := ConnectLoop(dev, ConnectTries);
    }
    WaitConnected(dev, polls);
    if !dev.Connected() {
      return Some(NotConnected(flavor, lastErr));
    }
    err := Login(app, flavor, options);
  }

  /** `_disconnect_best_effort`: disconnect only a connected device that offers it, then
      log out when the application offers it, whether or not the disconnect raised.
      Nothing escapes: the method has no error result. */
  method DisconnectBestEffort(app: OnlineApp, dev: Device)
    modifies app`log, app`loggedIn, dev`log, dev`connected, dev`linking
    ensures dev.log == old(dev.log) + (if old(dev.Connected()) && "disconnect" in dev.exposes then ["disconnect"] else [])
    ensures app.log == old(app.log) + (if "logout" in app.exposes then [LogoutCall] else [])
    ensures old(dev.Connected()) && "disconnect" in dev.exposes && "disconnect" !in dev.failing ==> !dev.Connected()
    ensures "logout" in app.exposes && app.Outcome(LogoutCall).None? ==> !app.loggedIn
  {
    if dev.Connected() && "disconnect" in dev.exposes {
      var e := dev.Disconnect();
    }
    if "logout" in app.exposes {
      var e := app.Logout();
    }
  }
}
