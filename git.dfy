/** The git helpers of the scripts, over an oracle. Running `git` is not modelled: the
    n-th command a script runs gets the reply the oracle gives for its position and its
    arguments, so any behaviour of the repository, including one that changes between
    commands, is covered. In scripts/grab_archive.py `_run_git` turns an exception into
    the reply `(1, "", repr(e))`; the oracle covers that reply too. */
module Git {
  import opened Text

  /** Exit code, standard output and standard error of one git command. */
  datatype Reply = Reply(rc: int, out: string, err: string)

  /** The git commands the scripts run. */
  datatype Command =
    | RemoteCmd
    | FetchCmd
    | HeadCmd
    | UpstreamCmd
    | StatusCmd
    | AddCmd
    | CheckoutCmd(branch: string)
    | ResetCheckoutCmd(branch: string)
    | SetUpstreamCmd(branch: string)
    | RevCmd(ref: string)
    | PullCmd(branch: string)
    | CommitCmd(message: string)
    | PushCmd(branch: string)

  const Origin: string := "origin"

  /** The arguments passed to `git` for a command. */
  function Args(c: Command): seq<string>
  {
    match c
    case RemoteCmd => ["remote"]
    case FetchCmd => ["fetch", "origin"]
    case HeadCmd => ["rev-parse", "--abbrev-ref", "HEAD"]
    case UpstreamCmd => ["rev-parse", "--abbrev-ref", "--symbolic-full-name", "@{u}"]
    case StatusCmd => ["status", "--porcelain"]
    case AddCmd => ["add", "-A"]
    case CheckoutCmd(b) => ["checkout", b]
    case ResetCheckoutCmd(b) => ["checkout", "-B", b, "origin/" + b]
    case SetUpstreamCmd(b) => ["branch", "--set-upstream-to=origin/" + b, b]
    case RevCmd(ref) => ["rev-parse", ref]
    case PullCmd(b) => ["pull", "--ff-only", "origin", b]
    case CommitCmd(m) => ["commit", "-m", m]
    case PushCmd(b) => ["push", "origin", b]
  }

  // ---------------------------------------------------------------------------------
  // `str.split()` with no separator

  /** Length of the leading run of non-whitespace characters. */
  function WordEnd(t: string): (k: nat)
    ensures k <= |t| && (forall i :: 0 <= i < k ==> !IsWs(t[i])) && (k < |t| ==> IsWs(t[k]))
  {
    if |t| == 0 || IsWs(t[0]) then 0 else WordEnd(t[1..]) + 1
  }

  /** `s.split()`: the maximal runs of non-whitespace characters, in order. */
  function Words(s: string): seq<string>
    decreases |s|
  {
    var t := StripLeft(s);
    StripLeftShape(s);
    if |t| == 0 then [] else [t[..WordEnd(t)]] + Words(t[WordEnd(t)..])
  }

  predicate IsWord(w: string)
  {
    |w| > 0 && forall i :: 0 <= i < |w| ==> !IsWs(w[i])
  }

  /** What `git remote` prints: one name per line. */
  function Listing(names: seq<string>): string
  {
    if |names| == 0 then "" else names[0] + "\n" + Listing(names[1..])
  }

  /** Every piece `split()` returns is a non-empty run without white space. */
  lemma {:induction false} WordsAreWords(s: string)
    ensures forall w :: w in Words(s) ==> IsWord(w)
    decreases |s|
  {
    var t := StripLeft(s);
    StripLeftShape(s);
    if |t| > 0 {
      var k := WordEnd(t);
      var rest := Words(t[k..]);
      WordsAreWords(t[k..]);
      assert Words(s) == [t[..k]] + rest;
      assert IsWord(t[..k]);
      forall w | w in Words(s)
        ensures IsWord(w)
      {
        if w != t[..k] {
          assert w in rest;
        }
      }
    }
  }

  lemma WordsSkipWs(w: string, l: string)
    requires AllWs(w) && (|l| == 0 || !IsWs(l[0]))
    ensures Words(w + l) == Words(l)
  {
    StripLeftWsPrefix(w, l);
    StripLeftWsPrefix("", l);
    assert "" + l == l;
  }

  lemma WordEndOf(w: string, rest: string)
    requires IsWord(w) && |rest| > 0 && IsWs(rest[0])
    ensures WordEnd(w + rest) == |w|
  {
    assert (w + rest)[|w|] == rest[0];
    assert forall i :: 0 <= i < |w| ==> (w + rest)[i] == w[i];
  }

  lemma WordsUnfold(s: string)
    requires |s| > 0 && !IsWs(s[0])
    ensures Words(s) == [s[..WordEnd(s)]] + Words(s[WordEnd(s)..])
  {
    StripLeftWsPrefix("", s);
    assert "" + s == s;
  }

  lemma ConsParts(w: string, l: string)
    ensures (w + "\n" + l)[..|w|] == w && (w + "\n" + l)[|w|..] == "\n" + l
    ensures w + "\n" + l == w + ("\n" + l)
  {
  }

  lemma WordsCons(w: string, l: string)
    requires IsWord(w) && (|l| == 0 || !IsWs(l[0]))
    ensures Words(w + "\n" + l) == [w] + Words(l)
  {
    var s := w + "\n" + l;
    ConsParts(w, l);
    WordEndOf(w, "\n" + l);
    WordsUnfold(s);
    WordsSkipWs("\n", l);
  }

  lemma ListingStart(names: seq<string>)
    requires |names| > 0 && IsWord(names[0])
    ensures |Listing(names)| > 0 && Listing(names)[0] == names[0][0]
  {
  }

  /** `split()` gives back the names of a listing: the round trip of `git remote`'s
      output. */
  lemma {:induction false} WordsOfListing(names: seq<string>)
    requires forall i :: 0 <= i < |names| ==> IsWord(names[i])
    ensures Words(Listing(names)) == names
    decreases |names|
  {
    if |names| > 0 {
      var l := Listing(names[1..]);
      assert Listing(names) == names[0] + "\n" + l;
      WordsOfListing(names[1..]);
      if |names| > 1 {
        ListingStart(names[1..]);
      }
      WordsCons(names[0], l);
      assert names == [names[0]] + names[1..];
    }
  }

  // ---------------------------------------------------------------------------------
  // What the scripts read off the replies

  /** `_git_has_origin`: the command succeeded and `origin` is one of the words it printed. */
  predicate OriginListed(r: Reply)
  {
    r.rc == 0 && Origin in Words(r.out)
  }

  /** With `git remote` listing its remotes one per line, origin is found exactly when
      it is one of them. */
  lemma OriginListedIff(r: Reply, names: seq<string>)
    requires forall i :: 0 <= i < |names| ==> IsWord(names[i])
    requires r.rc == 0 && r.out == Listing(names)
    ensures OriginListed(r) <==> Origin in names
  {
    WordsOfListing(names);
  }

  /** The stripped output of a command that succeeded; `fallback` when it failed. */
  function OutputOr(r: Reply, fallback: string): string
  {
    if r.rc == 0 then Strip(r.out) else fallback
  }

  /** `_git_remote_has_new_commit`'s verdict on two revisions. */
  predicate RemoteAhead(local: string, remote: string)
  {
    local != "" && remote != "" && local != remote
  }

  /** The gate is closed when either revision is unknown, and otherwise open exactly
      when the two revisions differ. */
  lemma RemoteAheadCases(local: string, remote: string)
    ensures (local == "" || remote == "") ==> !RemoteAhead(local, remote)
    ensures local != "" && remote != "" ==> (RemoteAhead(local, remote) <==> local != remote)
    ensures RemoteAhead(local, remote) ==> RemoteAhead(remote, local)
  {
  }

  /** `git status --porcelain` reports changes: it succeeded and printed something other
      than white space. */
  predicate Dirty(r: Reply)
  {
    r.rc == 0 && !AllWs(r.out)
  }

  /** The stripped status is non-empty exactly when the status reports changes. */
  lemma DirtyIff(r: Reply)
    ensures OutputOr(r, "") != "" <==> Dirty(r)
  {
    if r.rc == 0 {
      var a, b := StripSlice(r.out);
      StripLeftShape(r.out);
      StripRightShape(StripLeft(r.out));
    }
  }

  /** `_git_ensure_upstream`'s test: the upstream is already `origin/<branch>`. */
  predicate Tracks(u: Reply, branch: string)
  {
    u.rc == 0 && Strip(u.out) == "origin/" + branch
  }

  /** A failed commit that says, in any case, that there was nothing to commit. */
  predicate NothingToCommit(r: Reply)
  {
    Contains(Lower(r.out + r.err), "nothing to commit")
  }

  /** The notes `_git_commit_all_if_dirty` returns with success. */
  predicate SuccessNote(note: string)
  {
    note == "clean" || note == "nothing to commit" || note == "committed+push"
  }

  /** Two commands and then a run of others. */
  lemma AfterTwo(start: seq<Command>, x: Command, y: Command, rest: seq<Command>)
    ensures start + [x] + [y] + rest == start + ([x, y] + rest)
  {
  }

  lemma AppendOne(start: seq<Command>, x: Command, y: Command)
    ensures start + [x] + [y] == start + [x, y]
  {
  }

  lemma AppendTwo(start: seq<Command>, x: Command, y: Command, z: Command)
    ensures start + [x] + [y] + [z] == start + [x, y, z]
  {
  }

  lemma GateSteps(start: seq<Command>, fetch: seq<Command>, rest: seq<Command>)
    ensures start + [RemoteCmd] + fetch + rest == start + ([RemoteCmd] + fetch + rest)
  {
  }


  /** A run of a command sequence: the result, the note returned with it, and the
      commands run. */
  datatype Run = Run(ok: bool, note: string, trace: seq<Command>)

  /** The commit and push part of `_git_commit_all_if_dirty`, with the commit at
      position `n`. */
  function PushRun(answer: (nat, Command) -> Reply, n: nat, branch: string, message: string): Run
  {
    var commit := answer(n, CommitCmd(message));
    if commit.rc != 0 then
      if NothingToCommit(commit) then Run(true, "nothing to commit", [CommitCmd(message)])
      else Run(false, "git commit failed", [CommitCmd(message)])
    else if !OriginListed(answer(n + 1, RemoteCmd)) then Run(true, "committed+push", [CommitCmd(message), RemoteCmd])
    else if answer(n + 2, PushCmd(branch)).rc != 0 then
      Run(false, "git push failed", [CommitCmd(message), RemoteCmd, PushCmd(branch)])
    else Run(true, "committed+push", [CommitCmd(message), RemoteCmd, PushCmd(branch)])
  }

  /** `_git_commit_all_if_dirty` with its first command at position `n`. */
  function CommitRun(answer: (nat, Command) -> Reply, n: nat, branch: string, message: string): Run
  {
    if !Dirty(answer(n, StatusCmd)) then Run(true, "clean", [StatusCmd])
    else if answer(n + 1, AddCmd).rc != 0 then Run(false, "git add -A failed", [StatusCmd, AddCmd])
    else
      var p := PushRun(answer, n + 2, branch, message);
      Run(p.ok, p.note, [StatusCmd, AddCmd] + p.trace)
  }

  /** A clean working tree is reported as such, and nothing is added, committed or
      pushed. */
  lemma CleanTreeUntouched(answer: (nat, Command) -> Reply, n: nat, branch: string, message: string)
    requires !Dirty(answer(n, StatusCmd))
    ensures CommitRun(answer, n, branch, message) == Run(true, "clean", [StatusCmd])
  {
  }

  /** Success goes with exactly the notes `clean`, `nothing to commit` and
      `committed+push`; the status is always the first command. */
  lemma CommitNotes(answer: (nat, Command) -> Reply, n: nat, branch: string, message: string)
    ensures CommitRun(answer, n, branch, message).ok <==> SuccessNote(CommitRun(answer, n, branch, message).note)
    ensures CommitRun(answer, n, branch, message).trace[0] == StatusCmd
  {
  }

  /** A failed `add -A` stops the sequence: nothing is committed or pushed. */
  lemma AddFailureStops(answer: (nat, Command) -> Reply, n: nat, branch: string, message: string)
    requires Dirty(answer(n, StatusCmd)) && answer(n + 1, AddCmd).rc != 0
    ensures CommitRun(answer, n, branch, message) == Run(false, "git add -A failed", [StatusCmd, AddCmd])
  {
  }

  /** A commit that fails saying, in any letter case, that there was nothing to commit
      is a success, and nothing is pushed. */
  lemma NothingToCommitSucceeds(answer: (nat, Command) -> Reply, n: nat, branch: string, message: string)
    requires Dirty(answer(n, StatusCmd)) && answer(n + 1, AddCmd).rc == 0
    requires answer(n + 2, CommitCmd(message)).rc != 0 && NothingToCommit(answer(n + 2, CommitCmd(message)))
    ensures CommitRun(answer, n, branch, message) == Run(true, "nothing to commit", [StatusCmd, AddCmd, CommitCmd(message)])
  {
  }

  /** A commit that fails for another reason is a failure, and nothing is pushed. */
  lemma CommitFailureStops(answer: (nat, Command) -> Reply, n: nat, branch: string, message: string)
    requires Dirty(answer(n, StatusCmd)) && answer(n + 1, AddCmd).rc == 0
    requires answer(n + 2, CommitCmd(message)).rc != 0 && !NothingToCommit(answer(n + 2, CommitCmd(message)))
    ensures CommitRun(answer, n, branch, message) == Run(false, "git commit failed", [StatusCmd, AddCmd, CommitCmd(message)])
  {
  }

  /** A commit in a repository without origin is reported as `committed+push`, though
      nothing is pushed. */
  lemma CommittedWithoutOrigin(answer: (nat, Command) -> Reply, n: nat, branch: string, message: string)
    requires Dirty(answer(n, StatusCmd)) && answer(n + 1, AddCmd).rc == 0
    requires answer(n + 2, CommitCmd(message)).rc == 0 && !OriginListed(answer(n + 3, RemoteCmd))
    ensures CommitRun(answer, n, branch, message) ==
            Run(true, "committed+push", [StatusCmd, AddCmd, CommitCmd(message), RemoteCmd])
  {
  }

  /** With origin, a commit is pushed, and the push decides the result. */
  lemma CommittedAndPushed(answer: (nat, Command) -> Reply, n: nat, branch: string, message: string)
    requires Dirty(answer(n, StatusCmd)) && answer(n + 1, AddCmd).rc == 0
    requires answer(n + 2, CommitCmd(message)).rc == 0 && OriginListed(answer(n + 3, RemoteCmd))
    ensures var pushed := answer(n + 4, PushCmd(branch)).rc == 0;
            CommitRun(answer, n, branch, message) ==
            Run(pushed, if pushed then "committed+push" else "git push failed",
                [StatusCmd, AddCmd, CommitCmd(message), RemoteCmd, PushCmd(branch)])
  {
  }

  /** A push happens only after a successful commit and only when origin is listed, and
      a failed push is the only way a committed change is reported as a failure. */
  lemma PushOnlyWithOrigin(answer: (nat, Command) -> Reply, n: nat, branch: string, message: string)
    ensures var r := CommitRun(answer, n, branch, message);
            PushCmd(branch) in r.trace ==>
              |r.trace| == 5 && r.trace[3] == RemoteCmd && OriginListed(answer(n + 3, RemoteCmd)) &&
              answer(n + 2, CommitCmd(message)).rc == 0 &&
              (r.ok <==> answer(n + 4, PushCmd(branch)).rc == 0)
  {
  }

  /** The git part of `run_deploy` in scripts/grab_archive.py: whether the deploy goes
      on, and otherwise its result and note, with the commands run. */
  datatype Gate = Gate(proceed: bool, ok: bool, note: string, trace: seq<Command>)

  /** The remote-tracking revision is ahead, judged from the replies to the two
      `rev-parse` commands. */
  predicate AheadBy(local: Reply, remote: Reply)
  {
    RemoteAhead(OutputOr(local, ""), OutputOr(remote, ""))
  }

  /** The commands `_git_fetch` runs from position `n`: no fetch without origin. */
  function FetchTrace(answer: (nat, Command) -> Reply, n: nat): seq<Command>
  {
    if OriginListed(answer(n, RemoteCmd)) then [RemoteCmd, FetchCmd] else [RemoteCmd]
  }

  /** The remote-ahead check and the fast-forward of `run_deploy`, from position `m`. */
  function UpdateRun(answer: (nat, Command) -> Reply, m: nat, branch: string): Gate
  {
    var checked := [RevCmd(branch), RevCmd("origin/" + branch)];
    if !AheadBy(answer(m, RevCmd(branch)), answer(m + 1, RevCmd("origin/" + branch))) then
      Gate(false, true, "no remote changes", checked)
    else if answer(m + 2, PullCmd(branch)).rc != 0 then
      Gate(false, false, "ff-pull failed (branch diverged)", checked + [PullCmd(branch)])
    else Gate(true, true, "", checked + [PullCmd(branch)])
  }

  /** `run_deploy`'s git steps from position `n`: origin check, fetch, then
      `UpdateRun` right after the fetch. */
  function GateRun(answer: (nat, Command) -> Reply, n: nat, branch: string): Gate
  {
    if !OriginListed(answer(n, RemoteCmd)) then Gate(false, false, "no origin", [RemoteCmd])
    else
      var fetch := FetchTrace(answer, n + 1);
      var u := UpdateRun(answer, n + 1 + |fetch|, branch);
      u.(trace := [RemoteCmd] + fetch + u.trace)
  }

  /** The deploy goes on only after a fast-forward that succeeded, a pull happens only
      when origin is configured and the remote is ahead, and an up-to-date branch
      stops the deploy as a success without pulling. */
  lemma GateFacts(answer: (nat, Command) -> Reply, n: nat, branch: string)
    ensures var g := GateRun(answer, n, branch);
            var m := n + 1 + |FetchTrace(answer, n + 1)|;
            (g.proceed ==> g.ok && g.trace[|g.trace| - 1] == PullCmd(branch) && answer(m + 2, PullCmd(branch)).rc == 0) &&
            (PullCmd(branch) in g.trace ==>
               OriginListed(answer(n, RemoteCmd)) &&
               AheadBy(answer(m, RevCmd(branch)), answer(m + 1, RevCmd("origin/" + branch)))) &&
            (OriginListed(answer(n, RemoteCmd)) &&
             !AheadBy(answer(m, RevCmd(branch)), answer(m + 1, RevCmd("origin/" + branch))) ==>
               g == Gate(false, true, "no remote changes", g.trace) && PullCmd(branch) !in g.trace)
  {
  }

  /** The commands `_git_checkout` runs from position `n`: the checkout that recreates
      the branch from origin only after the plain checkout failed. */
  function CheckoutTrace(answer: (nat, Command) -> Reply, n: nat, branch: string): seq<Command>
  {
    if answer(n, CheckoutCmd(branch)).rc == 0 then [CheckoutCmd(branch)]
    else [CheckoutCmd(branch), ResetCheckoutCmd(branch)]
  }

  /** `_git_checkout` from position `n` succeeds. */
  predicate CheckedOut(answer: (nat, Command) -> Reply, n: nat, branch: string)
  {
    answer(n, CheckoutCmd(branch)).rc == 0 || answer(n + 1, ResetCheckoutCmd(branch)).rc == 0
  }

  /** The plain checkout comes first; the fallback runs exactly when it fails, and the
      checkout fails only when both do. */
  lemma CheckoutFallback(answer: (nat, Command) -> Reply, n: nat, branch: string)
    ensures var t := CheckoutTrace(answer, n, branch);
            1 <= |t| <= 2 && t[0] == CheckoutCmd(branch) &&
            (ResetCheckoutCmd(branch) in t <==> answer(n, CheckoutCmd(branch)).rc != 0) &&
            (!CheckedOut(answer, n, branch) <==>
               t == [CheckoutCmd(branch), ResetCheckoutCmd(branch)] && answer(n + 1, ResetCheckoutCmd(branch)).rc != 0)
  {
  }

  /** The commands `_git_ensure_upstream` runs from position `n`. */
  function UpstreamTrace(answer: (nat, Command) -> Reply, n: nat, branch: string): seq<Command>
  {
    if !OriginListed(answer(n, RemoteCmd)) then [RemoteCmd]
    else if Tracks(answer(n + 1, UpstreamCmd), branch) then [RemoteCmd, UpstreamCmd]
    else [RemoteCmd, UpstreamCmd, SetUpstreamCmd(branch)]
  }

  /** The upstream is set only with origin configured and only when the branch does not
      already track `origin/<branch>`; it is never looked up without origin. */
  lemma UpstreamOnlyWhenNeeded(answer: (nat, Command) -> Reply, n: nat, branch: string)
    ensures var t := UpstreamTrace(answer, n, branch);
            (SetUpstreamCmd(branch) in t <==>
               OriginListed(answer(n, RemoteCmd)) && !Tracks(answer(n + 1, UpstreamCmd), branch)) &&
            (UpstreamCmd in t <==> OriginListed(answer(n, RemoteCmd))) &&
            t[0] == RemoteCmd
  {
  }

  // ---------------------------------------------------------------------------------
  // The repository as the scripts drive it

  class Repo {
    /** The reply to the command at a given position of the run. */
    const answer: (nat, Command) -> Reply
    /** The commands run so far, in order. */
    var log: seq<Command>

    constructor (answer: (nat, Command) -> Reply)
      ensures this.answer == answer && log == []
    {
      this.answer := answer;
      log := [];
    }

    method Run(args: Command) returns (r: Reply)
      modifies this`log
      ensures log == old(log) + [args]
      ensures r == answer(|old(log)|, args)
    {
      r := answer(|log|, args);
      log := log + [args];
    }

    /** `_git_has_origin` */
    method HasOrigin() returns (yes: bool)
      modifies this`log
      ensures log == old(log) + [RemoteCmd]
      ensures yes == OriginListed(answer(|old(log)|, RemoteCmd))
    {
      var r := Run(RemoteCmd);
      yes := OriginListed(r);
    }

    /** `_git_fetch`: no fetch without origin. */
    method Fetch() returns (ok: bool)
      modifies this`log
      ensures log == old(log) + FetchTrace(answer, |old(log)|)
      ensures ok == (OriginListed(answer(|old(log)|, RemoteCmd)) && answer(|old(log)| + 1, FetchCmd).rc == 0)
    {
      var origin := HasOrigin();
      if !origin {
        return false;
      }
      var r := Run(FetchCmd);
      AppendOne(old(log), RemoteCmd, FetchCmd);
      ok := r.rc == 0;
    }

    /** `_git_current_branch`: the stripped name, or `unknown` when git fails. */
    method CurrentBranch() returns (name: string)
      modifies this`log
      ensures log == old(log) + [HeadCmd]
      ensures name == OutputOr(answer(|old(log)|, HeadCmd), "unknown")
    {
      var r := Run(HeadCmd);
      name := if r.rc == 0 then Strip(r.out) else "unknown";
    }

    /** `_git_checkout`: a plain checkout, and only when it fails a checkout that
        recreates the branch from `origin/<branch>`. */
    method Checkout(branch: string) returns (ok: bool)
      modifies this`log
      ensures log == old(log) + CheckoutTrace(answer, |old(log)|, branch)
      ensures ok == CheckedOut(answer, |old(log)|, branch)
    {
      var r := Run(CheckoutCmd(branch));
      if r.rc == 0 {
        return true;
      }
      var r2 := Run(ResetCheckoutCmd(branch));
      ok := r2.rc == 0;
    }

    /** `_git_ensure_upstream`: with origin, set the upstream unless it already is
        `origin/<branch>`. */
    method EnsureUpstream(branch: string)
      modifies this`log
      ensures log == old(log) + UpstreamTrace(answer, |old(log)|, branch)
    {
      var origin := HasOrigin();
      if !origin {
        return;
      }
      var r := Run(UpstreamCmd);
      AppendOne(old(log), RemoteCmd, UpstreamCmd);
      if Tracks(r, branch) {
        return;
      }
      var r2 := Run(SetUpstreamCmd(branch));
      AppendTwo(old(log), RemoteCmd, UpstreamCmd, SetUpstreamCmd(branch));
    }

    /** `_git_rev`: the stripped hash, or empty when git fails. */
    method Rev(ref: string) returns (hash: string)
      modifies this`log
      ensures log == old(log) + [RevCmd(ref)]
      ensures hash == OutputOr(answer(|old(log)|, RevCmd(ref)), "")
    {
      var r := Run(RevCmd(ref));
      hash := if r.rc == 0 then Strip(r.out) else "";
    }

    /** `_git_remote_has_new_commit`: the local and the remote-tracking revision, and
        whether the remote is ahead. */
    method RemoteHasNewCommit(branch: string) returns (ahead: bool, local: string, remote: string)
      modifies this`log
      ensures log == old(log) + [RevCmd(branch), RevCmd("origin/" + branch)]
      ensures local == OutputOr(answer(|old(log)|, RevCmd(branch)), "")
      ensures remote == OutputOr(answer(|old(log)| + 1, RevCmd("origin/" + branch)), "")
      ensures ahead == RemoteAhead(local, remote)
      ensures ahead == AheadBy(answer(|old(log)|, RevCmd(branch)), answer(|old(log)| + 1, RevCmd("origin/" + branch)))
    {
      local := Rev(branch);
      remote := Rev("origin/" + branch);
      if local == "" || remote == "" {
        return false, local, remote;
      }
      ahead := local != remote;
    }

    /** `_git_fast_forward` */
    method FastForward(branch: string) returns (ok: bool)
      modifies this`log
      ensures log == old(log) + [PullCmd(branch)]
      ensures ok == (answer(|old(log)|, PullCmd(branch)).rc == 0)
    {
      var r := Run(PullCmd(branch));
      ok := r.rc == 0;
    }

    /** `_git_status_porcelain`: the stripped status, empty when git fails. */
    method StatusPorcelain() returns (status: string)
      modifies this`log
      ensures log == old(log) + [StatusCmd]
      ensures status == OutputOr(answer(|old(log)|, StatusCmd), "")
    {
      var r := Run(StatusCmd);
      status := if r.rc == 0 then Strip(r.out) else "";
    }

    /** `_git_commit_all_if_dirty`, run against the replies: its result and the
        commands it runs are those of `CommitRun`. */
    method CommitAllIfDirty(branch: string, message: string) returns (ok: bool, note: string)
      modifies this`log
      ensures log == old(log) + CommitRun(answer, |old(log)|, branch, message).trace
      ensures ok == CommitRun(answer, |old(log)|, branch, message).ok
      ensures note == CommitRun(answer, |old(log)|, branch, message).note
    {
      var st := StatusPorcelain();
      DirtyIff(answer(|old(log)|, StatusCmd));
      if st == "" {
        return true, "clean";
      }
      var r1 := Run(AddCmd);
      if r1.rc != 0 {
        return false, "git add -A failed";
      }
      ghost var done := log;
      ok, note := CommitAndPush(branch, message);
      AfterTwo(old(log), StatusCmd, AddCmd, log[|done|..]);
    }

    /** The commit and push part of `_git_commit_all_if_dirty`: its result and the
        commands it runs are those of `PushRun`. */
    method CommitAndPush(branch: string, message: string) returns (ok: bool, note: string)
      modifies this`log
      ensures log == old(log) + PushRun(answer, |old(log)|, branch, message).trace
      ensures ok == PushRun(answer, |old(log)|, branch, message).ok
      ensures note == PushRun(answer, |old(log)|, branch, message).note
    {
      var r := Run(CommitCmd(message));
      if r.rc != 0 {
        if NothingToCommit(r) {
          return true, "nothing to commit";
        }
        return false, "git commit failed";
      }
      var origin := HasOrigin();
      if !origin {
        AppendOne(old(log), CommitCmd(message), RemoteCmd);
        return true, "committed+push";
      }
      var r2 := Run(PushCmd(branch));
      AppendTwo(old(log), CommitCmd(message), RemoteCmd, PushCmd(branch));
      if r2.rc != 0 {
        return false, "git push failed";
      }
      return true, "committed+push";
    }

    /** The remote-ahead check and the fast-forward of `run_deploy`, as `UpdateRun`
        describes them. */
    method PullIfAhead(branch: string) returns (proceed: bool, ok: bool, note: string)
      modifies this`log
      ensures log == old(log) + UpdateRun(answer, |old(log)|, branch).trace
      ensures proceed == UpdateRun(answer, |old(log)|, branch).proceed
      ensures ok == UpdateRun(answer, |old(log)|, branch).ok
      ensures note == UpdateRun(answer, |old(log)|, branch).note
    {
      var ahead, _, _ := RemoteHasNewCommit(branch);
      if !ahead {
        return false, true, "no remote changes";
      }
      var ff := FastForward(branch);
      AppendOne(old(log), RevCmd(branch), RevCmd("origin/" + branch));
      if !ff {
        return false, false, "ff-pull failed (branch diverged)";
      }
      return true, true, "";
    }

    /** The git steps of `run_deploy`, as `GateRun` describes them. */
    method DeployGate(branch: string) returns (proceed: bool, ok: bool, note: string)
      modifies this`log
      ensures log == old(log) + GateRun(answer, |old(log)|, branch).trace
      ensures proceed == GateRun(answer, |old(log)|, branch).proceed
      ensures ok == GateRun(answer, |old(log)|, branch).ok
      ensures note == GateRun(answer, |old(log)|, branch).note
    {
      var origin := HasOrigin();
      if !origin {
        return false, false, "no origin";
      }
      ghost var fetch := FetchTrace(answer, |old(log)| + 1);
      var _ := Fetch();
      ghost var done := log;
      proceed, ok, note := PullIfAhead(branch);
      GateSteps(old(log), fetch, log[|done|..]);
    }

    /** `_git_checkout_and_update` of scripts/deploy_staging.py and
        scripts/deploy_prod.py: check out (recreating the branch from origin when the
        plain checkout fails), then fast-forward from origin; no pull after two failed
        checkouts. */
    method CheckoutAndUpdate(branch: string) returns (ok: bool)
      modifies this`log
      ensures answer(|old(log)|, CheckoutCmd(branch)).rc == 0 ==>
                log == old(log) + [CheckoutCmd(branch), PullCmd(branch)] &&
                ok == (answer(|old(log)| + 1, PullCmd(branch)).rc == 0)
      ensures answer(|old(log)|, CheckoutCmd(branch)).rc != 0 && answer(|old(log)| + 1, ResetCheckoutCmd(branch)).rc == 0 ==>
                log == old(log) + [CheckoutCmd(branch), ResetCheckoutCmd(branch), PullCmd(branch)] &&
                ok == (answer(|old(log)| + 2, PullCmd(branch)).rc == 0)
      ensures answer(|old(log)|, CheckoutCmd(branch)).rc != 0 && answer(|old(log)| + 1, ResetCheckoutCmd(branch)).rc != 0 ==>
                !ok && log == old(log) + [CheckoutCmd(branch), ResetCheckoutCmd(branch)]
      ensures ok ==> |log| >= 2 && log[|log| - 1] == PullCmd(branch)
    {
      var r := Run(CheckoutCmd(branch));
      if r.rc != 0 {
        var r2 := Run(ResetCheckoutCmd(branch));
        if r2.rc != 0 {
          return false;
        }
      }
      var r3 := Run(PullCmd(branch));
      ok := r3.rc == 0;
    }
  }
}
