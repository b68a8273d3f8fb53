/** The tier loop of `main` in scripts/grab_archive.py: note the current branch, fetch,
    then for dev, staging and prod check the branch out, make sure it tracks origin and
    run its action, one summary entry per tier, and finally put the starting branch
    back. How each action ends is an input; the git commands are those of `Git.Repo`. */
module Tiers {
  import opened Git

  /** What an action ends with: its returned pair, or the text of the exception that
      escapes it. */
  datatype Step = Done(ok: bool, msg: string) | Raised(err: string)

  /** The tiers in the order `main` runs them. */
  const TierNames: seq<string> := ["dev", "staging", "prod"]

  /** A summary entry: the branch, whether it is `OK` (or `FAIL`), and the message. */
  datatype Entry = Entry(branch: string, ok: bool, msg: string)

  /** The status column of the summary. */
  function Status(e: Entry): string
  {
    if e.ok then "OK" else "FAIL"
  }

  function CheckoutFailed(branch: string): Entry
  {
    Entry(branch, false, "checkout failed")
  }

  /** The entry for an action that ran: its own pair, or `exception: ...` when it raised. */
  function TierEntry(branch: string, s: Step): (e: Entry)
    ensures e.branch == branch
    ensures e.ok <==> s.Done? && s.ok
    ensures s.Done? ==> e.msg == s.msg
    ensures s.Raised? ==> e.msg == "exception: " + s.err
  {
    match s
    case Done(ok, msg) => Entry(branch, ok, msg)
    case Raised(err) => Entry(branch, false, "exception: " + err)
  }

  /** A tier to run: its branch, and how its action ends if it gets to run. */
  datatype Job = Job(branch: string, outcome: Step)

  /** One tier from position `n`: checkout, then (only after a checkout that worked) the
      upstream check and the action. */
  datatype Tier = Tier(entry: Entry, trace: seq<Command>)

  function TierRun(answer: (nat, Command) -> Reply, n: nat, job: Job): Tier
  {
    var co := CheckoutTrace(answer, n, job.branch);
    if !CheckedOut(answer, n, job.branch) then Tier(CheckoutFailed(job.branch), co)
    else Tier(TierEntry(job.branch, job.outcome), co + UpstreamTrace(answer, n + |co|, job.branch))
  }

  /** A tier's entry is `checkout failed` or the entry of its own action, and it is `OK`
      exactly when the checkout worked and the action returned success. */
  lemma TierEntryShape(answer: (nat, Command) -> Reply, n: nat, job: Job)
    ensures var e := TierRun(answer, n, job).entry;
            e.branch == job.branch &&
            (e == CheckoutFailed(job.branch) || e == TierEntry(job.branch, job.outcome)) &&
            (e.ok <==> e == TierEntry(job.branch, job.outcome) && job.outcome.Done? && job.outcome.ok) &&
            (CheckedOut(answer, n, job.branch) ==> e == TierEntry(job.branch, job.outcome)) &&
            (!CheckedOut(answer, n, job.branch) ==> e == CheckoutFailed(job.branch))
  {
  }

  /** The git commands of a tier depend on its branch only, not on how its action ends. */
  lemma TierTraceOfBranch(answer: (nat, Command) -> Reply, n: nat, j1: Job, j2: Job)
    requires j1.branch == j2.branch
    ensures TierRun(answer, n, j1).trace == TierRun(answer, n, j2).trace
  {
  }

  /** The first `i` tiers of `jobs` in order from position `n`. */
  datatype Summary = Summary(entries: seq<Entry>, trace: seq<Command>)

  function TiersRun(answer: (nat, Command) -> Reply, n: nat, jobs: seq<Job>, i: nat): Summary
    requires i <= |jobs|
    decreases i, 0
  {
    if i == 0 then Summary([], [])
    else
      var p := TiersRun(answer, n, jobs, i - 1);
      var t := TierAt(answer, n, jobs, i - 1);
      Summary(p.entries + [t.entry], p.trace + t.trace)
  }

  /** Tier `jobs[k]`, which starts where the tiers before it end. */
  function TierAt(answer: (nat, Command) -> Reply, n: nat, jobs: seq<Job>, k: nat): Tier
    requires k < |jobs|
    decreases k, 1
  {
    TierRun(answer, n + |TiersRun(answer, n, jobs, k).trace|, jobs[k])
  }

  /** The summary entries of the first `i` tiers. */
  function TierEntries(answer: (nat, Command) -> Reply, n: nat, jobs: seq<Job>, i: nat): seq<Entry>
    requires i <= |jobs|
  {
    TiersRun(answer, n, jobs, i).entries
  }

  /** The git commands of the first `i` tiers. */
  function TierCommands(answer: (nat, Command) -> Reply, n: nat, jobs: seq<Job>, i: nat): seq<Command>
    requires i <= |jobs|
  {
    TiersRun(answer, n, jobs, i).trace
  }

  /** Running one more tier: the tiers so far, then tier `jobs[i]` from where they end. */
  lemma TiersNext(answer: (nat, Command) -> Reply, n: nat, jobs: seq<Job>, i: nat, t: Tier)
    requires i < |jobs|
    requires t == TierRun(answer, n + |TierCommands(answer, n, jobs, i)|, jobs[i])
    ensures TierEntries(answer, n, jobs, i + 1) == TierEntries(answer, n, jobs, i) + [t.entry]
    ensures TierCommands(answer, n, jobs, i + 1) == TierCommands(answer, n, jobs, i) + t.trace
  {
    assert TierAt(answer, n, jobs, i) == t;
  }

  /** Every tier gets exactly one entry, in order, even when an earlier action raised:
      either `checkout failed` or the entry of its own action; the entry is `OK` exactly
      when the checkout worked and the action returned success. */
  lemma {:induction false} TiersShape(answer: (nat, Command) -> Reply, n: nat, jobs: seq<Job>, i: nat)
    requires i <= |jobs|
    decreases i
    ensures var es := TierEntries(answer, n, jobs, i);
            |es| == i &&
            forall k :: 0 <= k < i ==>
              es[k].branch == jobs[k].branch &&
              (es[k] == CheckoutFailed(jobs[k].branch) || es[k] == TierEntry(jobs[k].branch, jobs[k].outcome)) &&
              (es[k].ok <==>
                 es[k] == TierEntry(jobs[k].branch, jobs[k].outcome) && jobs[k].outcome.Done? && jobs[k].outcome.ok)
  {
    if i > 0 {
      TiersShape(answer, n, jobs, i - 1);
      var m := n + |TierCommands(answer, n, jobs, i - 1)|;
      var t := TierRun(answer, m, jobs[i - 1]);
      TiersNext(answer, n, jobs, i - 1, t);
      TierEntryShape(answer, m, jobs[i - 1]);
      var p := TierEntries(answer, n, jobs, i - 1);
      assert forall k :: 0 <= k < i - 1 ==> (p + [t.entry])[k] == p[k];
    }
  }

  /** Same branches, outcomes that may differ. */
  predicate SameBranches(j1: seq<Job>, j2: seq<Job>)
  {
    |j1| == |j2| && forall k :: 0 <= k < |j1| ==> j1[k].branch == j2[k].branch
  }

  /** A failure stays in its own tier: with the same branches, the git commands run do not
      depend on the actions' outcomes, and a tier whose outcome is unchanged keeps its
      entry. */
  lemma {:induction false} TierContained(answer: (nat, Command) -> Reply, n: nat, j1: seq<Job>, j2: seq<Job>, i: nat)
    requires SameBranches(j1, j2) && i <= |j1|
    decreases i
    ensures TierCommands(answer, n, j1, i) == TierCommands(answer, n, j2, i)
    ensures |TierEntries(answer, n, j1, i)| == |TierEntries(answer, n, j2, i)| == i
    ensures forall k :: 0 <= k < i && j1[k] == j2[k] ==>
              TierEntries(answer, n, j1, i)[k] == TierEntries(answer, n, j2, i)[k]
  {
    if i > 0 {
      TierContained(answer, n, j1, j2, i - 1);
      var m := n + |TierCommands(answer, n, j1, i - 1)|;
      var t1 := TierRun(answer, m, j1[i - 1]);
      var t2 := TierRun(answer, m, j2[i - 1]);
      TiersNext(answer, n, j1, i - 1, t1);
      TiersNext(answer, n, j2, i - 1, t2);
      TierTraceOfBranch(answer, m, j1[i - 1], j2[i - 1]);
      var p1 := TierEntries(answer, n, j1, i - 1);
      var p2 := TierEntries(answer, n, j2, i - 1);
      assert forall k :: 0 <= k < i - 1 ==> (p1 + [t1.entry])[k] == p1[k] && (p2 + [t2.entry])[k] == p2[k];
    }
  }

  /** Where the starting branch is put back: not when it is empty or `unknown`. */
  function RestoreTrace(answer: (nat, Command) -> Reply, n: nat, start: string): seq<Command>
  {
    if start != "" && start != "unknown" then CheckoutTrace(answer, n, start) else []
  }

  lemma CommandsAssoc(a: seq<Command>, b: seq<Command>, c: seq<Command>)
    ensures a + b + c == a + (b + c)
  {
  }

  /** Every entry of `es` is `OK`. */
  predicate AllOk(es: seq<Entry>)
  {
    forall j :: 0 <= j < |es| ==> es[j].ok
  }

  lemma AllOkSnoc(es: seq<Entry>, e: Entry)
    ensures AllOk(es + [e]) <==> AllOk(es) && e.ok
  {
    assert forall j :: 0 <= j < |es| ==> (es + [e])[j] == es[j];
    assert (es + [e])[|es|] == e;
  }

  /** The tier loop: the entries and commands of the tiers, and `overall` true exactly
      when every entry is `OK`. */
  method RunTiers(repo: Repo, jobs: seq<Job>, ghost n: nat) returns (summary: seq<Entry>, overall: bool)
    requires n == |repo.log|
    modifies repo`log
    ensures summary == TierEntries(repo.answer, n, jobs, |jobs|)
    ensures repo.log == old(repo.log) + TierCommands(repo.answer, n, jobs, |jobs|)
    ensures overall <==> forall i :: 0 <= i < |summary| ==> summary[i].ok
  {
    summary := [];
    overall := true;
    var i := 0;
    while i < |jobs|
      invariant 0 <= i <= |jobs|
      invariant summary == TierEntries(repo.answer, n, jobs, i)
      invariant repo.log == old(repo.log) + TierCommands(repo.answer, n, jobs, i)
      invariant overall == AllOk(summary)
    {
      var e := RunTierAt(repo, jobs, i, old(repo.log));
      AllOkSnoc(summary, e);
      summary := summary + [e];
      overall := overall && e.ok;
      i := i + 1;
    }
  }

  /** One pass of the tier loop: the log and the entries grow by tier `jobs[i]`. */
  method RunTierAt(repo: Repo, jobs: seq<Job>, i: nat, ghost before: seq<Command>) returns (e: Entry)
    requires i < |jobs|
    requires repo.log == before + TierCommands(repo.answer, |before|, jobs, i)
    modifies repo`log
    ensures repo.log == before + TierCommands(repo.answer, |before|, jobs, i + 1)
    ensures TierEntries(repo.answer, |before|, jobs, i + 1) == TierEntries(repo.answer, |before|, jobs, i) + [e]
  {
    ghost var t;
    e, t := RunTier(repo, jobs[i]);
    TiersNext(repo.answer, |before|, jobs, i, t);
    CommandsAssoc(before, TierCommands(repo.answer, |before|, jobs, i), t.trace);
  }

  /** One tier: checkout, and the upstream check after a checkout that worked; `t` is
      the tier it ran. */
  method RunTier(repo: Repo, job: Job) returns (e: Entry, ghost t: Tier)
    modifies repo`log
    ensures t == TierRun(repo.answer, |old(repo.log)|, job)
    ensures e == t.entry && repo.log == old(repo.log) + t.trace
  {
    var ok := repo.Checkout(job.branch);
    if !ok {
      t := TierRun(repo.answer, |old(repo.log)|, job);
      return CheckoutFailed(job.branch), t;
    }
    ghost var co := CheckoutTrace(repo.answer, |old(repo.log)|, job.branch);
    repo.EnsureUpstream(job.branch);
    CommandsAssoc(old(repo.log), co, UpstreamTrace(repo.answer, |old(repo.log)| + |co|, job.branch));
    e := TierEntry(job.branch, job.outcome);
    t := TierRun(repo.answer, |old(repo.log)|, job);
  }

  /** The three tiers in order, the action of each ending as given. */
  function Jobs(dev: Step, staging: Step, prod: Step): seq<Job>
  {
    [Job("dev", dev), Job("staging", staging), Job("prod", prod)]
  }

  /** `main`'s git work from position `n`: note the current branch, fetch, run the tiers
      and put the starting branch back; the entries are the summary. */
  function AgentRun(answer: (nat, Command) -> Reply, n: nat, jobs: seq<Job>): Summary
  {
    var start := OutputOr(answer(n, HeadCmd), "unknown");
    var f := FetchTrace(answer, n + 1);
    var m := n + 1 + |f|;
    var c := TierCommands(answer, m, jobs, |jobs|);
    Summary(TierEntries(answer, m, jobs, |jobs|), [HeadCmd] + f + c + RestoreTrace(answer, m + |c|, start))
  }

  /** `main`'s summary has one entry per tier, dev, staging and prod in that order,
      each `checkout failed` or the entry of its own action, and `OK` exactly when its
      checkout worked and its action returned success. */
  lemma AgentEntries(answer: (nat, Command) -> Reply, n: nat, dev: Step, staging: Step, prod: Step)
    ensures var jobs := Jobs(dev, staging, prod);
            var es := AgentRun(answer, n, jobs).entries;
            |es| == |TierNames| &&
            forall k :: 0 <= k < |es| ==>
              es[k].branch == TierNames[k] &&
              (es[k] == CheckoutFailed(TierNames[k]) || es[k] == TierEntry(TierNames[k], jobs[k].outcome)) &&
              (es[k].ok <==>
                 es[k] == TierEntry(TierNames[k], jobs[k].outcome) && jobs[k].outcome.Done? && jobs[k].outcome.ok)
  {
    var jobs := Jobs(dev, staging, prod);
    TiersShape(answer, n + 1 + |FetchTrace(answer, n + 1)|, jobs, |jobs|);
  }

  /** `main` first asks for the current branch and then looks for origin; when the
      starting branch is known, its last command is the checkout that puts it back. */
  lemma AgentBrackets(answer: (nat, Command) -> Reply, n: nat, jobs: seq<Job>)
    ensures var a := AgentRun(answer, n, jobs);
            var start := OutputOr(answer(n, HeadCmd), "unknown");
            |a.trace| >= 2 && a.trace[0] == HeadCmd && a.trace[1] == RemoteCmd &&
            (start != "" && start != "unknown" ==>
               a.trace[|a.trace| - 1] == CheckoutCmd(start) || a.trace[|a.trace| - 1] == ResetCheckoutCmd(start))
  {
  }

  /** One tier's action failing or raising changes nothing else: `main` runs the same
      git commands whatever the actions do, and every tier whose action ends the same
      way keeps its entry. */
  lemma AgentIsolation(answer: (nat, Command) -> Reply, n: nat,
                       dev1: Step, staging1: Step, prod1: Step, dev2: Step, staging2: Step, prod2: Step)
    ensures var a := AgentRun(answer, n, Jobs(dev1, staging1, prod1));
            var b := AgentRun(answer, n, Jobs(dev2, staging2, prod2));
            a.trace == b.trace && |a.entries| == |b.entries| == |TierNames| &&
            (dev1 == dev2 ==> a.entries[0] == b.entries[0]) &&
            (staging1 == staging2 ==> a.entries[1] == b.entries[1]) &&
            (prod1 == prod2 ==> a.entries[2] == b.entries[2])
  {
    var j1 := Jobs(dev1, staging1, prod1);
    var j2 := Jobs(dev2, staging2, prod2);
    TierContained(answer, n + 1 + |FetchTrace(answer, n + 1)|, j1, j2, |j1|);
  }

  lemma Regroup(a: seq<Command>, b: seq<Command>, c: seq<Command>, d: seq<Command>, e: seq<Command>)
    ensures a + b + c + d + e == a + (b + c + d + e)
  {
  }

  /** `main` after the projects are found: the entries and commands of `AgentRun`, and
      `overall` true exactly when every entry is `OK`. */
  method RunAgent(repo: Repo, dev: Step, staging: Step, prod: Step) returns (summary: seq<Entry>, overall: bool)
    modifies repo`log
    ensures var a := AgentRun(repo.answer, |old(repo.log)|, Jobs(dev, staging, prod));
            summary == a.entries && repo.log == old(repo.log) + a.trace
    ensures overall <==> forall i :: 0 <= i < |summary| ==> summary[i].ok
  {
    ghost var n := |old(repo.log)|;
    var start := repo.CurrentBranch();
    ghost var f := FetchTrace(repo.answer, n + 1);
    var _ := repo.Fetch();
    var jobs := Jobs(dev, staging, prod);
    summary, overall := TiersThenRestore(repo, jobs, start, n + 1 + |f|);
    ghost var c := TierCommands(repo.answer, n + 1 + |f|, jobs, |jobs|);
    Regroup(old(repo.log), [HeadCmd], f, c, RestoreTrace(repo.answer, n + 1 + |f| + |c|, start));
  }

  /** The tiers, then the starting branch put back unless it is empty or `unknown`. */
  method TiersThenRestore(repo: Repo, jobs: seq<Job>, start: string, ghost at: nat) returns (summary: seq<Entry>, overall: bool)
    requires at == |repo.log|
    modifies repo`log
    ensures summary == TierEntries(repo.answer, at, jobs, |jobs|)
    ensures var c := TierCommands(repo.answer, at, jobs, |jobs|);
            repo.log == old(repo.log) + c + RestoreTrace(repo.answer, at + |c|, start)
    ensures overall <==> forall i :: 0 <= i < |summary| ==> summary[i].ok
  {
    summary, overall := RunTiers(repo, jobs, at);
    if start != "" && start != "unknown" {
      var _ := repo.Checkout(start);
    }
  }
}
