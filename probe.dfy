/** `_try_download_to_controller` (scripts/grab_archive.py): try download methods times
    `OnlineChangeOption` members in a fixed order and keep the first call that does not
    raise. */
module Probe {
  import opened Text
  import opened Session

  const MethodNames: seq<string> := ["download", "application_download", "program_download"]
  const OptionNames: seq<string> := ["Download", "FullDownload", "All", "Keep"]

  /** The calls tried on method `m` with options: one per defined option, in order. */
  function OptionCalls(m: string, opts: seq<string>, defined: set<string>): seq<Call>
  {
    if |opts| == 0 then []
    else
      OptionCalls(m, opts[..|opts| - 1], defined) +
      (if opts[|opts| - 1] in defined then [Call(m, Some(opts[|opts| - 1]))] else [])
  }

  /** All calls tried on method `m`: the option calls, then the call without arguments. */
  function MethodCalls(m: string, opts: seq<string>, defined: set<string>): seq<Call>
  {
    OptionCalls(m, opts, defined) + [Call(m, None)]
  }

  /** All calls the probe may make, in order: the calls of each exposed method in turn. */
  function Candidates(ms: seq<string>, opts: seq<string>, exposes: set<string>, defined: set<string>): seq<Call>
  {
    if |ms| == 0 then []
    else
      Candidates(ms[..|ms| - 1], opts, exposes, defined) +
      (if ms[|ms| - 1] in exposes then MethodCalls(ms[|ms| - 1], opts, defined) else [])
  }

  predicate AllFail(cs: seq<Call>, failing: map<Call, string>)
  {
    forall i :: 0 <= i < |cs| ==> cs[i] in failing
  }

  /** Index of the first call that does not raise. */
  function FirstWorking(cs: seq<Call>, failing: map<Call, string>): (r: Option<nat>)
  {
    if |cs| == 0 then None
    else if cs[0] !in failing then Some(0)
    else match FirstWorking(cs[1..], failing)
      case None => None
      case Some(k) => Some(k + 1)
  }

  /** `"online_app.%s(%s)"`, or `"online_app.%s()"` for the call without arguments. */
  function Describe(c: Call): string
  {
    "online_app." + c.name + "(" + (if c.option.Some? then c.option.value else "") + ")"
  }

  /** The last error seen when every call raised: `n/a` when nothing was called. */
  function LastError(cs: seq<Call>, failing: map<Call, string>): string
    requires AllFail(cs, failing)
  {
    if |cs| == 0 then "n/a" else failing[cs[|cs| - 1]]
  }

  function NoMethodWorked(lastErr: string): string
  {
    "no working download method (last_err=" + lastErr + ")"
  }

  /** What the probe returns, and the calls it makes on the way. */
  datatype Report = Report(ok: bool, message: string, calls: seq<Call>)

  function ProbeOver(cs: seq<Call>, failing: map<Call, string>): Report
  {
    var w := FirstWorking(cs, failing);
    if w.Some? && w.value < |cs| then Report(true, Describe(cs[w.value]), cs[..w.value + 1])
    else if AllFail(cs, failing) then Report(false, NoMethodWorked(LastError(cs, failing)), cs)
    else Report(false, "", [])
  }

  /** The probe: nothing is called when `OnlineChangeOption` is not defined (`options`
      is `None`); otherwise the candidates are tried until one returns. */
  function Probe(exposes: set<string>, failing: map<Call, string>, options: Option<set<string>>): Report
  {
    if options.None? then Report(false, "OnlineChangeOption missing", [])
    else ProbeOver(Candidates(MethodNames, OptionNames, exposes, options.value), failing)
  }

  // ---------------------------------------------------------------------------------
  // First working call

  lemma {:induction false} FirstWorkingFacts(cs: seq<Call>, failing: map<Call, string>)
    ensures FirstWorking(cs, failing).None? <==> AllFail(cs, failing)
    ensures FirstWorking(cs, failing).Some? ==>
              FirstWorking(cs, failing).value < |cs| && cs[FirstWorking(cs, failing).value] !in failing &&
              AllFail(cs[..FirstWorking(cs, failing).value], failing)
    decreases |cs|
  {
    if |cs| > 0 && cs[0] in failing {
      FirstWorkingFacts(cs[1..], failing);
      var w := FirstWorking(cs[1..], failing);
      if w.Some? {
        assert cs[..w.value + 1] == [cs[0]] + cs[1..][..w.value];
      } else {
        assert forall i :: 1 <= i < |cs| ==> cs[i] == cs[1..][i - 1];
      }
    }
  }

  lemma {:induction false} FirstWorkingAt(p: seq<Call>, c: Call, rest: seq<Call>, failing: map<Call, string>)
    requires AllFail(p, failing) && c !in failing
    ensures FirstWorking(p + [c] + rest, failing) == Some(|p|)
    decreases |p|
  {
    if |p| > 0 {
      assert (p + [c] + rest)[1..] == p[1..] + [c] + rest;
      FirstWorkingAt(p[1..], c, rest, failing);
    }
  }

  lemma ProbeOverAt(p: seq<Call>, c: Call, rest: seq<Call>, failing: map<Call, string>)
    requires AllFail(p, failing) && c !in failing
    ensures ProbeOver(p + [c] + rest, failing) == Report(true, Describe(c), p + [c])
  {
    FirstWorkingAt(p, c, rest, failing);
    assert (p + [c] + rest)[..|p| + 1] == p + [c];
  }

  lemma ProbeOverNone(cs: seq<Call>, failing: map<Call, string>)
    requires AllFail(cs, failing)
    ensures ProbeOver(cs, failing) == Report(false, NoMethodWorked(LastError(cs, failing)), cs)
  {
    FirstWorkingFacts(cs, failing);
  }

  lemma AllFailSnoc(cs: seq<Call>, c: Call, failing: map<Call, string>)
    requires AllFail(cs, failing) && c in failing
    ensures AllFail(cs + [c], failing) && LastError(cs + [c], failing) == failing[c]
  {
  }

  // ---------------------------------------------------------------------------------
  // Splitting the candidate list where the loops stand

  lemma {:induction false} OptionCallsSplit(m: string, opts: seq<string>, k: nat, defined: set<string>)
    requires k <= |opts|
    ensures OptionCalls(m, opts, defined) == OptionCalls(m, opts[..k], defined) + OptionCalls(m, opts[k..], defined)
    decreases |opts|
  {
    if k < |opts| {
      var n := |opts| - 1;
      assert opts[..n][..k] == opts[..k];
      OptionCallsSplit(m, opts[..n], k, defined);
      assert opts[..n][k..] == opts[k..][..|opts[k..]| - 1];
    } else {
      assert opts[..k] == opts;
    }
  }

  lemma OptionCallsStep(m: string, opts: seq<string>, j: nat, defined: set<string>)
    requires j < |opts|
    ensures OptionCalls(m, opts[..j + 1], defined) ==
              OptionCalls(m, opts[..j], defined) + (if opts[j] in defined then [Call(m, Some(opts[j]))] else [])
  {
    assert opts[..j + 1][..j] == opts[..j];
  }

  lemma {:induction false} CandidatesSplit(ms: seq<string>, k: nat, opts: seq<string>, exposes: set<string>, defined: set<string>)
    requires k <= |ms|
    ensures Candidates(ms, opts, exposes, defined) ==
              Candidates(ms[..k], opts, exposes, defined) + Candidates(ms[k..], opts, exposes, defined)
    decreases |ms|
  {
    if k < |ms| {
      var n := |ms| - 1;
      assert ms[..n][..k] == ms[..k];
      CandidatesSplit(ms[..n], k, opts, exposes, defined);
      assert ms[..n][k..] == ms[k..][..|ms[k..]| - 1];
    } else {
      assert ms[..k] == ms;
    }
  }

  lemma CandidatesStep(ms: seq<string>, i: nat, opts: seq<string>, exposes: set<string>, defined: set<string>)
    requires i < |ms|
    ensures Candidates(ms[..i + 1], opts, exposes, defined) ==
              Candidates(ms[..i], opts, exposes, defined) +
              (if ms[i] in exposes then MethodCalls(ms[i], opts, defined) else [])
  {
    assert ms[..i + 1][..i] == ms[..i];
  }

  lemma CandidatesAfter(ms: seq<string>, i: nat, opts: seq<string>, exposes: set<string>, defined: set<string>)
    requires i < |ms|
    ensures Candidates(ms, opts, exposes, defined) ==
              Candidates(ms[..i + 1], opts, exposes, defined) + Candidates(ms[i + 1..], opts, exposes, defined)
  {
    CandidatesSplit(ms, i + 1, opts, exposes, defined);
  }

  /** The calls of method `m` around its option `j`. */
  lemma AtOption(m: string, opts: seq<string>, j: nat, defined: set<string>) returns (rest: seq<Call>)
    requires j < |opts| && opts[j] in defined
    ensures MethodCalls(m, opts, defined) == OptionCalls(m, opts[..j], defined) + [Call(m, Some(opts[j]))] + rest
  {
    OptionCallsSplit(m, opts, j + 1, defined);
    OptionCallsStep(m, opts, j, defined);
    rest := OptionCalls(m, opts[j + 1..], defined) + [Call(m, None)];
  }

  /** The candidates around the calls of method `i`. */
  lemma AtMethod(ms: seq<string>, i: nat, opts: seq<string>, exposes: set<string>, defined: set<string>)
    requires i < |ms| && ms[i] in exposes
    ensures Candidates(ms, opts, exposes, defined) ==
              Candidates(ms[..i], opts, exposes, defined) + MethodCalls(ms[i], opts, defined) +
              Candidates(ms[i + 1..], opts, exposes, defined)
  {
    CandidatesAfter(ms, i, opts, exposes, defined);
    CandidatesStep(ms, i, opts, exposes, defined);
  }

  lemma CallsAssoc(a: seq<Call>, b: seq<Call>, c: seq<Call>)
    ensures a + b + c == a + (b + c)
  {
  }

  /** After calls that all raised, the probe over the rest decides. */
  lemma ProbeOverInside(a: seq<Call>, y: seq<Call>, z: seq<Call>, failing: map<Call, string>)
    requires AllFail(a, failing) && ProbeOver(y, failing).ok
    ensures ProbeOver(a + y + z, failing) == Report(true, ProbeOver(y, failing).message, a + ProbeOver(y, failing).calls)
  {
    FirstWorkingFacts(y, failing);
    var k := FirstWorking(y, failing).value;
    var p := a + y[..k];
    assert AllFail(p, failing) by {
      assert forall i :: |a| <= i < |p| ==> p[i] == y[..k][i - |a|];
    }
    assert a + y + z == p + [y[k]] + (y[k + 1..] + z) by {
      assert y == y[..k] + [y[k]] + y[k + 1..];
    }
    ProbeOverAt(p, y[k], y[k + 1..] + z, failing);
    assert a + y[..k + 1] == p + [y[k]];
  }

  lemma AllFailConcat(a: seq<Call>, b: seq<Call>, failing: map<Call, string>)
    requires AllFail(a, failing) && AllFail(b, failing) && |b| > 0
    ensures AllFail(a + b, failing) && LastError(a + b, failing) == LastError(b, failing)
  {
    assert forall i :: |a| <= i < |a + b| ==> (a + b)[i] == b[i - |a|];
  }

  // ---------------------------------------------------------------------------------
  // The probe as loops

  /** The inner loop for method `m`: each defined option of `opts`, then no arguments. On
      failure `text` is the last error; on success it is the description of the call that
      worked. */
  method TryMethod(app: OnlineApp, m: string, opts: seq<string>, defined: set<string>) returns (ok: bool, text: string)
    modifies app`log
    ensures app.log == old(app.log) + ProbeOver(MethodCalls(m, opts, defined), app.failing).calls
    ensures ok == ProbeOver(MethodCalls(m, opts, defined), app.failing).ok
    ensures ok ==> text == ProbeOver(MethodCalls(m, opts, defined), app.failing).message
    ensures !ok ==> AllFail(MethodCalls(m, opts, defined), app.failing) &&
                    text == LastError(MethodCalls(m, opts, defined), app.failing)
  {
    var j := 0;
    while j < |opts|
      invariant j <= |opts|
      invariant app.log == old(app.log) + OptionCalls(m, opts[..j], defined)
      invariant AllFail(OptionCalls(m, opts[..j], defined), app.failing)
    {
      var o := opts[j];
      ghost var done := OptionCalls(m, opts[..j], defined);
      OptionCallsStep(m, opts, j, defined);
      if o in defined {
        var err := app.Invoke(Call(m, Some(o)));
        CallsAssoc(old(app.log), done, [Call(m, Some(o))]);
        if err.None? {
          var rest := AtOption(m, opts, j, defined);
          ProbeOverAt(done, Call(m, Some(o)), rest, app.failing);
          return true, Describe(Call(m, Some(o)));
        }
        AllFailSnoc(done, Call(m, Some(o)), app.failing);
      } else {
        assert done + [] == done;
      }
      j := j + 1;
    }
    assert opts[..j] == opts;
    ghost var tried := OptionCalls(m, opts, defined);
    var err := app.Invoke(Call(m, None));
    CallsAssoc(old(app.log), tried, [Call(m, None)]);
    if err.None? {
      ProbeOverAt(tried, Call(m, None), [], app.failing);
      assert MethodCalls(m, opts, defined) + [] == MethodCalls(m, opts, defined);
      return true, Describe(Call(m, None));
    }
    AllFailSnoc(tried, Call(m, None), app.failing);
    ProbeOverNone(MethodCalls(m, opts, defined), app.failing);
    return false, err.value;
  }

  /** The outer loop: each method of `ms` that the application exposes, with the
      options of `opts`, until a call returns. */
  method TryCandidates(app: OnlineApp, ms: seq<string>, opts: seq<string>, defined: set<string>)
    returns (ok: bool, message: string)
    modifies app`log
    ensures app.log == old(app.log) + ProbeOver(Candidates(ms, opts, app.exposes, defined), app.failing).calls
    ensures ok == ProbeOver(Candidates(ms, opts, app.exposes, defined), app.failing).ok
    ensures message == ProbeOver(Candidates(ms, opts, app.exposes, defined), app.failing).message
  {
    var lastErr := "n/a";
    var i := 0;
    while i < |ms|
      invariant i <= |ms|
      invariant app.log == old(app.log) + Candidates(ms[..i], opts, app.exposes, defined)
      invariant AllFail(Candidates(ms[..i], opts, app.exposes, defined), app.failing)
      invariant lastErr == LastError(Candidates(ms[..i], opts, app.exposes, defined), app.failing)
    {
      var m := ms[i];
      ghost var before := Candidates(ms[..i], opts, app.exposes, defined);
      ghost var start := app.log;
      CandidatesStep(ms, i, opts, app.exposes, defined);
      if m in app.exposes {
        ghost var calls := MethodCalls(m, opts, defined);
        var found, text := TryMethod(app, m, opts, defined);
        CallsAssoc(old(app.log), before, app.log[|start|..]);
        if found {
          AtMethod(ms, i, opts, app.exposes, defined);
          ProbeOverInside(before, calls, Candidates(ms[i + 1..], opts, app.exposes, defined), app.failing);
          return true, text;
        }
        ProbeOverNone(calls, app.failing);
        AllFailConcat(before, calls, app.failing);
        lastErr := text;
      } else {
        assert before + [] == before;
      }
      i := i + 1;
    }
    assert ms[..i] == ms;
    ProbeOverNone(Candidates(ms, opts, app.exposes, defined), app.failing);
    return false, NoMethodWorked(lastErr);
  }

  /** `_try_download_to_controller`. `options` is the set of members `OnlineChangeOption`
      defines, or `None` when the name is not defined at all. */
  method TryDownload(app: OnlineApp, options: Option<set<string>>) returns (ok: bool, message: string)
    modifies app`log
    ensures app.log == old(app.log) + Probe(app.exposes, app.failing, options).calls
    ensures ok == Probe(app.exposes, app.failing, options).ok
    ensures message == Probe(app.exposes, app.failing, options).message
  {
    if options.None? {
      return false, "OnlineChangeOption missing";
    }
    ok, message := TryCandidates(app, MethodNames, OptionNames, options.value);
  }

  // ---------------------------------------------------------------------------------
  // What the probe promises

  /** Without `OnlineChangeOption` the probe fails at once and calls nothing. */
  lemma ProbeWithoutOption(exposes: set<string>, failing: map<Call, string>)
    ensures Probe(exposes, failing, None) == Report(false, "OnlineChangeOption missing", [])
  {
  }

  /** On success the probe stops at the first call that returned: every earlier call
      raised, and the message names the call that worked. */
  lemma ProbeSuccess(exposes: set<string>, failing: map<Call, string>, options: Option<set<string>>)
    requires Probe(exposes, failing, options).ok
    ensures var r := Probe(exposes, failing, options);
            |r.calls| > 0 && r.calls[|r.calls| - 1] !in failing &&
            AllFail(r.calls[..|r.calls| - 1], failing) &&
            r.message == Describe(r.calls[|r.calls| - 1])
  {
    var cs := Candidates(MethodNames, OptionNames, exposes, options.value);
    FirstWorkingFacts(cs, failing);
    var k := FirstWorking(cs, failing).value;
    assert cs[..k + 1][..k] == cs[..k];
  }

  /** The probe succeeds exactly when some candidate call does not raise. */
  lemma ProbeSucceedsIff(exposes: set<string>, failing: map<Call, string>, options: Option<set<string>>)
    ensures Probe(exposes, failing, options).ok <==>
              options.Some? && !AllFail(Candidates(MethodNames, OptionNames, exposes, options.value), failing)
  {
    if options.Some? {
      FirstWorkingFacts(Candidates(MethodNames, OptionNames, exposes, options.value), failing);
    }
  }

  /** On failure with `OnlineChangeOption` defined, every candidate was called and
      raised, and the message carries the last error, or `n/a` when nothing was called. */
  lemma ProbeFailure(exposes: set<string>, failing: map<Call, string>, defined: set<string>)
    requires !Probe(exposes, failing, Some(defined)).ok
    ensures var cs := Candidates(MethodNames, OptionNames, exposes, defined);
            Probe(exposes, failing, Some(defined)).calls == cs && AllFail(cs, failing) &&
            Probe(exposes, failing, Some(defined)).message ==
              NoMethodWorked(if cs == [] then "n/a" else failing[cs[|cs| - 1]])
  {
    var cs := Candidates(MethodNames, OptionNames, exposes, defined);
    FirstWorkingFacts(cs, failing);
  }

  // ---------------------------------------------------------------------------------
  // The order of the candidates, stated without the recursion that builds them

  predicate Distinct(xs: seq<string>)
  {
    forall i, j :: 0 <= i < j < |xs| ==> xs[i] != xs[j]
  }

  /** Position of the first `x` in `xs`; `|xs|` when there is none. */
  function Pos(x: string, xs: seq<string>): (r: nat)
    ensures r <= |xs| && (r < |xs| <==> x in xs) && (r < |xs| ==> xs[r] == x)
  {
    if |xs| == 0 then 0 else if xs[0] == x then 0 else Pos(x, xs[1..]) + 1
  }

  /** Rank of a call's option: its position among the option names, the call without
      arguments last. */
  function OptRank(o: Option<string>, opts: seq<string>): nat
  {
    if o.None? then |opts| else Pos(o.value, opts)
  }

  /** A call the probe may make: an exposed method among `ms`, and either no option or a
      defined option among `opts`. */
  predicate Eligible(c: Call, ms: seq<string>, opts: seq<string>, exposes: set<string>, defined: set<string>)
  {
    c.name in ms && c.name in exposes && (c.option.Some? ==> c.option.value in opts && c.option.value in defined)
  }

  /** Call `c` comes before call `d`: an earlier method, or the same method and an
      earlier option. */
  predicate Precedes(c: Call, d: Call, ms: seq<string>, opts: seq<string>)
  {
    Pos(c.name, ms) < Pos(d.name, ms) ||
    (c.name == d.name && OptRank(c.option, opts) < OptRank(d.option, opts))
  }

  lemma {:induction false} PosInPrefix(x: string, xs: seq<string>, n: nat)
    requires n <= |xs| && x in xs[..n]
    ensures Pos(x, xs) == Pos(x, xs[..n]) < n
    decreases n
  {
    if xs[0] != x {
      assert x in xs[1..][..n - 1] by {
        var k :| 0 <= k < n && xs[..n][k] == x;
        assert xs[1..][..n - 1][k - 1] == x;
      }
      PosInPrefix(x, xs[1..], n - 1);
      assert xs[..n][1..] == xs[1..][..n - 1];
    }
  }

  lemma PosOfLast(xs: seq<string>)
    requires Distinct(xs) && |xs| > 0
    ensures Pos(xs[|xs| - 1], xs) == |xs| - 1
  {
  }

  lemma {:induction false} OptionCallsFacts(m: string, opts: seq<string>, defined: set<string>)
    requires Distinct(opts)
    ensures forall c :: c in OptionCalls(m, opts, defined) <==>
              c.name == m && c.option.Some? && c.option.value in opts && c.option.value in defined
    ensures forall i, j :: 0 <= i < j < |OptionCalls(m, opts, defined)| ==>
              var c, d := OptionCalls(m, opts, defined)[i], OptionCalls(m, opts, defined)[j];
              c.option.Some? && d.option.Some? && c.option.value in opts && d.option.value in opts &&
              Pos(c.option.value, opts) < Pos(d.option.value, opts)
    decreases |opts|
  {
    if |opts| > 0 {
      var n := |opts| - 1;
      var p := opts[..n];
      assert Distinct(p);
      OptionCallsFacts(m, p, defined);
      var xs := OptionCalls(m, p, defined);
      var ys := OptionCalls(m, opts, defined);
      assert ys == xs + (if opts[n] in defined then [Call(m, Some(opts[n]))] else []);
      forall c | c in xs
        ensures c.option.value in p && Pos(c.option.value, opts) == Pos(c.option.value, p) < n
      {
        PosInPrefix(c.option.value, opts, n);
      }
      forall o | o in opts
        ensures o in p || o == opts[n]
      {
        var k :| 0 <= k < |opts| && opts[k] == o;
        if k < n { assert p[k] == o; }
      }
      forall i, j | 0 <= i < j < |ys|
        ensures ys[i].option.Some? && ys[j].option.Some? && ys[i].option.value in opts && ys[j].option.value in opts &&
                Pos(ys[i].option.value, opts) < Pos(ys[j].option.value, opts)
      {
        assert ys[i] in xs;
        if j < |xs| {
          assert ys[j] in xs;
        } else {
          assert ys[j] == Call(m, Some(opts[n]));
        }
      }
    }
  }

  lemma MethodCallsFacts(m: string, opts: seq<string>, defined: set<string>)
    requires Distinct(opts)
    ensures forall c :: c in MethodCalls(m, opts, defined) <==>
              c.name == m && (c.option.Some? ==> c.option.value in opts && c.option.value in defined)
    ensures forall i, j :: 0 <= i < j < |MethodCalls(m, opts, defined)| ==>
              var c, d := MethodCalls(m, opts, defined)[i], MethodCalls(m, opts, defined)[j];
              (c.option.Some? ==> c.option.value in opts) && (d.option.Some? ==> d.option.value in opts) &&
              OptRank(c.option, opts) < OptRank(d.option, opts)
  {
    OptionCallsFacts(m, opts, defined);
    var xs := OptionCalls(m, opts, defined);
    var ys := MethodCalls(m, opts, defined);
    forall i, j | 0 <= i < j < |ys|
      ensures (ys[i].option.Some? ==> ys[i].option.value in opts) && (ys[j].option.Some? ==> ys[j].option.value in opts) &&
              OptRank(ys[i].option, opts) < OptRank(ys[j].option, opts)
    {
      assert ys[i] == xs[i];
      if j < |xs| {
        assert ys[j] == xs[j];
      } else {
        assert ys[j] == Call(m, None);
      }
    }
  }

  /** The candidates are exactly the eligible calls. */
  lemma {:induction false} CandidatesMembers(ms: seq<string>, opts: seq<string>, exposes: set<string>, defined: set<string>)
    requires Distinct(opts)
    ensures forall c :: c in Candidates(ms, opts, exposes, defined) <==> Eligible(c, ms, opts, exposes, defined)
    decreases |ms|
  {
    if |ms| > 0 {
      var n := |ms| - 1;
      CandidatesMembers(ms[..n], opts, exposes, defined);
      MethodCallsFacts(ms[n], opts, defined);
      forall x | x in ms
        ensures x in ms[..n] || x == ms[n]
      {
        var k :| 0 <= k < |ms| && ms[k] == x;
        if k < n { assert ms[..n][k] == x; }
      }
    }
  }

  /** The candidates come in strictly increasing order: method by method in the order
      given, and within a method option by option, the call without arguments last. */
  lemma {:induction false} CandidatesOrdered(ms: seq<string>, opts: seq<string>, exposes: set<string>, defined: set<string>)
    requires Distinct(ms) && Distinct(opts)
    ensures forall c :: c in Candidates(ms, opts, exposes, defined) ==> Eligible(c, ms, opts, exposes, defined)
    ensures forall i, j :: 0 <= i < j < |Candidates(ms, opts, exposes, defined)| ==>
              Precedes(Candidates(ms, opts, exposes, defined)[i], Candidates(ms, opts, exposes, defined)[j], ms, opts)
    decreases |ms|
  {
    CandidatesMembers(ms, opts, exposes, defined);
    if |ms| > 0 {
      var n := |ms| - 1;
      var p := ms[..n];
      assert Distinct(p);
      CandidatesOrdered(p, opts, exposes, defined);
      CandidatesMembers(p, opts, exposes, defined);
      MethodCallsFacts(ms[n], opts, defined);
      var xs := Candidates(p, opts, exposes, defined);
      var tail := if ms[n] in exposes then MethodCalls(ms[n], opts, defined) else [];
      var ys := Candidates(ms, opts, exposes, defined);
      assert ys == xs + tail;
      forall c | c in xs
        ensures Pos(c.name, ms) == Pos(c.name, p) < n
      {
        PosInPrefix(c.name, ms, n);
      }
      forall i, j | 0 <= i < j < |ys|
        ensures Precedes(ys[i], ys[j], ms, opts)
      {
        if j < |xs| {
          assert ys[i] == xs[i] && ys[j] == xs[j];
          assert Precedes(xs[i], xs[j], p, opts);
        } else if i < |xs| {
          assert ys[i] in xs && ys[j] in tail;
          assert Pos(ys[j].name, ms) == n;
        } else {
          assert ys[i] == tail[i - |xs|] && ys[j] == tail[j - |xs|];
        }
      }
    }
  }

  lemma NamesDistinct()
    ensures Distinct(MethodNames) && Distinct(OptionNames)
  {
  }

  /** Every call the probe makes is an eligible one, and the calls come in the fixed
      order: `download`, `application_download`, `program_download`, each with
      `Download`, `FullDownload`, `All`, `Keep` and then no arguments. */
  lemma ProbeOrder(exposes: set<string>, failing: map<Call, string>, defined: set<string>)
    ensures var r := Probe(exposes, failing, Some(defined));
            (forall c :: c in r.calls ==> Eligible(c, MethodNames, OptionNames, exposes, defined)) &&
            forall i, j :: 0 <= i < j < |r.calls| ==> Precedes(r.calls[i], r.calls[j], MethodNames, OptionNames)
  {
    NamesDistinct();
    var cs := Candidates(MethodNames, OptionNames, exposes, defined);
    CandidatesOrdered(MethodNames, OptionNames, exposes, defined);
    FirstWorkingFacts(cs, failing);
    var r := Probe(exposes, failing, Some(defined));
    forall c | c in r.calls
      ensures c in cs
    {
      var k :| 0 <= k < |r.calls| && r.calls[k] == c;
      assert cs[k] == c;
    }
    forall i, j | 0 <= i < j < |r.calls|
      ensures Precedes(r.calls[i], r.calls[j], MethodNames, OptionNames)
    {
      assert r.calls[i] == cs[i] && r.calls[j] == cs[j];
    }
  }

  lemma HeadMember(cs: seq<Call>)
    requires |cs| > 0
    ensures cs[0] in cs
  {
  }

  /** When no download method is exposed nothing is called and the error is `n/a`. */
  lemma NothingExposed(exposes: set<string>, failing: map<Call, string>, defined: set<string>)
    requires forall m :: m in MethodNames ==> m !in exposes
    ensures Probe(exposes, failing, Some(defined)) == Report(false, NoMethodWorked("n/a"), [])
  {
    NamesDistinct();
    CandidatesMembers(MethodNames, OptionNames, exposes, defined);
    var cs := Candidates(MethodNames, OptionNames, exposes, defined);
    if |cs| > 0 {
      HeadMember(cs);
      assert false;
    }
    ProbeOverNone(cs, failing);
  }
}
