# PLC_Demo agent scripts, modelled in Dafny

PLC_Demo drives a CODESYS controller from four IronPython scripts:

- `scripts/grab_archive.py` is the multi-branch agent. It finds the dev, staging and
  prod projects, captures dev and commits it, then deploys staging and prod when origin
  has new commits. It keeps one summary entry per tier.
- `scripts/dev_capture.py` captures the development project on its own.
- `scripts/deploy_staging.py` deploys staging.
- `scripts/deploy_prod.py` deploys prod.

The project models the decision logic of those scripts. The world they talk to is
represented by oracles:

- **git.** A `Git.Repo` object appends every git command it runs to its `log`. The reply
  to each command comes from a function of the command's position in the run and its
  arguments, so any behaviour of the repository can be expressed.
- **Device and online application.** `Session.Device` and `Session.OnlineApp` are
  classes. They hold the set of members `hasattr` finds, which calls raise (with their
  error text), the state the scripts read and a log of the calls made.
- **Projects.** `Deploy.Projects` plays the same role for the CODESYS `projects` object.
- **Waiting.** A wait is a bounded number of observations.

The modules:

- `Text`: character classes, `strip`, `splitlines`, `find`, `lower`, Python's string
  order, and the lazy `a.*?b` search.
- `Timestamps`: the `creationDateTime` and `modificationDateTime` scrub shared by both
  normalisers.
- `SortedSet`: `sorted(set(xs), key=...)`.
- `Placeholders`: the `<PlaceholderRedirections>` container and the rebuilt block.
- `ArchiveNormalizer`: `normalize_plcopen_xml` of grab_archive.py. It has the rebuild as
  written, which the file operation follows, and a corrected rebuild beside it (see
  Findings).
- `CaptureNormalizer`: `normalize_plcopen_xml` of dev_capture.py, whose regular
  expressions are written out as scanning functions.
- `Probe`: `_try_download_to_controller`, the ordered download probe.
- `Session`: credential injection, the connect loop, the poll, login, and the
  best-effort teardown of every script.
- `Deploy`:
  - `_start_if_needed`, `_deploy_boot_app` and `_open_archive_as_project` of the staging
    script;
  - `_list_methods`, `_best_effort_restart` and `_deploy_via_boot_application` of the
    prod script;
  - the source pull and export fallback of dev_capture.py.
- `Git`: the git helpers and their decisions. These are the remote-ahead gate, checkout
  with its `-B` fallback, commit-if-dirty, and checkout-then-pull.
- `Orchestrator`: the two actions `run_capture_dev` and `run_deploy`.
- `Tiers`: the tier loop of `main`, with its summary and `overall` flag, and the restore
  of the starting branch.
- `Discovery`: the project mapping of `discover_projects`.

## Model

| member | source | states |
|---|---|---|
| Timestamps.MatchLen | scripts/grab_archive.py:237-238 | a match of `NAME="[^"]+"` starts with the attribute prefix, holds at least one value character, ends at a quote, and has no quote inside the value |
| Timestamps.CreationPrefixGood | scripts/grab_archive.py:237 | `creationDateTime="` ends with its only quote and no proper suffix of it is also a prefix of it, which is what makes its substitution idempotent |
| Timestamps.ModificationPrefixGood | scripts/grab_archive.py:238 | the same for `modificationDateTime="` |
| Timestamps.SubQuoteFree | scripts/grab_archive.py:237-238 | text without a quote character is left untouched by the substitution |
| Timestamps.ValueReplaced | scripts/dev_capture.py:186-187 | a non-empty quote-free value after the attribute prefix becomes `1970-01-01T00:00:00`, and scanning goes on after the closing quote; both normalisers use this same scrub |
| Timestamps.SubIdempotent | scripts/grab_archive.py:237-238 | applying a timestamp substitution a second time changes nothing |
| SortedSet.Insert | scripts/grab_archive.py:247 | inserting into a strictly sorted list keeps it strictly sorted and adds exactly the new element |
| SortedSet.SortUnique | scripts/grab_archive.py:247 | the result is strictly ascending (so duplicate-free) and has exactly the elements of the input |
| SortedSet.SortedUnique | scripts/grab_archive.py:247 | two strictly sorted lists with the same elements are equal, so the result is determined by the set of inputs |
| SortedSet.SortUniqueOfSorted | scripts/grab_archive.py:247 | an already sorted, duplicate-free list comes back unchanged |
| SortedSet.SortUniqueOrderInvariant | scripts/dev_capture.py:211 | the result does not depend on the order or repetition of the input |
| SortedSet.BeforeTotal | scripts/dev_capture.py:207-211 | the key-then-element order ranks any two distinct tags, which fixes the order of tags whose keys tie |
| Text.FoundPairFacts | scripts/grab_archive.py:240 | the lazy search's span starts with the first opening tag and ends with the first closing tag after it, with no closing tag in between |
| Text.MissingPairFacts | scripts/grab_archive.py:240 | when nothing is found, no closing tag follows any opening tag |
| Text.LinesJoin | scripts/grab_archive.py:244 | splitting lines that hold no line break, joined by line feeds, gives back those lines |
| Text.StripEnds | scripts/grab_archive.py:246 | a stripped line neither starts nor ends with whitespace |
| Text.LessTotal | scripts/grab_archive.py:247 | Python's string order ranks any two different strings |
| Placeholders.Indented | scripts/grab_archive.py:249 | every entry gets the indent in front of it, and the count is kept |
| Placeholders.NameFacts | scripts/dev_capture.py:190 | the entry name `<PlaceholderRedirection` is a proper prefix of the container name and is followed there by a word character; neither holds whitespace or `>` |
| Placeholders.CloseTagHasNoMarker | scripts/grab_archive.py:245 | the closing container tag does not mention `<PlaceholderRedirection` |
| Placeholders.RebuildSingle | scripts/grab_archive.py:249 | a block rebuilt from one entry is the opening tag, the indented entry and the closing tag, on three lines |
| ArchiveNormalizer.FindBlock | scripts/grab_archive.py:240 | a block found lies within the text and is long enough to hold both container tags |
| ArchiveNormalizer.FindBlockFacts | scripts/grab_archive.py:240 | the block found starts with `<PlaceholderRedirections>` and ends with `</PlaceholderRedirections>`; no block means no closing tag after any opening tag |
| ArchiveNormalizer.InteriorHasNoCloseTag | scripts/grab_archive.py:240 | the match is non-greedy: the inside of the block holds no closing tag |
| ArchiveNormalizer.FindBlockAt | scripts/grab_archive.py:240 | a block written after text without an opening tag, whose inside holds no closing tag, is the block found |
| ArchiveNormalizer.MarkerLineOrigin | scripts/grab_archive.py:243-246 | every collected entry is the stripped form of a line that mentions `<PlaceholderRedirection` |
| ArchiveNormalizer.MarkerLinesMembers | scripts/grab_archive.py:243-246 | the collected entries are exactly the stripped lines that mention the marker |
| ArchiveNormalizer.CollectRedirections | scripts/grab_archive.py:243-246 | the loop that builds `redirs` collects the stripped marker lines in order |
| ArchiveNormalizer.ExportFile.constructor | scripts/grab_archive.py:228-236 | the file holds its decoded text and has not been written |
| ArchiveNormalizer.ExportFile.Normalize | scripts/grab_archive.py:227-257 | the text becomes its normalisation as written, with the block rebuilt from every line of the matched span; the file is rewritten, once, exactly when that changed the text |
| ArchiveNormalizer.ExportFile.NormalizeCorrected | scripts/grab_archive.py:227-257 | the corrected operation: the block is rebuilt from the lines between its tags only; the file is rewritten, once, exactly when that changed the text |
| ArchiveNormalizer.SpliceKeepsSurroundings | scripts/grab_archive.py:250 | for the rebuild as written and the corrected one alike, only the block is replaced by its rebuilt form: the text before and after it is kept exactly, and a text without a block is returned unchanged |
| ArchiveNormalizer.EntriesSortedUnique | scripts/grab_archive.py:243-247 | the rebuilt entries are distinct and ascending, and they are exactly the stripped lines that mention the marker: of the whole matched span as written, of the part between the container tags when corrected |
| ArchiveNormalizer.OpeningTagAlwaysCollected | scripts/grab_archive.py:243-249 | as written: the container's opening tag is always among the entries, so the empty-block branch is never taken |
| ArchiveNormalizer.EmptyBlockGainsEntry | scripts/grab_archive.py:249-250 | as written: an empty block is rewritten with a copy of its own opening tag as an entry |
| ArchiveNormalizer.CorrectedEmptyBlock | scripts/grab_archive.py:249-250 | with only the interior collected, an empty block stays the empty pair |
| ArchiveNormalizer.RebuiltEntries | scripts/grab_archive.py:247-249 | reading the entries back from a rebuilt block gives the sorted entries it was built from |
| ArchiveNormalizer.CanonicalizeInteriorIdempotent | scripts/grab_archive.py:240-250 | with the corrected rebuild, rebuilding the block of an already rebuilt text changes nothing; the rebuild as written is not idempotent (see Findings) |
| ArchiveNormalizer.GluedFound | scripts/grab_archive.py:240 | in a text that starts with a block whose entry line also holds the closing tag, the lazy search stops at that closing tag, whatever follows |
| ArchiveNormalizer.GluedEntries | scripts/grab_archive.py:243-247 | as written, such a block yields two entries: the entry line with its closing tag, then the opening tag |
| ArchiveNormalizer.GluedGrows | scripts/grab_archive.py:240-250 | as written, rebuilding a text that starts with such a block keeps the block and inserts another indented opening tag and closing tag after it, whatever follows; so each run inserts one more |
| ArchiveNormalizer.AsWrittenNotIdempotent | scripts/grab_archive.py:237-250 | as written, the whole normalisation of such a block (without quotes) is not idempotent: the second run differs from the first by exactly one more inserted tail |
| ArchiveNormalizer.GluedEntryGrows | scripts/grab_archive.py:237-250 | the block holding the one line `<PlaceholderRedirection a/></PlaceholderRedirections>` is such a block, so normalising it a second time changes it again |
| CaptureNormalizer.PairAt | scripts/dev_capture.py:190 | a match of the block pattern at a position ends inside the text, after the name, a `>` and the closing tag |
| CaptureNormalizer.FindPairFrom | scripts/dev_capture.py:190-191 | the search returns a position at or after its start where the block pattern matches, with the end of that match |
| CaptureNormalizer.FindPairFromFirst | scripts/dev_capture.py:190-191 | the search returns the leftmost match: the pattern matches at no earlier position, or nowhere when nothing is found |
| CaptureNormalizer.FindBlock | scripts/dev_capture.py:190-191 | a block found lies within the text and holds the name, a `>` and the closing tag |
| CaptureNormalizer.TagLen | scripts/dev_capture.py:197 | a tag match is at least the marker plus `/>` long and lies within the text |
| CaptureNormalizer.TagLenIsTag | scripts/dev_capture.py:197 | the tag pattern matches the first `n` characters exactly when they form a tag: name, word boundary, no `>`, a last non-blank `/`, then `>` |
| CaptureNormalizer.FindTagsAreTags | scripts/dev_capture.py:197-198 | every tag `findall` returns is such a tag |
| CaptureNormalizer.ContainerNeverCollected | scripts/dev_capture.py:197-198 | because of `\b`, no collected tag starts with the container name: the container tag is never collected |
| CaptureNormalizer.Collapse | scripts/dev_capture.py:202 | collapsing keeps the text empty exactly when it was, and turns a leading whitespace character into a space |
| CaptureNormalizer.CollapseIsSingleSpaced | scripts/dev_capture.py:202 | after collapsing, every whitespace character is a single space followed by non-whitespace |
| CaptureNormalizer.CollapseSingleSpaced | scripts/dev_capture.py:202 | collapsing text that is already single-spaced changes nothing |
| CaptureNormalizer.SlashCloseLen | scripts/dev_capture.py:203 | a match of `\s*/\s*>` is at least two characters and ends with `>` |
| CaptureNormalizer.CloseSubWhole | scripts/dev_capture.py:203 | a text that is one whole closing match becomes ` />` |
| CaptureNormalizer.CanonAll | scripts/dev_capture.py:200-204 | one canonical form per collected tag, in order |
| CaptureNormalizer.CanonTags | scripts/dev_capture.py:200-204 | the loop that builds `canon` appends each tag's canonical form in order |
| CaptureNormalizer.CanonIsCanonical | scripts/dev_capture.py:202-203 | canonicalising a tag gives the entry name, single spaces only, and ` />` at the end |
| CaptureNormalizer.CanonIdempotent | scripts/dev_capture.py:202-203 | canonicalising a canonical tag again changes nothing |
| CaptureNormalizer.EntriesFacts | scripts/dev_capture.py:207-211 | the entries are strictly ascending by `Placeholder` value (ties broken by the tag), each is canonical, and they are exactly the canonical forms of the block's tags |
| CaptureNormalizer.FindTagsRebuilt | scripts/dev_capture.py:214-220 | scanning a rebuilt block for tags finds exactly its entries, in order |
| CaptureNormalizer.FindTagsEmptyBlock | scripts/dev_capture.py:220 | the empty pair holds no tag |
| CaptureNormalizer.EntriesRebuilt | scripts/dev_capture.py:211-220 | the entries of a block rebuilt from sorted canonical entries are those entries |
| CaptureNormalizer.CanonicalizeBlockIdempotent | scripts/dev_capture.py:190-222 | rebuilding the first block of an already rebuilt text changes nothing |
| CaptureNormalizer.ExpandIdempotent | scripts/dev_capture.py:225-229 | replacing self-closing containers by the empty pair a second time changes nothing |
| CaptureNormalizer.CaptureFile.constructor | scripts/dev_capture.py:174-183 | the file holds its decoded text and has not been written |
| CaptureNormalizer.CaptureFile.Normalize | scripts/dev_capture.py:172-236 | the text becomes its normalisation (scrub, block rebuild, self-closing expansion); the file is rewritten, once, exactly when that changed the text |
| Probe.FirstWorkingFacts | scripts/grab_archive.py:351-367 | the first call that does not raise is found exactly when not all raise, and every call before it raised |
| Probe.TryMethod | scripts/grab_archive.py:354-367 | the inner loop makes the option calls and then the call without arguments, stops at the first that returns, and on failure reports the last error |
| Probe.TryCandidates | scripts/grab_archive.py:351-369 | the outer loop makes the calls of `ProbeOver` over the candidates and returns its verdict and message |
| Probe.TryDownload | scripts/grab_archive.py:342-369 | `_try_download_to_controller` makes exactly the calls of `Probe` and returns its verdict and message |
| Probe.ProbeWithoutOption | scripts/grab_archive.py:343-345 | without `OnlineChangeOption` the probe fails with `OnlineChangeOption missing` and calls nothing |
| Probe.ProbeSuccess | scripts/grab_archive.py:358-365 | on success the last call made returned, every earlier one raised, and the message names that call as `online_app.m(opt)` or `online_app.m()` |
| Probe.ProbeSucceedsIff | scripts/grab_archive.py:342-369 | the probe succeeds exactly when `OnlineChangeOption` exists and some candidate call does not raise |
| Probe.ProbeFailure | scripts/grab_archive.py:349-369 | on failure every candidate was called and raised, and the message carries the last error, or `n/a` when nothing was called |
| Probe.CandidatesMembers | scripts/grab_archive.py:351-357 | the candidates are exactly the exposed methods combined with the defined options or with no arguments |
| Probe.CandidatesOrdered | scripts/grab_archive.py:351-357 | the candidates come method by method in the given order, and within a method option by option, with the call without arguments last |
| Probe.ProbeOrder | scripts/grab_archive.py:347-365 | the calls made are eligible ones, in the order `download`, `application_download`, `program_download`, each with `Download`, `FullDownload`, `All`, `Keep` and then no arguments |
| Probe.NothingExposed | scripts/grab_archive.py:349-369 | with no download method exposed nothing is called and the last error is `n/a` |
| Session.TriesClosedForm | scripts/dev_capture.py:295-307 | the retry loop makes at most three `connect()` calls, stops at the first that returns, and keeps the error of the last one that raised |
| Session.CredentialCalls | scripts/dev_capture.py:280-292 | credentials are injected only when both user and password are non-empty, the second injection only when the device offers it |
| Session.Device.constructor | scripts/dev_capture.py:278 | a device with the given members, failures, link state and pending connect errors, with nothing called yet |
| Session.Device.Invoke | scripts/dev_capture.py:283-290 | a device call is logged and raises exactly when it is a failing one |
| Session.Device.Connect | scripts/dev_capture.py:302-306 | `connect()` raises the next pending error, or returns and starts the link |
| Session.Device.Observe | scripts/dev_capture.py:309-313 | one observation brings a link on its way up one step closer; nothing else changes |
| Session.Device.Disconnect | scripts/dev_capture.py:333-334 | a disconnect that returns drops the link; one that raises leaves the link state as it was |
| Session.OnlineApp.constructor | scripts/dev_capture.py:277 | an online application with the given members, failures, state and login behaviour, with nothing called yet |
| Session.OnlineApp.Invoke | scripts/grab_archive.py:359 | a call on the application is logged and raises exactly when it is a failing one |
| Session.OnlineApp.Login | scripts/dev_capture.py:324 | `login(Keep, False)` is logged, and leaves the session logged in when it returns and login works |
| Session.OnlineApp.Logout | scripts/dev_capture.py:339 | `logout()` is logged and ends the session when it returns |
| Session.InjectCredentials | scripts/dev_capture.py:280-292 | the calls made are the credential calls; their failures are swallowed |
| Session.ConnectLoop | scripts/dev_capture.py:295-307 | a device that reads as connected gets no `connect()`; otherwise the calls, the last error and the link state are those of the retry loop |
| Session.WaitConnected | scripts/dev_capture.py:309-316 | afterwards the device reads as connected exactly when it already did, or its link was coming up within the polls |
| Session.LoginError | scripts/dev_capture.py:319-326 | the login step raises nothing exactly when the session was logged in already, or `login(Keep, False)` is called, returns and logs the session in; an error without a login call is a missing `OnlineChangeOption` or a missing `Keep` |
| Session.Login | scripts/dev_capture.py:319-326 | login only when logged out, once, with `Keep`; a missing `OnlineChangeOption` raises, and so does one without `Keep` (the attribute lookup), both before any call; the error of `login` escapes; a session still logged out raises `Login failed`; no error exactly when logged in afterwards |
| Session.SessionError | scripts/grab_archive.py:290-328 | what `_connect_and_login` raises, from the state before it: nothing exactly when the connect step does not raise, the link comes up within the polls and the session is, or by a working `login` call gets, logged in; the first connect error when the single connect raises |
| Session.ConnectAndLogin | scripts/dev_capture.py:276-328 | the error raised is exactly `SessionError` of the state before the call; the device calls are exactly the credential and connect calls; the device reads as connected afterwards exactly when the connect step did not raise and, with `connected` exposed, it was connected already or its link (already coming up, or started by a `connect()` that returned: the single connect, or the retry loop's `Tries(errors, 3).linked`) needed fewer observations than the polls; no error exactly when connected and logged in; once connected the application calls are the login step's, otherwise there are none; the retry flavour makes up to three connects and raises with the last error; the single-connect flavour of scripts/grab_archive.py lets the first connect error escape and leaves the device unconnected |
| Session.DisconnectBestEffort | scripts/dev_capture.py:331-341 | disconnects only a connected device that offers it, logs out whenever the application offers it (also after a failed disconnect), and never raises |
| Deploy.StartOnlyWhenNotRunning | scripts/deploy_staging.py:160-178 | a state read as running gets no `start`; otherwise `start` is called whenever it exists, also when reading the state raised |
| Deploy.RunningIgnoresCase | scripts/deploy_staging.py:166 | the running test ignores letter case |
| Deploy.StartIfNeeded | scripts/deploy_staging.py:160-178 | always returns true and makes exactly the calls of the start decision, with failures swallowed |
| Deploy.DeployBootApp | scripts/deploy_staging.py:181-188 | without the member: `create_boot_application not available` and no call; with it: create, then start-if-needed, `(True, "create_boot_application")`; a failing create escapes without a start |
| Deploy.ExposedCallsMembers | scripts/deploy_prod.py:182-197 | a call is made exactly for each exposed name, without arguments |
| Deploy.RestartSequence | scripts/deploy_prod.py:182-197 | the restart calls are whichever of stop, start, reset and restart exist, in that order |
| Deploy.CallEach | scripts/deploy_prod.py:182-188 | one loop calls each exposed name in order; a failing call does not stop the later ones |
| Deploy.BestEffortRestart | scripts/deploy_prod.py:176-197 | the calls made are the exposed members of stop, start, reset and restart, in that order |
| Deploy.DeployViaBootApplication | scripts/deploy_prod.py:200-218 | absent member: not available and no restart; a raising create: false with the error text; success: the restart sequence, then `(True, "OnlineApp.create_boot_application()")` |
| Deploy.SelectedMembers | scripts/deploy_prod.py:164-167 | the members selected are exactly those whose lowercased name contains download, boot, create, start, stop or reset |
| Deploy.ListMethods | scripts/deploy_prod.py:161-171 | the reported names are exactly the selected members, strictly ascending |
| Deploy.SourceCallsFacts | scripts/dev_capture.py:381-388 | at most one pull, `source_download` preferred, `source_upload` only as the fallback |
| Deploy.PullSource | scripts/dev_capture.py:381-388 | the pull made is the one chosen, and its error escapes |
| Deploy.ExportFallback | scripts/dev_capture.py:424-442 | the application export comes first, the project export only when that raised, and the export works exactly when one of them does |
| Deploy.ArchiveOrder | scripts/deploy_staging.py:206-225 | `open_archive` is tried exactly when it exists and first; `open` only when `open_archive` is missing or raised; the last call is an open |
| Deploy.Projects.constructor | scripts/deploy_staging.py:73-78 | the projects object with its members, failures, files and primary project, with nothing called yet |
| Deploy.Projects.CloseBestEffort | scripts/deploy_staging.py:61-70 | the primary project is closed when it has `close`; a close that raises leaves it open and is swallowed |
| Deploy.Projects.OpenPath | scripts/deploy_staging.py:77 | an open that returns makes the path the primary project; one that raises leaves it |
| Deploy.Projects.OpenPrimary | scripts/deploy_staging.py:73-78 | close first; a project still open afterwards is returned instead of opening `path`; otherwise `path` is opened |
| Deploy.Projects.OpenArchiveAsProject | scripts/deploy_staging.py:201-225 | a missing file raises before any call; otherwise the calls follow the fallback order, the archive opens exactly when one route works, and the error names the failure |
| Git.WordEnd | scripts/grab_archive.py:131 | the first word of a text runs up to its first whitespace character |
| Git.WordsAreWords | scripts/grab_archive.py:131 | every piece `split()` returns is non-empty and holds no whitespace |
| Git.WordsOfListing | scripts/grab_archive.py:129-131 | `split()` of a one-name-per-line listing gives the names back |
| Git.OriginListedIff | scripts/grab_archive.py:129-131 | origin is found exactly when it is one of the remotes listed |
| Git.RemoteAheadCases | scripts/grab_archive.py:170-175 | the gate is closed when either revision is empty, and otherwise open exactly when they differ |
| Git.DirtyIff | scripts/grab_archive.py:185-199 | the stripped status is non-empty exactly when the status command succeeded and printed something other than whitespace |
| Git.CleanTreeUntouched | scripts/grab_archive.py:196-199 | a clean tree gives `(True, "clean")` with no add, commit or push |
| Git.CommitNotes | scripts/grab_archive.py:192-222 | success goes with exactly the notes `clean`, `nothing to commit` and `committed+push`; the status comes first |
| Git.AddFailureStops | scripts/grab_archive.py:204-207 | a failed `add -A` stops the sequence with `git add -A failed` |
| Git.NothingToCommitSucceeds | scripts/grab_archive.py:209-212 | a failed commit whose output says "nothing to commit", in any case, is a success without a push |
| Git.CommitFailureStops | scripts/grab_archive.py:209-214 | any other commit failure gives `git commit failed` without a push |
| Git.CommittedWithoutOrigin | scripts/grab_archive.py:216-222 | a commit without origin is reported as `committed+push` though nothing is pushed |
| Git.CommittedAndPushed | scripts/grab_archive.py:216-222 | with origin the commit is pushed and the push decides the result, `git push failed` on failure |
| Git.PushOnlyWithOrigin | scripts/grab_archive.py:216-220 | a push happens only after a successful commit and only when origin is listed |
| Git.GateFacts | scripts/grab_archive.py:422-438 | the deploy goes on only after a successful fast-forward; a pull happens only with origin and the remote ahead; an up-to-date branch stops with `(True, "no remote changes")` and no pull |
| Git.CheckoutFallback | scripts/grab_archive.py:147-156 | the plain checkout comes first, `checkout -B` runs exactly when it fails, and the checkout fails only when both do |
| Git.UpstreamOnlyWhenNeeded | scripts/grab_archive.py:158-164 | the upstream is looked up only with origin, and set only when it is not already `origin/<branch>` |
| Git.Repo.constructor | scripts/grab_archive.py:112-124 | a repository with the given replies and no commands run |
| Git.Repo.Run | scripts/grab_archive.py:112-124 | a command is appended to the log and gets the reply for its position |
| Git.Repo.HasOrigin | scripts/grab_archive.py:129-131 | one `git remote`, and true exactly when it lists origin |
| Git.Repo.Fetch | scripts/grab_archive.py:133-141 | no fetch without origin; true exactly when origin exists and the fetch succeeds |
| Git.Repo.CurrentBranch | scripts/grab_archive.py:143-145 | the stripped branch name, or `unknown` when git fails |
| Git.Repo.Checkout | scripts/grab_archive.py:147-156 | the commands and verdict of the checkout with its `-B` fallback |
| Git.Repo.EnsureUpstream | scripts/grab_archive.py:158-164 | the commands of the upstream check |
| Git.Repo.Rev | scripts/grab_archive.py:166-168 | the stripped hash, or empty when git fails |
| Git.Repo.RemoteHasNewCommit | scripts/grab_archive.py:170-175 | two `rev-parse` commands, the two revisions, and the gate's verdict on them |
| Git.Repo.FastForward | scripts/grab_archive.py:177-183 | one `pull --ff-only`, true exactly when it succeeds |
| Git.Repo.StatusPorcelain | scripts/grab_archive.py:185-190 | the stripped status, empty when git fails |
| Git.Repo.CommitAllIfDirty | scripts/grab_archive.py:192-222 | result, note and commands are those of the commit sequence whose outcomes the lemmas above state |
| Git.Repo.CommitAndPush | scripts/grab_archive.py:209-222 | result, note and commands of the commit-and-push part |
| Git.Repo.PullIfAhead | scripts/grab_archive.py:427-438 | result and commands of the remote-ahead check and the fast-forward |
| Git.Repo.DeployGate | scripts/grab_archive.py:423-438 | result and commands of `run_deploy`'s git steps |
| Git.Repo.CheckoutAndUpdate | scripts/deploy_staging.py:39-55 | true exactly when a checkout (plain or `-B`) worked and then `pull --ff-only` succeeded; no pull when both checkouts fail; the same function is at scripts/deploy_prod.py:37-53 |
| Orchestrator.DeployedIff | scripts/grab_archive.py:446-449 | the download step reports a deployment exactly when `OnlineChangeOption` is defined and some exposed download method, with some option or with no arguments, returns |
| Orchestrator.RunDeploy | scripts/grab_archive.py:422-452 | a closed gate returns its result before any project, application or device call; past the gate, case by case on the state before the call: the project calls are the close and, unless a project stays open, the open; an open that raises escapes with no online call; otherwise a failed wait returns the timeout with no online call; otherwise a connect or login error escapes with exactly the connect and login calls; otherwise the result is `Downloaded` of the probe, the application calls are the login, the probe's calls and then `logout` when exposed, and the device calls end with `disconnect` when exposed |
| Orchestrator.DeployPastGate | scripts/grab_archive.py:440-452 | the same cases as `RunDeploy` past the gate: open error, timeout, connect or login error, and otherwise the probe's result with the probe's calls followed by the teardown on both the application and the device |
| Orchestrator.RunCaptureDev | scripts/grab_archive.py:374-420 | case by case on the state before the call: an open that raises escapes, and a failed wait returns the timeout, both with no git, application or device call; a connect or login error escapes with no git call and exactly the connect and login calls; once connected, the application calls are the login, the source pull and the logout, and the device calls end with the disconnect; a pull or export error escapes without git; when the pull and export work the git log grows by exactly the commit-if-dirty trace on `dev` and the result is that commit's |
| Orchestrator.CaptureOnline | scripts/grab_archive.py:386-420 | the `try` and `finally` of `run_capture_dev`: the application calls are the source pull then the logout, a device that reads as connected gets `disconnect` when it exposes it, a pull error or else an export error is raised without git, and otherwise the result and the git trace are exactly the commit-if-dirty run on `dev` |
| Tiers.TierEntry | scripts/grab_archive.py:495-501 | an action's entry is `OK` exactly when it returned success, with its message, or `exception: ...` when it raised |
| Tiers.TierEntryShape | scripts/grab_archive.py:489-503 | a tier's entry is `checkout failed` exactly when the checkout failed, and otherwise its action's entry |
| Tiers.TierTraceOfBranch | scripts/grab_archive.py:509-515 | the tier loop's own git commands for a tier (checkout and upstream) depend on its branch only, not on how its action ends |
| Tiers.TiersNext | scripts/grab_archive.py:505-522 | one more tier adds its entry and its commands at the end |
| Tiers.TiersShape | scripts/grab_archive.py:489-522 | every tier gets exactly one entry, in order, even after an earlier action raised, and it is `OK` exactly when its checkout worked and its action returned success |
| Tiers.TierContained | scripts/grab_archive.py:499-522 | a failure stays in its tier: with the same branches the tier loop's own commands are the same, and a tier whose outcome is unchanged keeps its entry |
| Tiers.AllOkSnoc | scripts/grab_archive.py:492-520 | all entries are `OK` after one more exactly when they were and the new one is |
| Tiers.RunTiers | scripts/grab_archive.py:482-522 | the loop's summary and commands are those of the tiers, and `overall` is true exactly when every entry is `OK` |
| Tiers.RunTierAt | scripts/grab_archive.py:509-522 | one pass adds one tier's entry and commands |
| Tiers.RunTier | scripts/grab_archive.py:509-518 | checkout, then the upstream check and the action only after a checkout that worked |
| Tiers.TiersThenRestore | scripts/grab_archive.py:482-528 | the tiers, then the starting branch put back unless it is empty or `unknown`; `overall` as above |
| Tiers.RunAgent | scripts/grab_archive.py:477-528 | `main`'s summary and git commands are those of `AgentRun`, and `overall` is true exactly when every entry is `OK` |
| Tiers.AgentEntries | scripts/grab_archive.py:485-522 | the summary holds dev, staging and prod in order, each `checkout failed` or its action's entry, `OK` exactly when the checkout worked and the action succeeded |
| Tiers.AgentBrackets | scripts/grab_archive.py:477-528 | `main` first reads the current branch and then looks for origin; a known starting branch is checked out last |
| Tiers.AgentIsolation | scripts/grab_archive.py:489-522 | changing how one action ends changes none of the tier loop's own git commands and no other tier's entry |
| Discovery.BasenameShape | scripts/grab_archive.py:96 | the base name is the longest suffix without a path separator |
| Discovery.ByNameLastWins | scripts/grab_archive.py:96-101 | a lookup finds a candidate exactly when one has that lowercased base name, and it is the last such |
| Discovery.DiscoverOutcome | scripts/grab_archive.py:88-107 | the mapping is found exactly when every tier has a file, each tier gets a candidate with its name, no candidates give `No .project files found`, and the missing list names exactly the tiers without a file |

## Left out

- Logging, printing and the stdout tee (`_init_logging`) are left out: they are output only.
- File reading and writing are left out: the encoding choice, the BOM and `errors="replace"`. The normalisers work on decoded text, and a write is counted rather than performed.
- Error texts are the oracle's error strings, which stand for `repr(e)`. Stack traces are not modelled.
- `_run_git` starting a process is left out: its reply is the oracle's. In scripts/grab_archive.py that includes the `rc` of 1 it returns when the start fails.
- `_git_is_repo` is left out: it is a directory test.
- `_wait_active_app` and its clock are left out. Its outcome is the parameter `appReady`.
- The connect poll is left out as a clock. It is a bounded number of observations (`polls`).
- `time.sleep` between connect attempts is left out: it is time only.
- `online.create_online_application` and `get_online_device` are left out: the application and the device are given.
- `OnlineChangeOption` is not a value. It is the set of member names it defines, or `None` when the global is absent.
- `hasattr` is a set of member names.
- The argument parsing, environment lookups, the prints of `main` and `system.exit` are left out: they are process plumbing.
- The `main` functions of scripts/dev_capture.py, scripts/deploy_staging.py and scripts/deploy_prod.py are modelled only through the helpers they call.
- The folder resolution of `discover_projects` is left out: the argument stripping, `isdir` and `glob`. The listing is the input `candidates`.
- Discovery.Basename: splits only at `\` and `/`. A drive prefix without a separator (`C:x.project`) is not split off as Windows `basename` does; glob results always hold the folder and a separator.
- Discovery.Missing: lists the missing tiers as dev, staging, prod. The order of Python 2's dict `mapping` is unspecified, so the order in the script's message may differ.
- In `run_capture_dev`, `save_archive` and the normalisation of the exported file are not part of `RunCaptureDev`. The normaliser is modelled on its own by `ArchiveNormalizer.ExportFile.Normalize`. `export_xml` is its raised error, the input `exportErr`.
- Tiers.RunAgent: how each tier's action ends is an input (`Job.outcome`), so the actions' own git commands are not interleaved in the log of the tier loop. `Orchestrator.RunDeploy` and `Orchestrator.RunCaptureDev` model those commands on their own.
- In `main` of scripts/grab_archive.py, checkout and upstream calls cannot raise, since that script's `_run_git` catches every exception. Only the actions can end in `exception: ...`.
- Git.Repo.CheckoutAndUpdate: every git call returns a reply. The `_run_git` of scripts/deploy_staging.py and scripts/deploy_prod.py has no `try`, so there a git process that cannot start raises out of `_git_checkout_and_update`; that exception is not modelled.
- Tiers.TierTraceOfBranch: speaks only of the tier loop's own checkout and upstream commands. The actions' commands (status, add, commit, remote and push for dev; fetch, rev-parse and pull for staging and prod) depend on how they end and are not in that log.
- Tiers.TierContained: tiers are independent only through the model's inputs. Effects across tiers through the working tree are not captured, such as a failed dev commit leaving a dirty index that makes the next `git checkout staging` fail.
- Tiers.AgentIsolation: the same limits. The actions' own git commands are not in the log, and effects of one tier on the next through the working tree are not captured.
- Deploy.Projects.CloseBestEffort: a close that returns is taken to clear `projects.primary`, as CODESYS does. A primary project that cannot be closed is handed back by `OpenPrimary` in place of the requested one, exactly as the script does.
- `_list_methods` reads `dir(obj)`. Here it is the input `members`, and its output is the sorted list rather than printed lines. Its call inside `_deploy_via_boot_application` prints only and is not in the call log.
- `\s`, `\w`, `strip` and `lower` are the ASCII classes of IronPython 2's `re` and string methods. Unicode whitespace and case folding are left out.
- `splitlines` also breaks at `\r\n` as two breaks, which adds an empty piece. Empty pieces never mention the marker, so the entries are the same.
- CaptureNormalizer.EntriesFacts: tags whose `Placeholder` keys tie are ordered by the whole tag. Python orders them by set iteration, which is not specified.
- CaptureNormalizer.CanonicalizeBlockIdempotent: idempotence is proved stage by stage, not for the whole pipeline (`SubIdempotent`, `CanonicalizeBlockIdempotent`, `ExpandIdempotent`). The whole pipeline is not idempotent on malformed text: `<PlaceholderRedirections x><PlaceholderRedirections/>` first becomes `<PlaceholderRedirections x><PlaceholderRedirections>\n</PlaceholderRedirections>`, and a second run rebuilds that into the empty pair.
- ArchiveNormalizer.CanonicalizeInteriorIdempotent: covers only the corrected rebuild, and only its block stage. The rebuild as written is not idempotent: a block whose entry line also holds the closing tag grows on every run (`GluedGrows`, `AsWrittenNotIdempotent`). The scrub stage is `Timestamps.SubIdempotent`. Their composition is not proved: reordering entry lines can put an unterminated `creationDateTime="` in front of a later quote.

## Findings

| source | as written | input that shows it | evidently intended | confidence | as-written member | corrected member |
|---|---|---|---|---|---|---|
| scripts/grab_archive.py:243-249 | every line of the block that mentions `<PlaceholderRedirection` is collected, and the block's first line starts with `<PlaceholderRedirections>`, which mentions it; the rebuilt block gains a second `<PlaceholderRedirections>` line as an entry, and the branch for an empty block is never taken | the empty block `<PlaceholderRedirections>` line feed `</PlaceholderRedirections>` is rewritten with `  <PlaceholderRedirections>` inside it | collect only the entry lines between the container tags, so an empty block stays empty and a rebuilt block rebuilds to itself | high; not executed | ArchiveNormalizer.EmptyBlockGainsEntry | ArchiveNormalizer.CorrectedEmptyBlock |
| scripts/grab_archive.py:240-246 | every line of the matched span that mentions `<PlaceholderRedirection` is collected whole, so an entry line that also holds `</PlaceholderRedirections>` becomes an entry with a closing tag inside; the rebuilt block then holds a closing tag before its own, the next run's lazy search stops there, and each run inserts another indented opening tag and closing tag | `<PlaceholderRedirections>`, a line feed, two spaces, then `<PlaceholderRedirection a/></PlaceholderRedirections>`: every run rewrites the file and the text grows | a normalised file is stable, so a second run rewrites nothing and commits nothing; collecting only the lines between the container tags makes the rebuild idempotent | high; not executed | ArchiveNormalizer.GluedEntryGrows | ArchiveNormalizer.CanonicalizeInteriorIdempotent |
