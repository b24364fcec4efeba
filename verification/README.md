# gh / ghcs command cores in Dafny

This project models the sequential decision logic inside the GitHub command-line
tool `gh` and its codespaces companion `ghcs`, and proves properties of it. The
modelled parts are:

- **Post-create status narration** (`StatusReducer`). The `poller` closure of
  `showStatus` folds successive snapshots of a codespace's lifecycle states into
  log writes. It remembers the finished state names, the state it is tracking,
  and the flag set by a quiet snapshot. It cancels polling on the second quiet
  snapshot. A busy snapshot never clears that flag, so the two quiet snapshots
  need not be adjacent.
- **Machine validation** (`MachineChoice`). `getMachineName` chooses the machine
  type, and `create` treats an empty answer as an error.
- **Codespace readiness loop** (`Readiness`). `ConnectToLiveshare` starts the
  codespace when needed, then re-fetches it until it is available with a
  session. It makes at most 30 fetches and aborts on the first fetch error.
- **`gh api` helpers** (`ApiCommand`):
  - `parseField`, `parseFields` and `magicFieldValue` (the non-file branch);
  - the request-method rule;
  - `printHeaders`;
  - the message chosen by `parseErrorResponse`;
  - the exit decision of `apiRun`.
- **GPG key column shortening** (`GpgKeyList`): `truncateMiddle`.
- **Pull request and issue parameters** (`PrParams`):
  - `quoteValueForQuery`, including Go's `%q` quoting and its inverse;
  - the search query of `ListURLWithQuery`;
  - the keys `WithPrAndIssueQueryParams` sets;
  - the reviewer split and the ID lookups of `AddMetadataToIssueParams`;
  - `ReplaceAtMeLogin`.
- **Repository queries** (`RepoQueries`):
  - `IsFork` and `ViewerCanPush`;
  - the rule that tolerates only NOT_FOUND GraphQL errors;
  - `RepoExistsOnGitHub` and `GitHubRepo`;
  - the alias, sort and dispatch loop of `RepoNetwork`;
  - the shape of `ForkRepo`'s result.
- **Issue editing** (`IssueEdit`):
  - which fields the flags mark as edited;
  - when the command turns interactive;
  - the update input `updateIssue` builds from the edited fields only.
- **`repo create` and `repo fork`** (`RepoCommand`). Each run is a sequence of
  effects: the create or fork call, the prompt, and the git commands. The
  answers to those effects are inputs to the run.

Shared helpers:
- `Wrappers`: `Option` and `Result`.
- `Strings`: Go's `strings.Join`, `Split`, `IndexRune`, `HasPrefix` and `TrimSuffix`.
- `Decimal`: `strconv.Atoi` and `%d`.
- `Sorting`: `sort.Strings` byte order. It also enumerates a Go map as a
  sequence with distinct keys, sorted by key, and proves that the sorted result
  does not depend on the enumeration order.

Go's map iteration order is unspecified. The model therefore takes any
enumeration of a map as input and proves that the observable result is the
same for every enumeration. Lookups whose code is not part of this model become
function-valued parameters:
- `MembersToIDs`, `LabelsToIDs`, `ProjectsToIDs`, `MilestoneToID`;
- the current-login replacer;
- `ghrepo.FromFullName` and `formatRemoteURL`;
- the remotes lookup;
- git's success or failure.

The same holds for the API's answers (the fetched codespace, the created or
forked repository, and the GraphQL response) and for the user's answer to a
prompt.

## Model

| member | source | states |
|---|---|---|
| StatusReducer.ScanSummary | cmd/ghcs/create.go:117-145 | One pass over a snapshot never writes a state already finished. The finished set only grows, by exactly the names whose status was written, each at most once. No name is announced after its status was written. A pass in progress ends with exactly one progress mark, "..." or ".". |
| StatusReducer.Step | cmd/ghcs/create.go:116-154 | One poller call cancels polling iff the break flag was already set and the snapshot is quiet. The flag is then set iff it was set or the snapshot is quiet, so an in-progress snapshot never clears it. The finished set grows exactly by the written names. The output holds one progress mark iff the snapshot is not quiet. |
| StatusReducer.Run | cmd/ghcs/create.go:112-154 | Over a run of snapshots, every terminal line names a distinct state that was not finished before. A name is never announced again after its terminal line. The finished set is monotone, and the tracked state is never a finished one. |
| StatusReducer.StopsOnSecondQuiet | cmd/ghcs/create.go:147-153 | Polling is cancelled iff two quiet snapshots have been seen, counting empty ones, and it is cancelled on the second. The two quiet snapshots need not be adjacent. |
| StatusReducer.ScanStopsIffLive | cmd/ghcs/create.go:125-139 | A pass stops early exactly when the snapshot holds a running state that is not yet finished. |
| StatusReducer.ScanHaltsAtFirstLive | cmd/ghcs/create.go:125-139 | A pass that stops does so at the first such running state. Everything it writes comes from the states up to and including that one. |
| StatusReducer.ScanIgnoresTail | cmd/ghcs/create.go:125-139 | States after the running state that stops a pass do not affect that pass. |
| StatusReducer.ScanSkipsFinished | cmd/ghcs/create.go:118-120 | Finished states are skipped wherever they appear: removing them from the snapshot changes nothing. |
| StatusReducer.RunningThenSucceeded | cmd/ghcs/create.go:122-143 | A state seen running and then succeeded is announced once and closed once, with "..." and then "succeeded", rendering as "A...succeeded" and a newline. |
| StatusReducer.ScanHaltsAtRunning | cmd/ghcs/create.go:125-130 | A running state halts the pass, and the state after it is not looked at. |
| StatusReducer.QuietTicksNeedNotBeAdjacent | cmd/ghcs/create.go:147-153 | A quiet snapshot, then a busy one, then a quiet one still cancels polling. |
| StatusReducer.FinishedStateIsSilent | cmd/ghcs/create.go:118-120 | A finished state seen again produces no writes. |
| MachineChoice.MachineName | cmd/ghcs/create.go:228-251 | A SKU lookup error becomes the "error getting codespace skus" failure. A supplied machine is chosen iff it is a SKU name; otherwise the error lists every SKU name. With no machine supplied, the result is "" iff there are no SKUs, and a prompt otherwise. |
| MachineChoice.CreateDecision | cmd/ghcs/create.go:80-86 | Creation proceeds, with the supplied machine, iff that machine is a SKU name. It asks iff no machine was supplied and there are SKUs, offering exactly those. A SKU lookup error aborts with both error prefixes. |
| MachineChoice.CreateProceedsOnlyWithSku | cmd/ghcs/create.go:80-86 | `create` proceeds without a prompt only with a machine that is a SKU name. With no SKUs it aborts, and with no machine supplied it aborts with "There are no available machine types for this repository". |
| Readiness.Poll | internal/codespaces/codespaces.go:68-88 | The loop returns only a ready codespace: the one it held, or the last answer fetched. It makes at most 30 fetches. A fetch error is returned at once, unretried. A timeout comes after exactly 30 fetches and 31 passes. A dot is printed on each pass whose retry count is even and at least 2. |
| Readiness.PollPending | internal/codespaces/codespaces.go:68-87 | Every answer fetched before the last was "still starting". |
| Readiness.PollTimeout | internal/codespaces/codespaces.go:78-87 | The loop times out iff the codespace it holds is not ready and every remaining answer up to the 30th is "still starting". |
| Readiness.Connect | internal/codespaces/codespaces.go:60-92 | Start is attempted iff the codespace is not Available, and its error aborts before any fetch. A ready codespace is returned with no fetch. The newline is printed iff the loop succeeded after at least two fetches. |
| Readiness.ReadyAfter | internal/codespaces/codespaces.go:68-88 | When the n-th answer (n ≤ 30) is the first ready one, that codespace is returned after exactly n fetches. |
| Readiness.NeverReadyTimesOut | internal/codespaces/codespaces.go:68-88 | Answers that never become ready give the timeout error after exactly 30 fetches and 15 dots. |
| Readiness.TimeoutMeansThirtyPending | internal/codespaces/codespaces.go:78-87 | The timeout error implies that all 30 answers were "still starting". |
| ApiCommand.ParseField | pkg/cmd/api/api.go:216-221 | The key is the text before the first '=' and the value is the rest, which may itself contain '='. Key, "=" and value rebuild the input. Without '=' the result is an error that carries the whole input. |
| ApiCommand.ParseFieldRoundTrip | pkg/cmd/api/api.go:216-221 | Any key without '=' and any value are recovered from `key=value`. |
| ApiCommand.MagicValue | pkg/cmd/api/api.go:224-242 | Integer text becomes that integer. "true" and "false" become booleans and "null" becomes null. Anything else stays a string. |
| ApiCommand.MagicValueOfInteger | pkg/cmd/api/api.go:229-233 | Every 64-bit integer, written with `%d`, is read back as itself. |
| ApiCommand.FieldErrorNamesField | pkg/cmd/api/api.go:216-221 | The error for a field without '=' holds the field `%q`-quoted, and unquoting that part gives back the field. |
| ApiCommand.FieldErrorEscapesQuote | pkg/cmd/api/api.go:216-221 | A double quote inside the field is escaped in the error message. |
| ApiCommand.ParseFields | pkg/cmd/api/api.go:193-221 | On success, each key maps to the value of its last assignment, with raw fields processed before magic fields. On failure, the error is "field <%q of the field> requires a value separated by an '=' sign" for the first field without '='. |
| ApiCommand.ParseFlags | pkg/cmd/api/api.go:193-221 | The loop over the fields in processing order, with the same last-assignment guarantee and the same `%q`-quoted error for the first field without '='. |
| ApiCommand.MagicOverridesRaw | pkg/cmd/api/api.go:195-212 | A later `-F key=...` overrides an earlier `-f key=...`. |
| ApiCommand.RequestMethod | pkg/cmd/api/api.go:96-103 | The method is POST when no method was passed and there are parameters or an input file. Otherwise the given method is kept. |
| ApiCommand.DefaultMethod | pkg/cmd/api/api.go:96-103 | With the default GET, the method is POST iff no method was passed and fields or an input file were given. |
| ApiCommand.MethodDependsOnPresence | pkg/cmd/api/api.go:96-103 | Only whether parameters exist matters, not how many. Choosing the method again from its own result changes nothing. |
| ApiCommand.HeaderLine | pkg/cmd/api/api.go:182-190 | A line is the header name (wrapped in the blue escape codes when colouring), ": ", the values joined with ", ", and CRLF. |
| ApiCommand.PrintHeaders | pkg/cmd/api/api.go:173-191 | Nothing is printed iff every header is "Status". Otherwise the output starts with the line of the least header name. |
| ApiCommand.PrintedHeaders | pkg/cmd/api/api.go:173-191 | The listed headers are exactly the non-Status ones, in ascending name order, and none is listed more often than the response holds it. |
| ApiCommand.PrintHeadersDeterministic | pkg/cmd/api/api.go:173-191 | The header listing is the same for every enumeration of the header map. |
| ApiCommand.ServerError | pkg/cmd/api/api.go:278-306 | A non-empty message gives "<msg> (HTTP <code>)". Otherwise the error messages are joined with line breaks. Otherwise the result is empty. |
| ApiCommand.ServerErrorLines | pkg/cmd/api/api.go:298-303 | When no error message holds a line break, splitting the joined text at line breaks gives back the messages. |
| ApiCommand.RunExit | pkg/cmd/api/api.go:134-170 | The run ends with no content iff the status is 204. Otherwise an inspected body that cannot be read or decoded returns that error as it is, with no "gh: " line. In every other case the command fails silently iff the selected server message is non-empty or the status is above 299. |
| ApiCommand.ErrorStatusFails | pkg/cmd/api/api.go:140-170 | Any status above 299 fails whatever the body holds. An inspected body that does not decode fails with the decode error. Every other such run fails silently, after one line starting with "gh: ". Success needs a status up to 299 other than 204. |
| ApiCommand.BodyIgnoredUnlessInspected | pkg/cmd/api/api.go:140-148 | Neither the body nor whether it decodes changes the outcome of a non-JSON response, or of a REST response below 400. |
| GpgKeyList.TruncateMiddle | pkg/cmd/gpg-key/list/list.go:95-108 | A key that fits is unchanged. Below width 5 the key is cut to the width. Otherwise the result has exactly the width, and keeps a head and a tail around "...", with the head as long as the tail or one longer. |
| GpgKeyList.ElisionUnique | pkg/cmd/gpg-key/list/list.go:100-107 | Only one middle elision of a given width exists, and `TruncateMiddle` returns it. |
| PrParams.GoQuote | pkg/cmd/pr/shared/params.go:192-197 | `%q` wraps the escaped value in double quotes and is never shorter than the value plus two. |
| PrParams.QuoteRoundTrip | pkg/cmd/pr/shared/params.go:192-197 | Unquoting the `%q` form gives back the value. |
| PrParams.QuoteValueForQuery | pkg/cmd/pr/shared/params.go:192-197 | The value is unchanged iff it holds no space, double quote, tab, CR or LF. Otherwise the result unquotes to the value. |
| PrParams.EntityAndState | pkg/cmd/pr/shared/params.go:164-167 | The first qualifier is "is:<entity>". The "is:" values are the entity, then the state iff the state is not "all". |
| PrParams.LabelsInOrder | pkg/cmd/pr/shared/params.go:169-171 | The label qualifiers are every label, in input order, each quoted as needed. |
| PrParams.OptionalQualifiers | pkg/cmd/pr/shared/params.go:168-185 | The assignee, author, base, mentions and milestone qualifiers each appear once with the option's value iff the option is non-empty. The milestone value is quoted as needed. |
| PrParams.TokensRanked | pkg/cmd/pr/shared/params.go:164-185 | The qualifiers come in a fixed order: is, assignee, labels, author, base, mentions, milestone. |
| PrParams.TokenValues | pkg/cmd/pr/shared/params.go:164-185 | Each kind of qualifier carries exactly the values the options give it, in order: the entity and a state other than "all" for "is:", every label quoted as needed, the milestone quoted as needed, and each other option iff it is non-empty. |
| PrParams.SearchQueryIsJoin | pkg/cmd/pr/shared/params.go:161-187 | Removing the one trailing space leaves the qualifiers joined by single spaces. |
| PrParams.SearchQueryStart | pkg/cmd/pr/shared/params.go:164 | The query begins with "is:<entity>". |
| PrParams.ListURLWithQuery | pkg/cmd/pr/shared/params.go:159-190 | A URL parse error is returned. Otherwise "q" is set to the single joined query and every other parameter is kept. |
| PrParams.WithPrAndIssueQueryParams | pkg/cmd/pr/shared/params.go:12-38 | Each of title, body, assignees, labels and projects is set iff it is non-empty, with lists joined by ",". Only the first milestone is used. Every other key is kept, and a parse error is returned. |
| PrParams.JoinedListRecoverable | pkg/cmd/pr/shared/params.go:22-30 | A list without commas is recovered by splitting its ","-joined value. |
| PrParams.SplitReviewers | pkg/cmd/pr/shared/params.go:123-131 | Reviewers with '/' are teams and the rest are users, each list in input order. Together the two lists are a permutation of the input. |
| PrParams.ReplaceAtMeLogin | pkg/cmd/pr/shared/params.go:201-212 | Exactly the entries equal to "@me", ignoring case, become the current login. Length and every other entry are unchanged. If the login lookup fails and "@me" occurs, the result is that error with its prefix. |
| PrParams.ReplaceAtMeLeavesNone | pkg/cmd/pr/shared/params.go:201-212 | After replacement no entry is "@me" unless the login itself is. |
| PrParams.AddMetadataToIssueParams | pkg/cmd/pr/shared/params.go:79-146 | Without metadata the parameters are returned as given. An "@me" failure is reported first. Assignee, label, project, milestone and user and team reviewer IDs are set from the lookups of the given names, with reviewers split as `SplitReviewers` splits them. The assignee, label and project IDs are always set, even for empty lists. An empty milestone list leaves `milestoneId` alone, and an empty reviewer list leaves both reviewer keys alone. Other keys are kept. |
| PrParams.LabelFailureReported | pkg/cmd/pr/shared/params.go:99-102 | Once the assignees resolve, a failing label lookup fails the whole call with "could not add label: " and the lookup's error. |
| RepoQueries.RepositoryStatus | api/queries_repo.go:48-62 | A repository is a fork iff it has a parent. ADMIN, MAINTAIN and WRITE may push. TRIAGE, READ and an unreported permission may not. |
| RepoQueries.Tolerated | api/queries_repo.go:87-98 | A GraphQL error response is tolerated iff every error is NOT_FOUND, which holds vacuously for none. |
| RepoQueries.ClearTolerated | api/queries_repo.go:176-189 | A tolerated error response is cleared. Every other error is kept. |
| RepoQueries.ClearToleratedStable | api/queries_repo.go:87-98 | One error other than NOT_FOUND keeps the whole response, even with NOT_FOUND errors beside it. Clearing twice clears no more than once. |
| RepoQueries.RepoExistsOnGitHub | api/queries_repo.go:63-101 | The answer is "exists" only when the query succeeds and "does not exist" for a tolerated error. Any other error is returned. |
| RepoQueries.GitHubRepo | api/queries_repo.go:104-131 | A query error or an empty ID fails with the "failed to determine repository ID" message. Otherwise the repository is returned. |
| RepoQueries.ExistenceAnswers | api/queries_repo.go:63-101 | There are exactly three answers: the repository exists; it does not, after a tolerated error; or the query error is returned as is. |
| RepoQueries.GitHubRepoErrorText | api/queries_repo.go:104-131 | The query error's text can be read back after ": " in the message. A repository with an empty ID fails, and any other is returned unchanged. |
| RepoQueries.ForkRepo | api/queries_repo.go:243-260 | The fork's result has WRITE permission and no parent, so the viewer can push to it and it is not itself reported as a fork. Its other fields are copied from the response. |
| RepoQueries.RepoNetwork | api/queries_repo.go:140-230 | A query error is returned unless tolerated. Otherwise the call succeeds iff every entry is accepted: "viewer" must decode as a viewer, and each `repo_` key must be null or decode as a repository. Any other key is rejected. |
| RepoQueries.Collect | api/queries_repo.go:203-229 | The loop succeeds iff every entry is accepted. An unknown key whose earlier entries are all accepted ends it with "unknown GraphQL result key" and the key `%q`-quoted. |
| RepoQueries.UnknownKeyInKeyOrder | api/queries_repo.go:194-229 | An unknown key is the reported error when every entry whose key sorts strictly before it is accepted. |
| RepoQueries.RepoNetworkIndependentOfEnumeration | api/queries_repo.go:194-199 | The result is the same for every enumeration of the response map. |
| RepoQueries.AliasOrder | api/queries_repo.go:143-150 | Below 1000, `repo_%03d` aliases sort in request order, and all of them sort before "viewer". |
| RepoQueries.AliasOrderBreaksAtThousand | api/queries_repo.go:143-150 | At 1000 the padding no longer orders the aliases: `repo_1000` sorts before `repo_101`. |
| RepoQueries.NetworkAligned | api/queries_repo.go:140-230 | For fewer than 1000 requested repositories, the n results are aligned with the requests: entry i is the decoded `repo_i`, or null. The viewer login is set. |
| IssueEdit.EditedFrom | pkg/cmd/issue/edit/edit.go:63-82 | Each field is marked edited iff its flag was changed. |
| IssueEdit.Prepare | pkg/cmd/issue/edit/edit.go:63-90 | The command is interactive iff no edit was given. Being interactive where prompting is impossible is a flag error carrying the message as written, which starts with "--tile". The edited markers follow the changed flags. |
| IssueEdit.PrepareIntended | pkg/cmd/issue/edit/edit.go:63-90 | The same decision, with the message that lists every flag by its name. |
| IssueEdit.PrepareDiffersOnlyInMessage | pkg/cmd/issue/edit/edit.go:84-89 | The two agree on every successful plan. On failure only the message differs: the corrected one names every flag, and the written one names "--tile". |
| IssueEdit.UpdateIssue | pkg/cmd/issue/edit/edit.go:166-223 | Title and body are sent iff edited. Assignee, label, project and milestone IDs are sent iff edited, with exactly the lookups' answers in order, and nothing else but the ID. The call fails iff a needed lookup fails, and an assignee failure is reported first. |
| IssueEdit.ChangedFlagsAreSent | pkg/cmd/issue/edit/edit.go:63-90 | From the flags to the request: after the flag checks pass and the lookups answer, the mutation carries a field iff its flag was changed. |
| IssueEdit.UpdateCarriesEdited | pkg/cmd/issue/edit/edit.go:166-223 | A successful update carries exactly the edited fields. |
| IssueEdit.NothingEditedSendsOnlyId | pkg/cmd/issue/edit/edit.go:166-223 | With nothing edited the update carries the issue ID alone. |
| IssueEdit.FirstFailureWins | pkg/cmd/issue/edit/edit.go:176-196 | A failing assignee lookup is the reported error, whatever the later lookups answer. |
| IssueEdit.MessageAsWrittenMissesTitle | pkg/cmd/issue/edit/edit.go:87-89 | The message as written lists "--tile", which is no flag's name, omits "title", and differs from the message that names the flags. |
| IssueEdit.NonInteractiveMessageMentionsEveryFlag | pkg/cmd/issue/edit/edit.go:87-89 | The corrected message names every flag as "--<name>". |
| RepoCommand.Visibility | command/repo.go:166-169 | The visibility is "PUBLIC" iff `--public` is set, else "PRIVATE". |
| RepoCommand.Base | command/repo.go:136-141 | The default repository name is never empty and contains no '/', unless it is "/". |
| RepoCommand.BaseOfChild | command/repo.go:136-141 | The default name of a project directory is its last path element, with or without trailing slashes. |
| RepoCommand.CreateTarget | command/repo.go:125-142 | An argument without '/' is the name. One with '/' is read as OWNER/NAME, and a failure is reported as an "argument error". With no argument, the name is the project directory's base, and a missing project is the error. |
| RepoCommand.CreateInput | command/repo.go:166-180 | The create input carries the target name and owner, the visibility, team, description, homepage and the issue and wiki switches. |
| RepoCommand.SetUpLocal | command/repo.go:208-246 | Inside a project, "origin" is added with the new URL. Elsewhere, a terminal user is asked about a local directory, and a yes runs `git init` then adds "origin" in it. A prompt error is returned after the prompt. A no ends the run after the prompt, without error. After a yes the error is the first failing git command's. Without a terminal nothing happens. No git command runs without a yes. |
| RepoCommand.RepoCreate | command/repo.go:117-249 | Nothing happens when the target cannot be named. The first effect is the create call with that input, and nothing is created or forked after it. A create error ends the run. After a successful create, the run's error is the local set-up's error. No step follows a failing git command. |
| RepoCommand.OriginAddedInProject | command/repo.go:208-216 | After a successful create, "origin" is added to the current project iff there is one. |
| RepoCommand.Decide | command/repo.go:381-387 | "true" and "false" answer without asking. "prompt" asks, and a prompt error is reported as "failed to prompt". |
| RepoCommand.AddOrigin | command/repo.go:389-409 | The fork is added as "origin", after renaming an existing "origin" to "upstream", exactly when one exists. The add happens unless the rename fails, and the add is the last step of a successful run. |
| RepoCommand.AddForkRemote | command/repo.go:369-410 | A remotes error is returned. An existing remote for the fork is reused silently. Otherwise, "true" or a yes at the prompt adds the fork as "origin", unless renaming the old "origin" fails. No git command runs without one of those. The only git commands are the rename to "upstream" and the add of "origin", and "origin" is renamed first exactly when it exists. |
| RepoCommand.CloneAndConfigure | command/repo.go:426-447 | The clone comes first. A successful run is the clone and then the "upstream" remote, with the URL for the configured protocol, added in the clone's directory. |
| RepoCommand.CloneFork | command/repo.go:411-453 | The fork is cloned iff the preference is "true" or the prompt is answered yes, and no git command runs otherwise. The only git commands are the clone and the "upstream" remote. The upstream remote is added right after the clone, into the clone's directory, with the URL for the configured protocol. |
| RepoCommand.ForkSteps | command/repo.go:335-363 | The fork is created, and then reported as already existing iff it is older than a minute. Neither step is a prompt or a git command. |
| RepoCommand.RepoFork | command/repo.go:259-457 | Without a terminal, a "prompt" preference for the mode in use fails before forking, with the tty message. A fork error is wrapped as "failed to fork". A fork older than a minute is reported as existing, and without a terminal the run then ends with no further step. A "false" preference ends the run after the fork. No git command or prompt happens unless the run reaches the remote or clone step. No step follows a failing git command. |
| RepoCommand.ForkSetUpFollowsPreference | command/repo.go:365-453 | Past the fork, a preference of "true" or a yes at the prompt adds the fork as "origin" in the current project (unless renaming the old "origin" fails) or clones it elsewhere. No git command runs otherwise. |
| RepoCommand.ForkModeSeparation | command/repo.go:369-453 | Forking the current project's repository never clones. Forking another repository never touches the current project's remotes. |
| RepoCommand.ExistingForkRemoteReused | command/repo.go:374-379 | If a remote already points at the fork, nothing is asked, renamed or added. |
| RepoCommand.OriginRenamedFirst | command/repo.go:389-409 | When the fork is added as "origin", the step just before renamed "origin" to "upstream" exactly when "origin" existed. |
| RepoCommand.OnlyPromptAsks | command/repo.go:381-387 | Only a "prompt" preference asks the user. |
| Sorting.SortByKey | api/queries_repo.go:194-199 | `sort.Strings` on the keys gives the same multiset of entries, in ascending key order. |
| Sorting.SortIndependentOfEnumeration | api/queries_repo.go:194-199 | Two enumerations of the same map sort to the same sequence. |
| Decimal.AtoiFormatInt | pkg/cmd/api/api.go:229-233 | `strconv.Atoi` reads back what `%d` writes for every 64-bit integer. |
| Strings.SplitJoin | pkg/cmd/pr/shared/params.go:22-30 | Splitting a join at its separator gives back the parts, when no part contains the separator. |

## Left out

- The goroutine bootstrap of `create` and its prompts are left out: that code is about concurrency and user interaction. So are name formatting, Live Share, the codespace chooser, spinners and colours.
- Cancellation of the readiness loop is not modelled, because the loop never inspects its context.
- StatusReducer.Step: a state's status is one of Running, Succeeded and Failed. Any other status string, which Go writes to the log verbatim, cannot be represented.
- Sleeping in the readiness loop is left out. Dots and the final newline are counted rather than printed.
- HTTP, JSON decoding, reading `@file` arguments, `addQuery` and URL parsing and encoding are not part of this model. A URL's query is a map from keys to value lists, and a parse failure is an error input.
- Readiness.Poll: a fetched codespace is an opaque record with a state and a session ID, and the remote side is a function from fetch number to answer.
- ApiCommand.RunExit: the decoded error body, or the error reading or decoding it, is an input. Writing the body to the output, coloured or not, is left out, and so is the error that copy can return.
- ApiCommand.MagicValue: integers are limited to Go's 64-bit `int`. The `@file` branch is an input whose reading is not modelled.
- PrParams.GoQuote: non-ASCII characters are treated as printable and kept literally. `strconv.Quote` escapes non-printable runes as `\u` or `\U`, and the model does not.
- GpgKeyList.TruncateMiddle: lengths are counted in characters, while Go counts bytes. The two agree for ASCII key IDs. A negative width would slice out of range in Go, so the width is a natural number.
- PrParams.ReplaceAtMeLogin: the login is one input, read once. Go asks for the current login once per "@me" entry and edits the slice in place; with a lookup that always answers the same, the results agree.
- PrParams.AddMetadataToIssueParams: Go may already have written some keys into the parameter map when a later lookup fails. The model returns only the error. `HasMetadata` and the ID lookups are parameters.
- RepoQueries.RepoNetwork: a nil viewer in the response is reported as an error value, where Go would dereference nil and panic.
- RepoQueries.NetworkAligned: holds only below 1000 repositories, because `%03d` stops padding there (see `AliasOrderBreaksAtThousand`).
- IssueEdit.Prepare: `Dirty()` and prompt capability are inputs. Their code is not part of this model.
- IssueEdit.UpdateIssue: the result is the mutation input the update would send. The mutation's own failure and the interactive editing survey are left out.
- RepoCommand.AddForkRemote: the lookup of a remote by the fork's owner and name is an input (`isForkRemote`), because the remotes package is not part of this model.
- RepoCommand.RepoFork: the repository to fork is an input after its resolution. Argument parsing and its "did not understand argument" and "argument error" wrappers are not modelled. The fork's age is in nanoseconds, compared with `time.Minute`. Wall-clock time is an input. Both remote lookups see the same remotes.
- RepoCommand.RepoCreate: terminal messages and URLs printed are not steps. Flag-read errors cannot happen for declared flags. The API client's construction failure is not modelled.
- The `repo credits` command, Cobra wiring, test stubs and mocks are not part of this model.

## Findings

| source | as written | input that shows it | evidently intended | confidence | as-written member | corrected member |
|---|---|---|---|---|---|---|
| pkg/cmd/issue/edit/edit.go:88 | The non-interactive error lists "--tile, --body, --assignee, --label, --project, or --milestone". | `gh issue edit 1` with no edit flags and no terminal | The list starts with "--title", the flag's real name. | not executed | IssueEdit.Prepare, IssueEdit.MessageAsWrittenMissesTitle | IssueEdit.PrepareIntended, IssueEdit.NonInteractiveMessageMentionsEveryFlag |
