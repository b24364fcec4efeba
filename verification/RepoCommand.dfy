/**
 * The decisions of `repo create` and `repo fork`. The API calls, the prompt and
 * the git commands are effects: each run produces the sequence of steps it
 * performs, and the answers those steps get (the API's results, the user's
 * confirmation, git's failures) are inputs.
 */
module RepoCommand {
  import opened Wrappers
  import opened Strings

  /** A git command the commands run. */
  datatype GitAction =
    | AddRemote(name: string, url: string)
    | RenameRemote(from: string, to: string)
    | Clone(url: string)
    | AddUpstream(url: string, dir: string)
    | Init(dir: string)
    | AddRemoteIn(dir: string, remote: string, remoteURL: string)

  datatype RepoCreateInput = RepoCreateInput(
    name: string, visibility: string, ownerId: string, teamId: string,
    description: string, homepageURL: string, hasIssuesEnabled: bool, hasWikiEnabled: bool)

  /** An effect of a run, in the order performed. */
  datatype Step =
    | Create(input: RepoCreateInput)
    | Fork
    | ReportExisting
    | Confirm(message: string)
    | Git(action: GitAction)

  /** The steps a run performed and the error it returned, if any. */
  datatype Outcome = Outcome(steps: seq<Step>, err: Option<string>)

  /** Git's answer to each command: the error it fails with, if it fails. */
  type GitErrors = GitAction -> Option<string>

  /** No step follows a failing git command, and a failing git command fails the
    * run. */
  predicate StopsAtFailure(o: Outcome, gitError: GitErrors)
  {
    forall i | 0 <= i < |o.steps| && o.steps[i].Git? && gitError(o.steps[i].action).Some? ::
      i == |o.steps| - 1 && o.err.Some?
  }

  predicate NoGit(steps: seq<Step>)
  {
    forall i | 0 <= i < |steps| :: !steps[i].Git?
  }

  predicate NoConfirm(steps: seq<Step>)
  {
    forall i | 0 <= i < |steps| :: !steps[i].Confirm?
  }

  /** Runs `first`, then `next` unless `first` failed. */
  function Then(first: Outcome, next: Outcome): (o: Outcome)
    ensures first.err.Some? ==> o == first
    ensures first.err.None? ==> o == Outcome(first.steps + next.steps, next.err)
  {
    if first.err.Some? then first else Outcome(first.steps + next.steps, next.err)
  }

  const Done: Outcome := Outcome([], None)

  /** Sequencing keeps runs stopping at the first failing git command. */
  lemma ThenStops(first: Outcome, next: Outcome, gitError: GitErrors)
    requires StopsAtFailure(first, gitError) && StopsAtFailure(next, gitError)
    ensures StopsAtFailure(Then(first, next), gitError)
  {
    if first.err.None? {
      var o := Then(first, next);
      forall i | 0 <= i < |o.steps| && o.steps[i].Git? && gitError(o.steps[i].action).Some?
        ensures i == |o.steps| - 1 && o.err.Some?
      {
        if i >= |first.steps| {
          assert o.steps[i] == next.steps[i - |first.steps|];
        }
      }
    }
  }

  /** Runs one git command, failing with its (prefixed) error. */
  function RunGit(a: GitAction, wrap: string, gitError: GitErrors): (o: Outcome)
    ensures o.steps == [Git(a)]
    ensures o.err.Some? <==> gitError(a).Some?
    ensures o.err.Some? ==> o.err.value == wrap + gitError(a).value
    ensures wrap == "" ==> o.err == gitError(a)
    ensures StopsAtFailure(o, gitError)
  {
    match gitError(a)
    case None => Outcome([Git(a)], None)
    case Some(e) => assert "" + e == e; Outcome([Git(a)], Some(wrap + e))
  }

  // ---------------------------------------------------------------------------
  // repo create
  // ---------------------------------------------------------------------------

  /** The repository's visibility: public only when asked for. */
  function Visibility(isPublic: bool): (v: string)
    ensures v == "PUBLIC" <==> isPublic
    ensures v == "PRIVATE" <==> !isPublic
  {
    if isPublic then "PUBLIC" else "PRIVATE"
  }

  /** `p` without its trailing slashes. */
  function TrimSlashes(p: string): (r: string)
    ensures r <= p
    ensures r == [] || r[|r| - 1] != '/'
    ensures forall i | |r| <= i < |p| :: p[i] == '/'
  {
    if p != [] && p[|p| - 1] == '/' then TrimSlashes(p[..|p| - 1]) else p
  }

  /** What follows the last slash of `p`. */
  function AfterLastSlash(p: string): (r: string)
    ensures '/' !in r
    ensures |r| <= |p| && r == p[|p| - |r|..]
    ensures |r| < |p| ==> p[|p| - |r| - 1] == '/'
  {
    if p == [] || p[|p| - 1] == '/' then []
    else AfterLastSlash(p[..|p| - 1]) + [p[|p| - 1]]
  }

  /** The last element of a slash-separated path, as Go's `path.Base` defines it. */
  function Base(p: string): (r: string)
    ensures r != []
    ensures r == "/" || '/' !in r
  {
    if p == [] then "."
    else
      var t := TrimSlashes(p);
      var last := AfterLastSlash(t);
      if last == [] then "/" else last
  }

  /** The base of a directory path is its last element, trailing slashes or not. */
  lemma {:induction false} BaseOfChild(dir: string, name: string, slashes: nat)
    requires name != [] && '/' !in name
    ensures Base(dir + "/" + name + Repeat('/', slashes)) == name
  {
    var p := dir + "/" + name + Repeat('/', slashes);
    TrimRepeated(dir + "/" + name, slashes);
    assert TrimSlashes(p) == dir + "/" + name;
    AfterSlash(dir, name);
  }

  function Repeat(c: char, n: nat): (r: string)
    ensures |r| == n
    ensures forall i | 0 <= i < n :: r[i] == c
  {
    if n == 0 then [] else Repeat(c, n - 1) + [c]
  }

  lemma {:induction false} TrimRepeated(s: string, n: nat)
    requires s != [] && s[|s| - 1] != '/'
    ensures TrimSlashes(s + Repeat('/', n)) == s
  {
    if n == 0 {
      assert s + Repeat('/', 0) == s;
    } else {
      var p := s + Repeat('/', n);
      assert p[|p| - 1] == '/';
      assert p[..|p| - 1] == s + Repeat('/', n - 1);
      TrimRepeated(s, n - 1);
    }
  }

  lemma {:induction false} AfterSlash(dir: string, name: string)
    requires '/' !in name
    ensures AfterLastSlash(dir + "/" + name) == name
    decreases |name|
  {
    var p := dir + "/" + name;
    if name == [] {
      assert p[|p| - 1] == '/';
    } else {
      var n := |name|;
      assert p[..|p| - 1] == dir + "/" + name[..n - 1];
      assert name[n - 1] != '/' by { assert name[n - 1] in name; }
      assert '/' !in name[..n - 1];
      AfterSlash(dir, name[..n - 1]);
      assert name == name[..n - 1] + [name[n - 1]];
    }
  }

  /** The owner and name of a repository. */
  datatype RepoName = RepoName(owner: string, name: string)

  /** The repository a create run names: the argument (as OWNER/NAME when it has
    * a slash), otherwise the base name of the current git project. */
  function CreateTarget(args: seq<string>, projectDir: Result<string, string>,
                        fromFullName: string -> Result<RepoName, string>): (r: Result<RepoName, string>)
    ensures |args| > 0 && '/' !in args[0] ==> r == Ok(RepoName("", args[0]))
    ensures |args| > 0 && '/' in args[0] ==>
      r == (match fromFullName(args[0])
            case Ok(n) => Ok(n)
            case Err(e) => Err("argument error: " + e))
    ensures |args| == 0 ==> (r.Err? <==> projectDir.Err?)
    ensures |args| == 0 && r.Err? ==> r.error == projectDir.error
    ensures |args| == 0 && r.Ok? ==> r.value.owner == "" && r.value.name == Base(projectDir.value)
  {
    if |args| > 0 then
      if '/' in args[0] then
        match fromFullName(args[0])
        case Ok(n) => Ok(n)
        case Err(e) => Err("argument error: " + e)
      else Ok(RepoName("", args[0]))
    else
      match projectDir
      case Ok(dir) => Ok(RepoName("", Base(dir)))
      case Err(e) => Err(e)
  }

  datatype CreateFlags = CreateFlags(
    team: string, isPublic: bool, enableIssues: bool, enableWiki: bool,
    description: string, homepage: string)

  /** A created repository: its name and its OWNER/NAME. */
  datatype CreatedRepo = CreatedRepo(name: string, fullName: string)

  /** The answers a create run gets. */
  datatype CreateEnv = CreateEnv(
    args: seq<string>,
    projectDir: Result<string, string>,
    fromFullName: string -> Result<RepoName, string>,
    created: Result<CreatedRepo, string>,
    isTTY: bool,
    confirm: Result<bool, string>,
    remoteURL: string,
    gitError: GitErrors)

  function CreatePrompt(fullName: string): string
  {
    "Create a local project directory for " + fullName + "?"
  }

  /** The input the create mutation receives. */
  function CreateInput(target: RepoName, f: CreateFlags): (input: RepoCreateInput)
    ensures input.name == target.name && input.ownerId == target.owner
    ensures input.visibility == Visibility(f.isPublic)
    ensures input.teamId == f.team && input.description == f.description
    ensures input.homepageURL == f.homepage
    ensures input.hasIssuesEnabled == f.enableIssues && input.hasWikiEnabled == f.enableWiki
  {
    RepoCreateInput(target.name, Visibility(f.isPublic), target.owner, f.team,
      f.description, f.homepage, f.enableIssues, f.enableWiki)
  }

  /** After creating the repository: point the current project's "origin" at
    * it, or offer to set up a new local directory. */
  function SetUpLocal(repo: CreatedRepo, env: CreateEnv): (o: Outcome)
    ensures env.projectDir.Ok? ==> o == RunGit(AddRemote("origin", env.remoteURL), "", env.gitError)
    ensures env.projectDir.Err? && !env.isTTY ==> o == Done
    ensures env.projectDir.Err? && env.isTTY ==> o.steps != [] && o.steps[0] == Confirm(CreatePrompt(repo.fullName))
    ensures NoConfirm(o.steps) <==> env.projectDir.Ok? || !env.isTTY
    ensures env.projectDir.Err? && env.confirm != Ok(true) ==> NoGit(o.steps)
    ensures env.projectDir.Err? && env.isTTY && env.confirm.Err? ==>
      o == Outcome([Confirm(CreatePrompt(repo.fullName))], Some(env.confirm.error))
    ensures env.projectDir.Err? && env.isTTY && env.confirm == Ok(false) ==>
      o == Outcome([Confirm(CreatePrompt(repo.fullName))], None)
    ensures env.projectDir.Err? && env.isTTY && env.confirm == Ok(true) ==>
      o.err == (if env.gitError(Init(repo.name)).Some? then env.gitError(Init(repo.name))
                else env.gitError(AddRemoteIn(repo.name, "origin", env.remoteURL)))
    ensures env.projectDir.Err? && env.isTTY && env.confirm == Ok(true) && o.err.None? ==>
      o.steps == [Confirm(CreatePrompt(repo.fullName)), Git(Init(repo.name)),
                  Git(AddRemoteIn(repo.name, "origin", env.remoteURL))]
    ensures StopsAtFailure(o, env.gitError)
  {
    if env.projectDir.Ok? then
      RunGit(AddRemote("origin", env.remoteURL), "", env.gitError)
    else if !env.isTTY then
      Done
    else
      var asked := Outcome([Confirm(CreatePrompt(repo.fullName))], None);
      match env.confirm
      case Err(e) => Outcome(asked.steps, Some(e))
      case Ok(false) => asked
      case Ok(true) =>
        var init := RunGit(Init(repo.name), "", env.gitError);
        var add := RunGit(AddRemoteIn(repo.name, "origin", env.remoteURL), "", env.gitError);
        ThenStops(init, add, env.gitError);
        var setUp := Then(init, add);
        ThenStops(asked, setUp, env.gitError);
        Then(asked, setUp)
  }

  /** A `repo create` run. */
  function RepoCreate(f: CreateFlags, env: CreateEnv): (o: Outcome)
    ensures CreateTarget(env.args, env.projectDir, env.fromFullName).Err? <==> o.steps == []
    ensures o.steps == [] ==> o.err == Some(CreateTarget(env.args, env.projectDir, env.fromFullName).error)
    ensures o.steps != [] ==>
      o.steps[0] == Create(CreateInput(CreateTarget(env.args, env.projectDir, env.fromFullName).value, f))
    ensures forall i | 0 < i < |o.steps| :: !o.steps[i].Create? && !o.steps[i].Fork?
    ensures env.created.Err? && o.steps != [] ==> o == Outcome([o.steps[0]], Some(env.created.error))
    ensures env.created.Ok? && o.steps != [] ==> o.steps[1..] == SetUpLocal(env.created.value, env).steps
    ensures env.created.Ok? && o.steps != [] ==> o.err == SetUpLocal(env.created.value, env).err
    ensures StopsAtFailure(o, env.gitError)
  {
    match CreateTarget(env.args, env.projectDir, env.fromFullName)
    case Err(e) => Outcome([], Some(e))
    case Ok(target) =>
      var created := Outcome([Create(CreateInput(target, f))], None);
      match env.created
      case Err(e) => Outcome(created.steps, Some(e))
      case Ok(repo) =>
        var setUp := SetUpLocal(repo, env);
        SetUpStaysLocal(repo, env);
        ThenAfterCreate(CreateInput(target, f), setUp, env.gitError);
        Then(created, setUp)
  }

  /** Setting up the local copy neither creates nor forks a repository. */
  lemma SetUpStaysLocal(repo: CreatedRepo, env: CreateEnv)
    ensures var s := SetUpLocal(repo, env).steps;
      forall i | 0 <= i < |s| :: !s[i].Create? && !s[i].Fork?
  {
  }

  /** The create request followed by the local set-up. */
  lemma ThenAfterCreate(input: RepoCreateInput, setUp: Outcome, gitError: GitErrors)
    requires StopsAtFailure(setUp, gitError)
    requires forall i | 0 <= i < |setUp.steps| :: !setUp.steps[i].Create? && !setUp.steps[i].Fork?
    ensures var o := Then(Outcome([Create(input)], None), setUp);
      && o.steps[0] == Create(input)
      && o.steps[1..] == setUp.steps
      && (forall i | 0 < i < |o.steps| :: !o.steps[i].Create? && !o.steps[i].Fork?)
      && StopsAtFailure(o, gitError)
  {
    var created := Outcome([Create(input)], None);
    var o := Then(created, setUp);
    ThenStops(created, setUp, gitError);
    assert o.steps[1..] == setUp.steps;
    forall i | 0 < i < |o.steps|
      ensures !o.steps[i].Create? && !o.steps[i].Fork?
    {
      assert o.steps[i] == setUp.steps[i - 1];
    }
  }

  /** A created repository is added as "origin" of the current project exactly
    * when there is one. */
  lemma OriginAddedInProject(f: CreateFlags, env: CreateEnv)
    requires CreateTarget(env.args, env.projectDir, env.fromFullName).Ok? && env.created.Ok?
    ensures Git(AddRemote("origin", env.remoteURL)) in RepoCreate(f, env).steps <==> env.projectDir.Ok?
  {
    var o := RepoCreate(f, env);
    var setUp := SetUpLocal(env.created.value, env);
    assert o.steps == [o.steps[0]] + setUp.steps;
    if env.projectDir.Err? {
      if env.isTTY && env.confirm == Ok(true) {
        assert forall i | 0 <= i < |setUp.steps| :: setUp.steps[i] != Git(AddRemote("origin", env.remoteURL));
      } else {
        assert NoGit(setUp.steps);
      }
    }
  }

  // ---------------------------------------------------------------------------
  // repo fork
  // ---------------------------------------------------------------------------

  /** `time.Minute`, in nanoseconds. */
  const Minute: int := 60 * 1000 * 1000 * 1000

  const NotTTYMessage: string := "--remote or --clone must be explicitly set when not attached to tty"
  const RemotePrompt: string := "Would you like to add a remote for the fork?"
  const ClonePrompt: string := "Would you like to clone the fork?"

  /** A git remote of the current project, by name: the only part of it the
    * run reads itself. */
  datatype Remote = Remote(name: string)

  /** The answers a fork run gets. `target` is the repository to fork, already
    * resolved from the argument or the current project; `createdAgo` is the age
    * of the returned fork in nanoseconds; `isForkRemote` is the answer of the
    * remotes' lookup by owner and name, whether a remote points at the fork. */
  datatype ForkEnv = ForkEnv(
    inParent: bool,
    target: Result<RepoName, string>,
    clonePref: string,
    remotePref: string,
    isTTY: bool,
    forked: Result<RepoName, string>,
    createdAgo: int,
    remotes: Result<seq<Remote>, string>,
    isForkRemote: Remote -> bool,
    confirm: Result<bool, string>,
    forkURL: string,
    cloneDir: string,
    protocol: Result<string, string>,
    upstreamURLFor: string -> string,
    gitError: GitErrors)
  {
    /** The preference for the mode the run is in: add a remote when forking the
      * current project's repository, clone otherwise. */
    function Pref(): string
    {
      if inParent then remotePref else clonePref
    }

    /** The run gets as far as creating the fork. */
    predicate Forks()
    {
      target.Ok? && !(!isTTY && Pref() == "prompt")
    }

    /** The returned fork is older than a minute, so it already existed. */
    predicate Existed()
    {
      createdAgo > Minute
    }

    /** The run gets past the fork to the remote or clone step. */
    predicate ReachesSetUp()
    {
      Forks() && forked.Ok? && !(Existed() && !isTTY) && Pref() != "false"
    }
  }

  /** Whether the action is wanted: "true" and "false" answer directly, "prompt"
    * asks; the outcome holds the prompt, failed when the prompt fails. */
  function Decide(pref: string, message: string, confirm: Result<bool, string>): (r: (Outcome, bool))
    ensures pref != "prompt" ==> r == (Done, pref == "true")
    ensures pref == "prompt" && confirm.Ok? ==> r == (Outcome([Confirm(message)], None), confirm.value)
    ensures pref == "prompt" && confirm.Err? ==>
      r.0 == Outcome([Confirm(message)], Some("failed to prompt: " + confirm.error))
  {
    if pref != "prompt" then (Done, pref == "true")
    else
      match confirm
      case Ok(b) => (Outcome([Confirm(message)], None), b)
      case Err(e) => (Outcome([Confirm(message)], Some("failed to prompt: " + e)), false)
  }

  /** The action is wanted: "true", or "prompt" answered yes. */
  predicate Wants(pref: string, confirm: Result<bool, string>)
  {
    pref == "true" || (pref == "prompt" && confirm == Ok(true))
  }

  predicate HasForkRemote(rs: seq<Remote>, isForkRemote: Remote -> bool)
  {
    exists i :: 0 <= i < |rs| && isForkRemote(rs[i])
  }

  predicate HasRemoteNamed(rs: seq<Remote>, name: string)
  {
    exists i :: 0 <= i < |rs| && rs[i].name == name
  }

  /** Every git command among `steps` acts on the current project's remotes. */
  predicate RemoteSteps(steps: seq<Step>)
  {
    forall i | 0 <= i < |steps| && steps[i].Git? :: steps[i].action.AddRemote? || steps[i].action.RenameRemote?
  }

  /** Every git command among `steps` clones the fork or configures the clone. */
  predicate CloneSteps(steps: seq<Step>)
  {
    forall i | 0 <= i < |steps| && steps[i].Git? :: steps[i].action.Clone? || steps[i].action.AddUpstream?
  }

  /** Whenever the fork is added as "origin", the command just before renamed an
    * existing "origin" to "upstream" exactly when there was one. */
  predicate OriginMovedFirst(steps: seq<Step>, hadOrigin: bool, url: string)
  {
    forall i | 0 <= i < |steps| && steps[i] == Git(AddRemote("origin", url)) ::
      hadOrigin <==> RenamedBefore(steps, i)
  }

  /** The step before `i` renamed "origin" to "upstream". */
  predicate RenamedBefore(steps: seq<Step>, i: int)
    requires 0 <= i < |steps|
  {
    i > 0 && steps[i - 1] == Git(RenameRemote("origin", "upstream"))
  }

  lemma OriginMovedFirstAfter(pre: seq<Step>, steps: seq<Step>, hadOrigin: bool, url: string)
    requires NoGit(pre) && OriginMovedFirst(steps, hadOrigin, url)
    ensures OriginMovedFirst(pre + steps, hadOrigin, url)
  {
    var all := pre + steps;
    forall i | 0 <= i < |all| && all[i] == Git(AddRemote("origin", url))
      ensures hadOrigin <==> RenamedBefore(all, i)
    {
      assert i >= |pre|;
      var j := i - |pre|;
      assert all[i] == steps[j];
      assert 0 <= j < |steps| && steps[j] == Git(AddRemote("origin", url));
      assert hadOrigin <==> RenamedBefore(steps, j);
      if j > 0 {
        assert all[i - 1] == steps[j - 1];
      } else if i > 0 {
        assert all[i - 1] == pre[i - 1];
        assert !pre[i - 1].Git?;
      }
    }
  }

  /** Adds the fork as "origin", renaming an existing "origin" to "upstream". */
  function AddOrigin(rs: seq<Remote>, env: ForkEnv): (o: Outcome)
    ensures RemoteSteps(o.steps)
    ensures OriginMovedFirst(o.steps, HasRemoteNamed(rs, "origin"), env.forkURL)
    ensures Git(RenameRemote("origin", "upstream")) in o.steps ==> HasRemoteNamed(rs, "origin")
    ensures o.err.None? ==> o.steps != [] && o.steps[|o.steps| - 1] == Git(AddRemote("origin", env.forkURL))
    ensures Git(AddRemote("origin", env.forkURL)) in o.steps ||
      (HasRemoteNamed(rs, "origin") && o == RunGit(RenameRemote("origin", "upstream"), "", env.gitError) && o.err.Some?)
    ensures StopsAtFailure(o, env.gitError)
  {
    var add := RunGit(AddRemote("origin", env.forkURL), "failed to add remote: ", env.gitError);
    if HasRemoteNamed(rs, "origin") then
      var rename := RunGit(RenameRemote("origin", "upstream"), "", env.gitError);
      ThenStops(rename, add, env.gitError);
      Then(rename, add)
    else add
  }

  /** The remote step of a fork run in the current project. */
  function AddForkRemote(env: ForkEnv): (o: Outcome)
    ensures env.remotes.Err? ==> o == Outcome([], Some(env.remotes.error))
    ensures env.remotes.Ok? && HasForkRemote(env.remotes.value, env.isForkRemote) ==> o == Done
    ensures env.remotePref != "prompt" ==> NoConfirm(o.steps)
    ensures env.remotePref == "false" ==> NoGit(o.steps)
    ensures !Wants(env.remotePref, env.confirm) ==> NoGit(o.steps)
    ensures env.remotes.Ok? && !HasForkRemote(env.remotes.value, env.isForkRemote) && Wants(env.remotePref, env.confirm) ==>
      || Git(AddRemote("origin", env.forkURL)) in o.steps
      || (HasRemoteNamed(env.remotes.value, "origin") && o.err.Some?
          && o.err == env.gitError(RenameRemote("origin", "upstream")))
    ensures RemoteSteps(o.steps)
    ensures env.remotes.Ok? ==> OriginMovedFirst(o.steps, HasRemoteNamed(env.remotes.value, "origin"), env.forkURL)
    ensures StopsAtFailure(o, env.gitError)
  {
    match env.remotes
    case Err(e) => Outcome([], Some(e))
    case Ok(rs) =>
      if HasForkRemote(rs, env.isForkRemote) then Done
      else
        var (asked, desired) := Decide(env.remotePref, RemotePrompt, env.confirm);
        var add := if desired then AddOrigin(rs, env) else Done;
        ThenStops(asked, add, env.gitError);
        OriginMovedFirstAfter(asked.steps, add.steps, HasRemoteNamed(rs, "origin"), env.forkURL);
        Then(asked, add)
  }

  /** Every "upstream" remote added to a clone is added right after cloning the
    * fork, with the URL for the configured protocol. */
  predicate UpstreamAfterClone(steps: seq<Step>, env: ForkEnv)
  {
    forall i | 0 <= i < |steps| && steps[i].Git? && steps[i].action.AddUpstream? ::
      && i > 0
      && steps[i - 1] == Git(Clone(env.forkURL))
      && env.protocol.Ok?
      && steps[i].action == AddUpstream(env.upstreamURLFor(env.protocol.value), env.cloneDir)
  }

  lemma UpstreamAfterCloneAfter(pre: seq<Step>, steps: seq<Step>, env: ForkEnv)
    requires NoGit(pre) && UpstreamAfterClone(steps, env)
    ensures UpstreamAfterClone(pre + steps, env)
  {
    var all := pre + steps;
    forall i | 0 <= i < |all| && all[i].Git? && all[i].action.AddUpstream?
      ensures i > 0 && all[i - 1] == Git(Clone(env.forkURL))
    {
      assert i >= |pre|;
      assert all[i] == steps[i - |pre|];
      assert all[i - 1] == steps[i - 1 - |pre|];
    }
  }

  /** Clones the fork, then adds the forked repository as the clone's "upstream". */
  function CloneAndConfigure(env: ForkEnv): (o: Outcome)
    ensures CloneSteps(o.steps)
    ensures UpstreamAfterClone(o.steps, env)
    ensures o.err.None? ==> |o.steps| == 2 && o.steps[0] == Git(Clone(env.forkURL))
    ensures StopsAtFailure(o, env.gitError)
  {
    var clone := RunGit(Clone(env.forkURL), "failed to clone fork: ", env.gitError);
    var upstream := match env.protocol
      case Err(e) => Outcome([], Some(e))
      case Ok(protocol) => RunGit(AddUpstream(env.upstreamURLFor(protocol), env.cloneDir), "", env.gitError);
    ThenStops(clone, upstream, env.gitError);
    Then(clone, upstream)
  }

  /** The clone step of a fork run elsewhere. */
  function CloneFork(env: ForkEnv): (o: Outcome)
    ensures env.clonePref != "prompt" ==> NoConfirm(o.steps)
    ensures env.clonePref == "false" ==> NoGit(o.steps)
    ensures Wants(env.clonePref, env.confirm) <==> Git(Clone(env.forkURL)) in o.steps
    ensures !Wants(env.clonePref, env.confirm) ==> NoGit(o.steps)
    ensures CloneSteps(o.steps)
    ensures UpstreamAfterClone(o.steps, env)
    ensures StopsAtFailure(o, env.gitError)
  {
    var (asked, desired) := Decide(env.clonePref, ClonePrompt, env.confirm);
    var cloned := if desired then CloneAndConfigure(env) else Done;
    ThenStops(asked, cloned, env.gitError);
    UpstreamAfterCloneAfter(asked.steps, cloned.steps, env);
    Then(asked, cloned)
  }

  /** The steps before the remote or clone step: the fork, and the report that
    * it already existed. */
  function ForkSteps(env: ForkEnv): (steps: seq<Step>)
    ensures steps == [Fork] + (if env.Existed() then [ReportExisting] else [])
    ensures NoGit(steps) && NoConfirm(steps)
  {
    if env.Existed() then [Fork, ReportExisting] else [Fork]
  }

  /** A `repo fork` run. */
  function RepoFork(env: ForkEnv): (o: Outcome)
    ensures env.target.Err? ==> o == Outcome([], Some(env.target.error))
    ensures env.target.Ok? && !env.isTTY && env.Pref() == "prompt" ==> o == Outcome([], Some(NotTTYMessage))
    ensures env.Forks() <==> o.steps != [] && o.steps[0] == Fork
    ensures env.Forks() && env.forked.Err? ==> o == Outcome([Fork], Some("failed to fork: " + env.forked.error))
    ensures env.Forks() && env.forked.Ok? && env.Existed() && !env.isTTY ==> o == Outcome([Fork, ReportExisting], None)
    ensures env.Forks() && env.forked.Ok? && env.Pref() == "false" ==> o == Outcome(ForkSteps(env), None)
    ensures env.ReachesSetUp() && env.inParent ==> o == Then(Outcome(ForkSteps(env), None), AddForkRemote(env))
    ensures env.ReachesSetUp() && !env.inParent ==> o == Then(Outcome(ForkSteps(env), None), CloneFork(env))
    ensures !env.ReachesSetUp() ==> NoGit(o.steps) && NoConfirm(o.steps)
    ensures StopsAtFailure(o, env.gitError)
  {
    if env.target.Err? then Outcome([], Some(env.target.error))
    else if !env.isTTY && env.Pref() == "prompt" then Outcome([], Some(NotTTYMessage))
    else
      match env.forked
      case Err(e) => Outcome([Fork], Some("failed to fork: " + e))
      case Ok(_) =>
        var forked := Outcome(ForkSteps(env), None);
        if (env.Existed() && !env.isTTY) || env.Pref() == "false" then forked
        else
          var setUp := if env.inParent then AddForkRemote(env) else CloneFork(env);
          ThenStops(forked, setUp, env.gitError);
          Then(forked, setUp)
  }

  /** Past the fork, the preference decides: wanting a remote adds the fork as
    * "origin" (unless renaming the old "origin" fails), wanting a clone clones
    * it, and no git command runs otherwise. */
  lemma ForkSetUpFollowsPreference(env: ForkEnv)
    requires env.ReachesSetUp()
    ensures !Wants(env.Pref(), env.confirm) ==> NoGit(RepoFork(env).steps)
    ensures env.inParent && env.remotes.Ok? && !HasForkRemote(env.remotes.value, env.isForkRemote)
            && Wants(env.remotePref, env.confirm) ==>
      || Git(AddRemote("origin", env.forkURL)) in RepoFork(env).steps
      || (HasRemoteNamed(env.remotes.value, "origin")
          && RepoFork(env).err == env.gitError(RenameRemote("origin", "upstream")))
    ensures !env.inParent ==> (Wants(env.clonePref, env.confirm) <==> Git(Clone(env.forkURL)) in RepoFork(env).steps)
  {
    var pre := ForkSteps(env);
    var setUp := if env.inParent then AddForkRemote(env) else CloneFork(env);
    var o := RepoFork(env);
    assert o.steps == pre + setUp.steps;
    assert o.err == setUp.err;
    assert Git(AddRemote("origin", env.forkURL)) in setUp.steps ==> Git(AddRemote("origin", env.forkURL)) in o.steps;
    assert Git(Clone(env.forkURL)) in o.steps <==> Git(Clone(env.forkURL)) in setUp.steps;
    if !Wants(env.Pref(), env.confirm) {
      forall i | 0 <= i < |o.steps|
        ensures !o.steps[i].Git?
      {
        if i >= |pre| {
          assert o.steps[i] == setUp.steps[i - |pre|];
        }
      }
    }
  }

  /** In the current project's repository a run never clones; elsewhere it never
    * touches the current project's remotes. */
  lemma ForkModeSeparation(env: ForkEnv)
    ensures env.inParent ==> RemoteSteps(RepoFork(env).steps)
    ensures !env.inParent ==> CloneSteps(RepoFork(env).steps)
  {
    var o := RepoFork(env);
    if env.ReachesSetUp() {
      var pre := ForkSteps(env);
      var setUp := if env.inParent then AddForkRemote(env) else CloneFork(env);
      assert o.steps == pre + setUp.steps;
      forall i | 0 <= i < |o.steps| && o.steps[i].Git?
        ensures env.inParent ==> o.steps[i].action.AddRemote? || o.steps[i].action.RenameRemote?
        ensures !env.inParent ==> o.steps[i].action.Clone? || o.steps[i].action.AddUpstream?
      {
        if i >= |pre| {
          assert o.steps[i] == setUp.steps[i - |pre|];
        }
      }
    }
  }

  /** A fork remote already configured is reused: no prompt, no git command. */
  lemma ExistingForkRemoteReused(env: ForkEnv)
    requires env.ReachesSetUp() && env.inParent
    requires env.remotes.Ok? && HasForkRemote(env.remotes.value, env.isForkRemote)
    ensures RepoFork(env) == Outcome(ForkSteps(env), None)
  {
    assert ForkSteps(env) + [] == ForkSteps(env);
  }

  /** Adding the fork as "origin" when "origin" exists renames it first; the
    * rename happens only then. */
  lemma OriginRenamedFirst(env: ForkEnv)
    requires env.ReachesSetUp() && env.inParent && env.remotes.Ok?
    ensures OriginMovedFirst(RepoFork(env).steps, HasRemoteNamed(env.remotes.value, "origin"), env.forkURL)
  {
    OriginMovedFirstAfter(ForkSteps(env), AddForkRemote(env).steps,
      HasRemoteNamed(env.remotes.value, "origin"), env.forkURL);
  }

  /** Only a "prompt" preference asks; "true" and "false" answer without asking. */
  lemma OnlyPromptAsks(env: ForkEnv)
    ensures env.Pref() != "prompt" ==> NoConfirm(RepoFork(env).steps)
  {
    var o := RepoFork(env);
    if env.ReachesSetUp() && env.Pref() != "prompt" {
      var pre := ForkSteps(env);
      var setUp := if env.inParent then AddForkRemote(env) else CloneFork(env);
      assert o.steps == pre + setUp.steps;
      forall i | 0 <= i < |o.steps| ensures !o.steps[i].Confirm? {
        if i < |pre| {
          assert o.steps[i] == pre[i];
        } else {
          assert o.steps[i] == setUp.steps[i - |pre|];
        }
      }
    }
  }
}
