/**
 * `issue edit`: which fields the command-line flags mark as edited, when the
 * command turns interactive, and the update request built from the edited
 * fields only.
 */
module IssueEdit {
  import opened Wrappers
  import opened Strings

  /** The flags that select a field to edit. */
  datatype Flag = Title | Body | Assignee | Label | Project | Milestone
  {
    function Name(): string
    {
      match this
      case Title => "title"
      case Body => "body"
      case Assignee => "assignee"
      case Label => "label"
      case Project => "project"
      case Milestone => "milestone"
    }
  }

  const AllFlags: seq<Flag> := [Title, Body, Assignee, Label, Project, Milestone]

  /** The `*Edited` markers of the editable options. */
  datatype Edited = Edited(title: bool, body: bool, assignees: bool, labels: bool, projects: bool, milestone: bool)
  {
    function Of(f: Flag): bool
    {
      match f
      case Title => title
      case Body => body
      case Assignee => assignees
      case Label => labels
      case Project => projects
      case Milestone => milestone
    }
  }

  /** The markers set from the names of the flags the user changed. */
  function EditedFrom(changed: set<string>): (e: Edited)
    ensures forall f :: e.Of(f) <==> f.Name() in changed
  {
    Edited("title" in changed, "body" in changed, "assignee" in changed,
      "label" in changed, "project" in changed, "milestone" in changed)
  }

  // ---------------------------------------------------------------------------
  // The interactivity rule and its error message
  // ---------------------------------------------------------------------------

  /** The options as `--a, --b, …, or --z`. */
  function FlagList(names: seq<string>): string
  {
    if |names| == 0 then ""
    else if |names| == 1 then "--" + names[0]
    else if |names| == 2 then "--" + names[0] + ", or --" + names[1]
    else "--" + names[0] + ", " + FlagList(names[1..])
  }

  function RequiredMessage(names: seq<string>): string
  {
    FlagList(names) + " required when not running interactively"
  }


  /** The flag names the message is meant to list. */
  function FlagNames(): (names: seq<string>)
    ensures |names| == |AllFlags|
    ensures forall i :: 0 <= i < |AllFlags| ==> names[i] == AllFlags[i].Name()
  {
    seq(|AllFlags|, i requires 0 <= i < |AllFlags| => AllFlags[i].Name())
  }

  /** `p` occurs somewhere in `s`. */
  predicate Occurs(p: string, s: string)
    decreases |s|
  {
    HasPrefix(s, p) || (s != [] && Occurs(p, s[1..]))
  }

  /** The option names the message lists as the source writes it. */
  const WrittenNames: seq<string> := ["tile", "body", "assignee", "label", "project", "milestone"]

  /** The message the command prints, as written in the source. */
  function MessageAsWritten(): string
  {
    RequiredMessage(WrittenNames)
  }

  /** The message as written lists six options; its first, "--tile", is no
    * flag's name, "title" is missing from the list, and so the message is not
    * the one that lists the flags. */
  lemma MessageAsWrittenMissesTitle()
    ensures Occurs("--tile", MessageAsWritten())
    ensures forall f: Flag :: f.Name() != WrittenNames[0]
    ensures Title.Name() !in WrittenNames
    ensures MessageAsWritten() != NonInteractiveMessage()
  {
    var w := WrittenNames;
    assert FlagList(w) == "--" + w[0] + ", " + FlagList(w[1..]);
    assert HasPrefix(MessageAsWritten(), "--tile");
    var names := FlagNames();
    assert FlagList(names) == "--" + names[0] + ", " + FlagList(names[1..]);
    assert NonInteractiveMessage()[4] == 't' != MessageAsWritten()[4];
  }

  /** The message the command evidently means: every flag listed by its name. */
  function NonInteractiveMessage(): string
  {
    RequiredMessage(FlagNames())
  }

  lemma {:induction false} FlagListMentions(names: seq<string>, i: nat)
    requires i < |names|
    ensures Occurs("--" + names[i], FlagList(names))
    decreases |names|
  {
    var p := "--" + names[i];
    var s := FlagList(names);
    if |names| == 1 || i == 0 {
      if |names| == 1 {
        assert s == p;
      } else if |names| == 2 {
        assert s == p + (", or --" + names[1]);
      } else {
        assert s == p + (", " + FlagList(names[1..]));
      }
      assert HasPrefix(s, p);
    } else if |names| == 2 {
      var pre := "--" + names[0] + ", or ";
      assert s == pre + p;
      OccursAfter(p, pre, p);
    } else {
      var pre := "--" + names[0] + ", ";
      FlagListMentions(names[1..], i - 1);
      assert s == pre + FlagList(names[1..]);
      OccursAfter(p, pre, FlagList(names[1..]));
    }
  }

  lemma {:induction false} OccursAfter(p: string, pre: string, s: string)
    requires Occurs(p, s) || HasPrefix(s, p)
    ensures Occurs(p, pre + s)
    decreases |pre|
  {
    if pre == [] {
      assert pre + s == s;
    } else {
      assert (pre + s)[1..] == pre[1..] + s;
      OccursAfter(p, pre[1..], s);
    }
  }

  lemma {:induction false} OccursExtend(p: string, s: string, post: string)
    requires Occurs(p, s)
    ensures Occurs(p, s + post)
    decreases |s|
  {
    if HasPrefix(s, p) {
      assert (s + post)[..|p|] == s[..|p|];
    } else {
      assert (s + post)[1..] == s[1..] + post;
      OccursExtend(p, s[1..], post);
    }
  }

  /** The corrected message names every flag the command accepts. */
  lemma NonInteractiveMessageMentionsEveryFlag(f: Flag)
    ensures Occurs("--" + f.Name(), NonInteractiveMessage())
  {
    var names := FlagNames();
    var i := match f
      case Title => 0
      case Body => 1
      case Assignee => 2
      case Label => 3
      case Project => 4
      case Milestone => 5;
    FlagListMentions(names, i);
    OccursExtend("--" + f.Name(), FlagList(names), " required when not running interactively");
  }

  /** What the command decides before running: the edited markers and whether
    * it prompts for the fields. */
  datatype Plan = Plan(edited: Edited, interactive: bool)

  /** A usage error, shown together with the command's usage. */
  datatype FlagError = FlagError(message: string)

  /** The part of the command's run that inspects the flags. `dirty` is whether
    * the editable options hold any edit (the check itself is not part of the
    * model); `canPrompt` is whether the terminal can prompt. */
  function Prepare(changed: set<string>, dirty: bool, canPrompt: bool): (r: Result<Plan, FlagError>)
    ensures r.Err? <==> !dirty && !canPrompt
    ensures r.Err? ==> r.error == FlagError(MessageAsWritten())
    ensures r.Ok? ==> (r.value.interactive <==> !dirty)
    ensures r.Ok? ==> forall f :: r.value.edited.Of(f) <==> f.Name() in changed
  {
    var edited := EditedFrom(changed);
    var interactive := !dirty;
    if interactive && !canPrompt then Err(FlagError(MessageAsWritten()))
    else Ok(Plan(edited, interactive))
  }

  /** Prepare with the message that names the flags. */
  function PrepareIntended(changed: set<string>, dirty: bool, canPrompt: bool): (r: Result<Plan, FlagError>)
    ensures r.Err? <==> !dirty && !canPrompt
    ensures r.Err? ==> r.error == FlagError(NonInteractiveMessage())
    ensures r.Ok? ==> (r.value.interactive <==> !dirty)
    ensures r.Ok? ==> forall f :: r.value.edited.Of(f) <==> f.Name() in changed
  {
    var edited := EditedFrom(changed);
    var interactive := !dirty;
    if interactive && !canPrompt then Err(FlagError(NonInteractiveMessage()))
    else Ok(Plan(edited, interactive))
  }

  /** The two agree except for the message, and the corrected message names
    * every flag while the written one does not name --title. */
  lemma PrepareDiffersOnlyInMessage(changed: set<string>, dirty: bool, canPrompt: bool, f: Flag)
    ensures Prepare(changed, dirty, canPrompt).Ok? <==> PrepareIntended(changed, dirty, canPrompt).Ok?
    ensures Prepare(changed, dirty, canPrompt).Ok? ==>
      Prepare(changed, dirty, canPrompt) == PrepareIntended(changed, dirty, canPrompt)
    ensures Prepare(changed, dirty, canPrompt).Err? ==>
      && Prepare(changed, dirty, canPrompt) != PrepareIntended(changed, dirty, canPrompt)
      && Occurs("--" + f.Name(), PrepareIntended(changed, dirty, canPrompt).error.message)
      && Occurs("--tile", Prepare(changed, dirty, canPrompt).error.message)
  {
    MessageAsWrittenMissesTitle();
    NonInteractiveMessageMentionsEveryFlag(f);
  }

  // ---------------------------------------------------------------------------
  // updateIssue
  // ---------------------------------------------------------------------------

  datatype EditableOptions = EditableOptions(
    edited: Edited, title: string, body: string, assignees: seq<string>,
    labels: seq<string>, projects: seq<string>, milestone: string)

  /** The answers of the lookups the update depends on: "@me" replacement and
    * the name-to-ID tables of the prefetched metadata. */
  datatype Lookups = Lookups(
    replaceMe: seq<string> -> Result<seq<string>, string>,
    members: seq<string> -> Result<seq<string>, string>,
    labels: seq<string> -> Result<seq<string>, string>,
    projects: seq<string> -> Result<seq<string>, string>,
    milestone: string -> Result<string, string>)

  /** The UpdateIssueInput mutation input; an absent field is left as it is. */
  datatype UpdateIssueInput = UpdateIssueInput(
    id: string, title: Option<string>, body: Option<string>,
    assigneeIds: Option<seq<string>>, labelIds: Option<seq<string>>,
    projectIds: Option<seq<string>>, milestoneId: Option<string>)

  /** The assignee IDs: "@me" replaced first, then the logins looked up. */
  function AssigneeIds(assignees: seq<string>, lk: Lookups): Result<seq<string>, string>
  {
    var logins :- lk.replaceMe(assignees);
    lk.members(logins)
  }

  /** Runs a lookup only for an edited field. */
  function When<T>(edited: bool, lookup: Result<T, string>): (r: Result<Option<T>, string>)
    ensures !edited ==> r == Ok(None)
    ensures edited ==> (r.Ok? <==> lookup.Ok?)
    ensures edited && r.Ok? ==> r.value == Some(lookup.value)
    ensures edited && r.Err? ==> r.error == lookup.error
  {
    if !edited then Ok(None)
    else match lookup
      case Ok(v) => Ok(Some(v))
      case Err(e) => Err(e)
  }

  /** A lookup the update needs that fails. */
  predicate FailsFor<T>(edited: bool, lookup: Result<T, string>)
  {
    edited && lookup.Err?
  }

  /** updateIssue up to the mutation: the input it sends, or the first lookup
    * error, in which case nothing is sent. */
  function UpdateIssue(id: string, o: EditableOptions, lk: Lookups): (r: Result<UpdateIssueInput, string>)
    ensures r.Err? <==>
      || FailsFor(o.edited.assignees, AssigneeIds(o.assignees, lk))
      || FailsFor(o.edited.labels, lk.labels(o.labels))
      || FailsFor(o.edited.projects, lk.projects(o.projects))
      || FailsFor(o.edited.milestone, lk.milestone(o.milestone))
    ensures r.Err? && FailsFor(o.edited.assignees, AssigneeIds(o.assignees, lk)) ==>
      r.error == AssigneeIds(o.assignees, lk).error
    ensures r.Ok? ==> r.value.id == id
    ensures r.Ok? ==> r.value.title == (if o.edited.title then Some(o.title) else None)
    ensures r.Ok? ==> r.value.body == (if o.edited.body then Some(o.body) else None)
    ensures r.Ok? ==> r.value.assigneeIds == (if o.edited.assignees then Some(AssigneeIds(o.assignees, lk).value) else None)
    ensures r.Ok? ==> r.value.labelIds == (if o.edited.labels then Some(lk.labels(o.labels).value) else None)
    ensures r.Ok? ==> r.value.projectIds == (if o.edited.projects then Some(lk.projects(o.projects).value) else None)
    ensures r.Ok? ==> r.value.milestoneId == (if o.edited.milestone then Some(lk.milestone(o.milestone).value) else None)
  {
    var assigneeIds :- When(o.edited.assignees, AssigneeIds(o.assignees, lk));
    var labelIds :- When(o.edited.labels, lk.labels(o.labels));
    var projectIds :- When(o.edited.projects, lk.projects(o.projects));
    var milestoneId :- When(o.edited.milestone, lk.milestone(o.milestone));
    Ok(UpdateIssueInput(id,
      if o.edited.title then Some(o.title) else None,
      if o.edited.body then Some(o.body) else None,
      assigneeIds, labelIds, projectIds, milestoneId))
  }

  /** Whether the mutation input carries the field `f` selects. */
  predicate Carries(u: UpdateIssueInput, f: Flag)
  {
    match f
    case Title => u.title.Some?
    case Body => u.body.Some?
    case Assignee => u.assigneeIds.Some?
    case Label => u.labelIds.Some?
    case Project => u.projectIds.Some?
    case Milestone => u.milestoneId.Some?
  }

  /** From the flags to the request: once the flags pass and the lookups
    * answer, the mutation carries a field exactly when its flag was changed. */
  lemma ChangedFlagsAreSent(changed: set<string>, dirty: bool, canPrompt: bool,
      id: string, o: EditableOptions, lk: Lookups)
    requires Prepare(changed, dirty, canPrompt).Ok?
    requires o.edited == Prepare(changed, dirty, canPrompt).value.edited
    requires UpdateIssue(id, o, lk).Ok?
    ensures forall f :: Carries(UpdateIssue(id, o, lk).value, f) <==> f.Name() in changed
  {
    UpdateCarriesEdited(id, o, lk);
  }

  /** A successful update carries exactly the edited fields. */
  lemma UpdateCarriesEdited(id: string, o: EditableOptions, lk: Lookups)
    requires UpdateIssue(id, o, lk).Ok?
    ensures forall f :: Carries(UpdateIssue(id, o, lk).value, f) <==> o.edited.Of(f)
  {
    var u := UpdateIssue(id, o, lk).value;
    assert u.title.Some? <==> o.edited.title;
    assert u.body.Some? <==> o.edited.body;
    assert u.assigneeIds.Some? <==> o.edited.assignees;
    assert u.labelIds.Some? <==> o.edited.labels;
    assert u.projectIds.Some? <==> o.edited.projects;
    assert u.milestoneId.Some? <==> o.edited.milestone;
  }

  /** With no field edited the mutation carries the issue ID and nothing else. */
  lemma NothingEditedSendsOnlyId(id: string, o: EditableOptions, lk: Lookups)
    requires o.edited == Edited(false, false, false, false, false, false)
    ensures UpdateIssue(id, o, lk) == Ok(UpdateIssueInput(id, None, None, None, None, None, None))
  {
  }

  /** A later lookup's failure is hidden behind an earlier one: labels are looked
    * up only after the assignees succeed. */
  lemma FirstFailureWins(id: string, o: EditableOptions, lk: Lookups)
    requires FailsFor(o.edited.assignees, AssigneeIds(o.assignees, lk))
    ensures UpdateIssue(id, o, lk) == Err(AssigneeIds(o.assignees, lk).error)
  {
  }
}
