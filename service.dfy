/**
 * The stateful part of `RecipesService` (recipes.service.ts): saving the
 * rendered document, the git commit coordinator `commitAndPushRecipe`, and
 * the request pipeline `createRecipe`.
 *
 * The world outside the service (the file system, the git subprocesses)
 * is a `World` object: a map of files, a log of the effects in the order
 * they happen, and scripted answers for the steps that may fail.
 */
module Service {
  import opened Wrappers
  import opened Text
  import Slugs
  import Markdown
  import Extraction

  /** A thrown JavaScript value: an `Error` with its message, or anything else. */
  datatype Thrown = Error(message: string) | NonError

  /** The five git invocations, with the arguments that vary. */
  datatype GitCommand =
    | RevParse(root: string)
    | Add(root: string, path: string)
    | Status(root: string)
    | Commit(root: string, message: string)
    | Push(root: string)

  /** The kind of a git invocation, to script its answer. */
  datatype GitStep = RevParseStep | AddStep | StatusStep | CommitStep | PushStep

  function StepOf(cmd: GitCommand): GitStep {
    match cmd
    case RevParse(_) => RevParseStep
    case Add(_, _) => AddStep
    case Status(_) => StatusStep
    case Commit(_, _) => CommitStep
    case Push(_) => PushStep
  }

  /** An effect on the world, as logged. */
  datatype Event =
    | Wrote(path: string)
    | Locked(path: string)
    | Unlocked(path: string)
    | Ran(cmd: GitCommand)

  /** The environment variables the service reads; `None` is unset. */
  datatype Env = Env(repoRoot: Option<string>, autoCommit: Option<string>, replicateToken: Option<string>)

  /** What a failing git invocation throws, if it fails. */
  function GitAnswer(fails: map<GitStep, Thrown>, cmd: GitCommand): Outcome<Thrown> {
    if StepOf(cmd) in fails then Fail(fails[StepOf(cmd)]) else Pass
  }

  /** The lock file `<root>/.git/recipe-commit.lock`. */
  function LockPath(root: string): string {
    root + "/.git/recipe-commit.lock"
  }

  /** Node's error for `open(path, 'wx')` on an existing file. */
  function ExistsMessage(path: string): string {
    "EEXIST: file already exists, open '" + path + "'"
  }

  class World {
    /** The files on disk, by path. */
    var files: map<string, string>
    /** Every effect, in order. */
    var events: seq<Event>
    /** Set when opening a file fails for a reason other than its existence. */
    const openFails: Option<Thrown>
    /** Set when writing a file fails. */
    const writeFails: Option<Thrown>
    /** The git invocations that fail, and with what. */
    const gitFails: map<GitStep, Thrown>
    /** What `git status --porcelain` prints. */
    const statusOutput: string

    constructor(files: map<string, string>, openFails: Option<Thrown>, writeFails: Option<Thrown>,
                gitFails: map<GitStep, Thrown>, statusOutput: string)
      ensures this.files == files && this.events == []
      ensures this.openFails == openFails && this.writeFails == writeFails
      ensures this.gitFails == gitFails && this.statusOutput == statusOutput
    {
      this.files := files;
      this.events := [];
      this.openFails := openFails;
      this.writeFails := writeFails;
      this.gitFails := gitFails;
      this.statusOutput := statusOutput;
    }

    /** `fs.writeFile(path, data)` */
    method WriteFile(path: string, data: string) returns (o: Outcome<Thrown>)
      modifies this
      ensures o == (if writeFails.Some? then Fail(writeFails.value) else Pass)
      ensures o.Pass? ==> files == old(files)[path := data] && events == old(events) + [Wrote(path)]
      ensures o.Fail? ==> files == old(files) && events == old(events)
    {
      if writeFails.Some? {
        return Fail(writeFails.value);
      }
      files := files[path := data];
      events := events + [Wrote(path)];
      return Pass;
    }

    /** `fs.open(path, 'wx')`: creates the file, failing if it exists. */
    method OpenExclusive(path: string) returns (o: Outcome<Thrown>)
      modifies this
      ensures path in old(files) ==> o == Fail(Error(ExistsMessage(path)))
      ensures path !in old(files) && openFails.Some? ==> o == Fail(openFails.value)
      ensures o.Pass? <==> path !in old(files) && openFails.None?
      ensures o.Pass? ==> files == old(files)[path := ""] && events == old(events) + [Locked(path)]
      ensures o.Fail? ==> files == old(files) && events == old(events)
    {
      if path in files {
        return Fail(Error(ExistsMessage(path)));
      }
      if openFails.Some? {
        return Fail(openFails.value);
      }
      files := files[path := ""];
      events := events + [Locked(path)];
      return Pass;
    }

    /** `lockHandle.close()` and `fs.unlink(path)`, whose failure is ignored. */
    method Release(path: string)
      modifies this
      ensures files == old(files) - {path} && events == old(events) + [Unlocked(path)]
    {
      files := files - {path};
      events := events + [Unlocked(path)];
    }

    /** One git subprocess; `stdout` is what it prints. */
    method Git(cmd: GitCommand) returns (o: Outcome<Thrown>, stdout: string)
      modifies this
      ensures o == GitAnswer(gitFails, cmd)
      ensures stdout == (if cmd.Status? then statusOutput else "")
      ensures files == old(files) && events == old(events) + [Ran(cmd)]
    {
      events := events + [Ran(cmd)];
      o := GitAnswer(gitFails, cmd);
      stdout := if cmd.Status? then statusOutput else "";
    }
  }

  // ---------------------------------------------------------------------
  // commitAndPushRecipe, as a specification

  /**
   * `title ? title.replace(/\s+/g, ' ').trim() : 'Untitled recipe'`: the
   * title with whitespace runs collapsed and the ends trimmed, or
   * "Untitled recipe" for a missing or empty title.
   */
  function SafeTitle(title: Option<string>): (r: string)
    ensures title.GetOr("") == "" ==> r == "Untitled recipe"
    ensures title.GetOr("") != "" ==> IsNormalized(r) && Words(r) == Words(title.value)
  {
    if title.GetOr("") == "" then "Untitled recipe" else Normalize(title.value)
  }

  const CommitPrefix := "chore: 🤖 add recipe: "

  /** The commit message: the fixed prefix, then the safe title. */
  function CommitMessage(title: Option<string>): (r: string)
    ensures CommitPrefix <= r && r[|CommitPrefix|..] == SafeTitle(title)
  {
    var t := SafeTitle(title);
    assert (CommitPrefix + t)[..|CommitPrefix|] == CommitPrefix;
    assert (CommitPrefix + t)[|CommitPrefix|..] == t;
    CommitPrefix + t
  }

  const GitFailurePrefix := "⚠️ Failed to push recipe to git: "

  /**
   * The message of the exception the coordinator throws for `e`: the prefix,
   * then the error's message or "Unknown git error".
   */
  function GitFailure(e: Thrown): (r: string)
    ensures GitFailurePrefix <= r
    ensures e.Error? ==> r[|GitFailurePrefix|..] == e.message
    ensures e.NonError? ==> r[|GitFailurePrefix|..] == "Unknown git error"
  {
    var m := match e case Error(m) => m case NonError => "Unknown git error";
    assert (GitFailurePrefix + m)[..|GitFailurePrefix|] == GitFailurePrefix;
    assert (GitFailurePrefix + m)[|GitFailurePrefix|..] == m;
    GitFailurePrefix + m
  }

  /** The five invocations of a commit run, in order. */
  function GitScript(root: string, path: string, message: string): seq<GitCommand> {
    [RevParse(root), Add(root, path), Status(root), Commit(root, message), Push(root)]
  }

  /** The index of the first command of `cmds` that fails, or `|cmds|` when none does. */
  function FirstFailure(fails: map<GitStep, Thrown>, cmds: seq<GitCommand>): (k: nat)
    ensures k <= |cmds|
    ensures forall i :: 0 <= i < k ==> GitAnswer(fails, cmds[i]).Pass?
    ensures k < |cmds| ==> GitAnswer(fails, cmds[k]).Fail?
  {
    if cmds == [] then 0
    else if GitAnswer(fails, cmds[0]).Fail? then 0
    else 1 + FirstFailure(fails, cmds[1..])
  }

  /** The log entries of running `cmds` one after the other. */
  function Runs(cmds: seq<GitCommand>): seq<Event> {
    seq(|cmds|, i requires 0 <= i < |cmds| => Ran(cmds[i]))
  }

  /**
   * How many commands run when the first failure is at index `k`: up to and
   * including that one, but no further than the status query when its output
   * is blank.
   */
  function StepsRun(k: nat, statusOutput: string): nat {
    if k < 3 then k + 1 else if Trim(statusOutput) == "" then 3 else if k < 5 then k + 1 else 5
  }

  lemma RunsStep(log: seq<Event>, cmds: seq<GitCommand>, i: nat)
    requires i < |cmds|
    ensures log + Runs(cmds[..i]) + [Ran(cmds[i])] == log + Runs(cmds[..i + 1])
  {
    assert Runs(cmds[..i + 1]) == Runs(cmds[..i]) + [Ran(cmds[i])];
  }

  lemma Bracket(start: seq<Event>, lock: string, runs: seq<Event>)
    ensures start + [Locked(lock)] + runs + [Unlocked(lock)] == start + ([Locked(lock)] + runs + [Unlocked(lock)])
  {
  }

  lemma ReleaseRestores(files: map<string, string>, lock: string)
    requires lock !in files
    ensures files[lock := ""] - {lock} == files
  {
  }

  /** A command that occurs once in the script is logged exactly when the run reaches it. */
  lemma {:induction false} LoggedIff(lock: string, cmds: seq<GitCommand>, n: nat, i: nat)
    requires n <= |cmds| && i < |cmds|
    requires forall j :: 0 <= j < |cmds| && j != i ==> cmds[j] != cmds[i]
    ensures Ran(cmds[i]) in [Locked(lock)] + Runs(cmds[..n]) + [Unlocked(lock)] <==> i < n
  {
    var runs := Runs(cmds[..n]);
    var events := [Locked(lock)] + runs + [Unlocked(lock)];
    if i < n {
      assert events[i + 1] == Ran(cmds[i]);
    }
    if Ran(cmds[i]) in events {
      var k :| 0 <= k < |events| && events[k] == Ran(cmds[i]);
      assert events[k] == runs[k - 1];
      assert cmds[k - 1] == cmds[i];
    }
  }

  /**
   * A commit run logs the commit only after rev-parse, add and status passed
   * and status printed a change, and logs the push only after the commit passed.
   */
  lemma {:induction false} RunsOnlyPassed(gitFails: map<GitStep, Thrown>, root: string, path: string, message: string,
                                          lock: string, statusOutput: string)
    ensures var cmds := GitScript(root, path, message);
            var events := [Locked(lock)] + Runs(cmds[..StepsRun(FirstFailure(gitFails, cmds), statusOutput)]) + [Unlocked(lock)];
            && (Ran(Commit(root, message)) in events ==>
                  && RevParseStep !in gitFails && AddStep !in gitFails && StatusStep !in gitFails
                  && Trim(statusOutput) != "")
            && (Ran(Push(root)) in events ==> CommitStep !in gitFails && Ran(Commit(root, message)) in events)
  {
    var cmds := GitScript(root, path, message);
    var k := FirstFailure(gitFails, cmds);
    var n := StepsRun(k, statusOutput);
    LoggedIff(lock, cmds, n, 3);
    LoggedIff(lock, cmds, n, 4);
    assert cmds[3] == Commit(root, message) && cmds[4] == Push(root);
    if n > 3 {
      assert GitAnswer(gitFails, cmds[0]).Pass? && GitAnswer(gitFails, cmds[1]).Pass? && GitAnswer(gitFails, cmds[2]).Pass?;
    }
    if n > 4 {
      assert GitAnswer(gitFails, cmds[3]).Pass?;
    }
  }

  /** What one call of the coordinator does: its effects, in order, and its outcome. */
  datatype CommitRun = CommitRun(events: seq<Event>, outcome: Outcome<string>)

  /** Whether the coordinator does anything at all. */
  predicate CommitEnabled(env: Env) {
    env.repoRoot.GetOr("") != "" && env.autoCommit == Some("true")
  }

  /**
   * The commit run, given the files on disk and the scripted answers: after
   * taking the lock, the git commands run in order up to and including the
   * first that fails, or up to the status query when its output is blank;
   * the lock is released afterwards.
   */
  function CommitPlan(env: Env, files: map<string, string>, openFails: Option<Thrown>,
                      gitFails: map<GitStep, Thrown>, statusOutput: string,
                      path: string, title: Option<string>): (r: CommitRun)
    ensures !CommitEnabled(env) ==> r == CommitRun([], Pass)
    ensures CommitEnabled(env) && Ran(Commit(env.repoRoot.value, CommitMessage(title))) in r.events ==>
              && RevParseStep !in gitFails && AddStep !in gitFails && StatusStep !in gitFails
              && Trim(statusOutput) != ""
    ensures CommitEnabled(env) && Ran(Push(env.repoRoot.value)) in r.events ==>
              CommitStep !in gitFails && Ran(Commit(env.repoRoot.value, CommitMessage(title))) in r.events
  {
    if !CommitEnabled(env) then CommitRun([], Pass)
    else
      var root := env.repoRoot.value;
      var lock := LockPath(root);
      if lock in files then CommitRun([], Fail(GitFailure(Error(ExistsMessage(lock)))))
      else if openFails.Some? then CommitRun([], Fail(GitFailure(openFails.value)))
      else
        var cmds := GitScript(root, path, CommitMessage(title));
        var k := FirstFailure(gitFails, cmds);
        var n := StepsRun(k, statusOutput);
        RunsOnlyPassed(gitFails, root, path, CommitMessage(title), lock, statusOutput);
        CommitRun([Locked(lock)] + Runs(cmds[..n]) + [Unlocked(lock)],
                  if k < n then Fail(GitFailure(gitFails[StepOf(cmds[k])])) else Pass)
  }

  // ---------------------------------------------------------------------
  // summarize and createRecipe, as specifications

  const ConfigMissing := "Replicate configuration missing"
  const RootMissing := "⚠️ Missing repo root path"
  const UrlRequired := "URL is required"

  /**
   * `summarize` after the prompt is built: the token check, the model run
   * (its result a parameter), and the JSON recovery with `parse` standing
   * for `JSON.parse`.
   */
  function Summarize(token: Option<string>, run: Result<Extraction.ModelOutput, Thrown>,
                     parse: string -> Result<Markdown.RawRecipe, string>): (r: Result<Markdown.RawRecipe, Thrown>)
    ensures token.GetOr("") == "" ==> r == Failure(Error(ConfigMissing))
    ensures token.GetOr("") != "" && run.Failure? ==> r == Failure(run.error)
    ensures r.Success? <==>
              token.GetOr("") != "" && run.Success? && Extraction.Recover(Extraction.RawText(run.value), parse).Success?
    ensures r.Success? ==> r.value == Extraction.Recover(Extraction.RawText(run.value), parse).value
    ensures token.GetOr("") != "" && run.Success? && r.Failure? ==>
              r.error == Error(Extraction.Recover(Extraction.RawText(run.value), parse).error)
  {
    if token.GetOr("") == "" then Failure(Error(ConfigMissing))
    else match run
      case Failure(e) => Failure(e)
      case Success(output) =>
        match Extraction.Recover(Extraction.RawText(output), parse)
        case Success(recipe) => Success(recipe)
        case Failure(msg) => Failure(Error(msg))
  }

  /** An HTTP error: the status code and the message. */
  datatype HttpError = HttpError(status: int, message: string)

  /**
   * The `catch` of `createRecipe`: any thrown value becomes a 500, with the
   * error's message or "Unknown error".
   */
  function Internal(e: Thrown): (r: HttpError)
    ensures r.status == 500
    ensures e.Error? ==> r.message == e.message
    ensures e.NonError? ==> r.message == "Unknown error"
  {
    HttpError(500, match e case Error(m) => m case NonError => "Unknown error")
  }

  /** What `saveMarkdown` returns. */
  datatype Saved = Saved(slug: string, filePath: string)

  /** What `createRecipe` returns on success. */
  datatype Created = Created(slug: string, filePath: string, recipe: Markdown.RawRecipe)

  // ---------------------------------------------------------------------
  // Properties of a commit run

  /** Without a repository root, or unless auto-commit is exactly "true", nothing happens. */
  lemma CommitSkipped(env: Env, files: map<string, string>, openFails: Option<Thrown>,
                      gitFails: map<GitStep, Thrown>, statusOutput: string, path: string, title: Option<string>)
    requires env.repoRoot.None? || env.repoRoot == Some("") || env.autoCommit != Some("true")
    ensures CommitPlan(env, files, openFails, gitFails, statusOutput, path, title) == CommitRun([], Pass)
  {
  }

  /**
   * When the lock file already exists (another run holds it) the run fails
   * at once: no git command runs and the lock is left alone.
   */
  lemma LockBusy(env: Env, files: map<string, string>, openFails: Option<Thrown>,
                 gitFails: map<GitStep, Thrown>, statusOutput: string, path: string, title: Option<string>)
    requires CommitEnabled(env) && LockPath(env.repoRoot.value) in files
    ensures var plan := CommitPlan(env, files, openFails, gitFails, statusOutput, path, title);
            && plan.events == []
            && plan.outcome == Fail(GitFailure(Error(ExistsMessage(LockPath(env.repoRoot.value)))))
  {
  }

  /**
   * A run that does anything takes the lock first and releases it last;
   * in between it runs a non-empty prefix of rev-parse, add, status,
   * commit, push, and nothing else.
   */
  lemma {:induction false} LockBracketsGit(env: Env, files: map<string, string>, openFails: Option<Thrown>,
                                           gitFails: map<GitStep, Thrown>, statusOutput: string,
                                           path: string, title: Option<string>)
    ensures var plan := CommitPlan(env, files, openFails, gitFails, statusOutput, path, title);
            plan.events != [] <==> CommitEnabled(env) && LockPath(env.repoRoot.value) !in files && openFails.None?
    ensures var plan := CommitPlan(env, files, openFails, gitFails, statusOutput, path, title);
            plan.events != [] ==>
              var lock := LockPath(env.repoRoot.value);
              var cmds := GitScript(env.repoRoot.value, path, CommitMessage(title));
              && 3 <= |plan.events| <= 7
              && plan.events[0] == Locked(lock)
              && plan.events[|plan.events| - 1] == Unlocked(lock)
              && (forall i :: 1 <= i < |plan.events| - 1 ==> plan.events[i] == Ran(cmds[i - 1]))
  {
    var plan := CommitPlan(env, files, openFails, gitFails, statusOutput, path, title);
    if CommitEnabled(env) && LockPath(env.repoRoot.value) !in files && openFails.None? {
      var lock := LockPath(env.repoRoot.value);
      var cmds := GitScript(env.repoRoot.value, path, CommitMessage(title));
      var n := StepsRun(FirstFailure(gitFails, cmds), statusOutput);
      var runs := Runs(cmds[..n]);
      assert plan.events == [Locked(lock)] + runs + [Unlocked(lock)];
      forall i | 1 <= i < |plan.events| - 1
        ensures plan.events[i] == Ran(cmds[i - 1])
      {
        assert plan.events[i] == runs[i - 1];
      }
    }
  }

  /**
   * When rev-parse, add and status succeed but status prints only
   * whitespace, the run stops there and succeeds: nothing is committed
   * or pushed.
   */
  lemma BlankStatusStops(env: Env, files: map<string, string>, gitFails: map<GitStep, Thrown>,
                         statusOutput: string, path: string, title: Option<string>)
    requires CommitEnabled(env) && LockPath(env.repoRoot.value) !in files
    requires RevParseStep !in gitFails && AddStep !in gitFails && StatusStep !in gitFails
    requires Trim(statusOutput) == ""
    ensures var root := env.repoRoot.value;
            var lock := LockPath(root);
            CommitPlan(env, files, None, gitFails, statusOutput, path, title)
              == CommitRun([Locked(lock), Ran(RevParse(root)), Ran(Add(root, path)), Ran(Status(root)), Unlocked(lock)], Pass)
  {
    BlankStatusRuns(gitFails, env.repoRoot.value, path, CommitMessage(title), statusOutput);
  }

  /** `BlankStatusStops` for any commit message: the run stops after the status query. */
  lemma BlankStatusRuns(gitFails: map<GitStep, Thrown>, root: string, path: string, message: string,
                        statusOutput: string)
    requires RevParseStep !in gitFails && AddStep !in gitFails && StatusStep !in gitFails
    requires Trim(statusOutput) == ""
    ensures var cmds := GitScript(root, path, message);
            var k := FirstFailure(gitFails, cmds);
            && StepsRun(k, statusOutput) == 3 && 3 <= k
            && Runs(cmds[..3]) == [Ran(RevParse(root)), Ran(Add(root, path)), Ran(Status(root))]
  {
    var cmds := GitScript(root, path, message);
    var k := FirstFailure(gitFails, cmds);
    assert GitAnswer(gitFails, cmds[0]).Pass? && GitAnswer(gitFails, cmds[1]).Pass? && GitAnswer(gitFails, cmds[2]).Pass?;
    assert k >= 3;
    assert Runs(cmds[..3]) == [Ran(RevParse(root)), Ran(Add(root, path)), Ran(Status(root))];
  }

  /**
   * A complete run: every command succeeds and status reports a change, so
   * the document is staged, committed with the recipe's message and pushed.
   */
  lemma FullRun(env: Env, files: map<string, string>, statusOutput: string, path: string, title: Option<string>)
    requires CommitEnabled(env) && LockPath(env.repoRoot.value) !in files
    requires Trim(statusOutput) != ""
    ensures var root := env.repoRoot.value;
            var lock := LockPath(root);
            CommitPlan(env, files, None, map[], statusOutput, path, title)
              == CommitRun([Locked(lock), Ran(RevParse(root)), Ran(Add(root, path)), Ran(Status(root)),
                            Ran(Commit(root, CommitMessage(title))), Ran(Push(root)), Unlocked(lock)], Pass)
  {
    var root := env.repoRoot.value;
    var cmds := GitScript(root, path, CommitMessage(title));
    var k := FirstFailure(map[], cmds);
    assert k == 5;
    assert cmds[..5] == cmds;
  }

  /**
   * The run succeeds exactly when it is switched off, or it gets the lock
   * and every command it runs succeeds; a failure's message always carries
   * the git prefix.
   */
  lemma {:induction false} CommitOutcome(env: Env, files: map<string, string>, openFails: Option<Thrown>,
                                         gitFails: map<GitStep, Thrown>, statusOutput: string,
                                         path: string, title: Option<string>)
    ensures var plan := CommitPlan(env, files, openFails, gitFails, statusOutput, path, title);
            var k := FirstFailure(gitFails, GitScript(env.repoRoot.GetOr(""), path, CommitMessage(title)));
            plan.outcome.Pass? <==>
              || !CommitEnabled(env)
              || (LockPath(env.repoRoot.value) !in files && openFails.None?
                  && (k == 5 || (k >= 3 && Trim(statusOutput) == "")))
    ensures var plan := CommitPlan(env, files, openFails, gitFails, statusOutput, path, title);
            plan.outcome.Fail? ==> GitFailurePrefix <= plan.outcome.error
  {
  }

  // ---------------------------------------------------------------------
  // Properties of summarize

  /**
   * A recipe object surrounded by chatter with no stray braces is handed to
   * the parser as it is, whichever shape the model output takes.
   */
  lemma {:induction false} SummarizeEmbedded(token: Option<string>, output: Extraction.ModelOutput,
                                             pre: string, obj: string, post: string,
                                             parse: string -> Result<Markdown.RawRecipe, string>)
    requires token.GetOr("") != ""
    requires Extraction.RawText(output) == pre + obj + post
    requires '{' !in pre && '}' !in post
    requires obj != [] && obj[0] == '{' && obj[|obj| - 1] == '}'
    requires parse(obj).Success?
    ensures Summarize(token, Success(output), parse) == Success(parse(obj).value)
  {
    Extraction.EmbeddedObject(pre, obj, post);
  }

  // ---------------------------------------------------------------------
  // The service

  class RecipesService {
    /** The process environment. */
    const env: Env
    /** The file system and git, as the service sees them. */
    const world: World

    constructor(env: Env, world: World)
      ensures this.env == env && this.world == world
    {
      this.env := env;
      this.world := world;
    }

    /** `saveMarkdown`: writes the document under the recipe's slug. */
    method SaveMarkdown(markdown: string, title: Option<string>) returns (r: Result<Saved, Thrown>)
      modifies world
      ensures env.repoRoot.GetOr("") == "" ==> r == Failure(Error(RootMissing))
      ensures env.repoRoot.GetOr("") != "" && world.writeFails.Some? ==> r == Failure(world.writeFails.value)
      ensures r.Failure? ==> world.files == old(world.files) && world.events == old(world.events)
      ensures r.Success? <==> env.repoRoot.GetOr("") != "" && world.writeFails.None?
      ensures r.Success? ==>
                var path := Slugs.MarkdownPath(env.repoRoot.value, Slugs.SlugFor(title));
                && r.value == Saved(Slugs.SlugFor(title), path)
                && world.files == old(world.files)[path := markdown]
                && world.events == old(world.events) + [Wrote(path)]
    {
      var slug := Slugs.SlugFor(title);
      if env.repoRoot.GetOr("") == "" {
        return Failure(Error(RootMissing));
      }
      var filePath := Slugs.MarkdownPath(env.repoRoot.value, slug);
      var written := world.WriteFile(filePath, markdown);
      if written.Fail? {
        return Failure(written.error);
      }
      return Success(Saved(slug, filePath));
    }

    /**
     * `commitAndPushRecipe`: under the lock file, stages the document,
     * commits it and pushes, unless there is nothing to commit. The files
     * on disk are as before whatever happens: the lock is only ever removed
     * by the run that created it.
     */
    method CommitAndPushRecipe(filePath: string, title: Option<string>) returns (r: Outcome<string>)
      modifies world
      ensures var plan := CommitPlan(env, old(world.files), world.openFails, world.gitFails,
                                     world.statusOutput, filePath, title);
              world.events == old(world.events) + plan.events && r == plan.outcome
      ensures world.files == old(world.files)
    {
      ghost var plan := CommitPlan(env, world.files, world.openFails, world.gitFails,
                                   world.statusOutput, filePath, title);
      if env.repoRoot.GetOr("") == "" {
        return Pass;
      }
      var repoRoot := env.repoRoot.value;
      var autoCommit := env.autoCommit == Some("true");
      if !autoCommit {
        return Pass;
      }
      var lockPath := LockPath(repoRoot);
      var lockHandle := false;
      var error: Option<Thrown> := None;
      ghost var start := world.events;
      ghost var cmds := GitScript(repoRoot, filePath, CommitMessage(title));
      ghost var n := StepsRun(FirstFailure(world.gitFails, cmds), world.statusOutput);
      // try
      var lockOpen := world.OpenExclusive(lockPath);
      if lockOpen.Fail? {
        error := Some(lockOpen.error);
      } else {
        lockHandle := true;
        var o := RunGit(repoRoot, filePath, CommitMessage(title));
        if o.Fail? {
          error := Some(o.error);
        }
      }
      // finally
      if lockHandle {
        world.Release(lockPath);
        ReleaseRestores(old(world.files), lockPath);
        Bracket(start, lockPath, Runs(cmds[..n]));
      }
      // catch
      if error.Some? {
        return Fail(GitFailure(error.value));
      }
      return Pass;
    }

    /**
     * The git commands of a commit run, in order, each only if the one
     * before succeeded; the commit and the push only when the status query
     * prints something other than whitespace. The commit message depends
     * only on the title, so the caller builds it up front.
     */
    method RunGit(repoRoot: string, filePath: string, message: string) returns (o: Outcome<Thrown>)
      modifies world
      ensures var cmds := GitScript(repoRoot, filePath, message);
              var k := FirstFailure(world.gitFails, cmds);
              var n := StepsRun(k, world.statusOutput);
              && world.events == old(world.events) + Runs(cmds[..n])
              && o == (if k < n then Fail(world.gitFails[StepOf(cmds[k])]) else Pass)
      ensures world.files == old(world.files)
    {
      ghost var log := world.events;
      ghost var cmds := GitScript(repoRoot, filePath, message);
      ghost var k := FirstFailure(world.gitFails, cmds);
      assert cmds[0] == RevParse(repoRoot) && cmds[1] == Add(repoRoot, filePath) && cmds[2] == Status(repoRoot);
      assert world.events == log + Runs(cmds[..0]);
      var stdout;
      o, stdout := world.Git(RevParse(repoRoot));
      RunsStep(log, cmds, 0);
      if o.Fail? {
        assert k == 0 && StepsRun(k, world.statusOutput) == 1;
        return;
      }
      assert k > 0;
      o, stdout := world.Git(Add(repoRoot, filePath));
      RunsStep(log, cmds, 1);
      if o.Fail? {
        assert k == 1 && StepsRun(k, world.statusOutput) == 2;
        return;
      }
      assert k > 1;
      o, stdout := world.Git(Status(repoRoot));
      RunsStep(log, cmds, 2);
      var statusOutput := stdout;
      if o.Fail? {
        assert k == 2 && StepsRun(k, world.statusOutput) == 3;
        return;
      }
      assert k > 2;
      if Trim(statusOutput) == "" {
        assert StepsRun(k, world.statusOutput) == 3;
        return;
      }
      o := Publish(repoRoot, message, log, cmds);
    }

    /** The commit and the push, the push only if the commit succeeded. */
    method Publish(repoRoot: string, message: string, ghost log: seq<Event>, ghost cmds: seq<GitCommand>)
      returns (o: Outcome<Thrown>)
      requires |cmds| == 5 && cmds[3] == Commit(repoRoot, message) && cmds[4] == Push(repoRoot)
      requires world.events == log + Runs(cmds[..3])
      modifies world
      ensures var n := if GitAnswer(world.gitFails, cmds[3]).Fail? then 4 else 5;
              && world.events == log + Runs(cmds[..n])
              && o == GitAnswer(world.gitFails, cmds[n - 1])
      ensures world.files == old(world.files)
    {
      var stdout;
      o, stdout := world.Git(Commit(repoRoot, message));
      RunsStep(log, cmds, 3);
      if o.Pass? {
        o, stdout := world.Git(Push(repoRoot));
        RunsStep(log, cmds, 4);
      }
    }

    /**
     * `createRecipe`: fetch, summarize, render, save, commit. The page
     * fetch and the model run happen outside the model; their results are
     * the parameters `fetched` and `run`.
     */
    method CreateRecipe(url: string, fetched: Outcome<Thrown>, run: Result<Extraction.ModelOutput, Thrown>,
                        parse: string -> Result<Markdown.RawRecipe, string>)
      returns (r: Result<Created, HttpError>)
      modifies world
      ensures url == "" ==> r == Failure(HttpError(400, UrlRequired))
      ensures url != "" && r.Failure? ==> r.error.status == 500
      ensures url != "" && fetched.Fail? ==> r == Failure(Internal(fetched.error))
      ensures url != "" && fetched.Pass? && Summarize(env.replicateToken, run, parse).Failure? ==>
                r == Failure(Internal(Summarize(env.replicateToken, run, parse).error))
      ensures (url == "" || fetched.Fail? || Summarize(env.replicateToken, run, parse).Failure?
               || env.repoRoot.GetOr("") == "" || world.writeFails.Some?) ==>
                world.files == old(world.files) && world.events == old(world.events)
      ensures url != "" && fetched.Pass? && Summarize(env.replicateToken, run, parse).Success? ==>
                var recipe := Summarize(env.replicateToken, run, parse).value;
                var slug := Slugs.SlugFor(recipe.title);
                && (env.repoRoot.GetOr("") == "" ==> r == Failure(Internal(Error(RootMissing))))
                && (env.repoRoot.GetOr("") != "" && world.writeFails.Some? ==> r == Failure(Internal(world.writeFails.value)))
                && (env.repoRoot.GetOr("") != "" && world.writeFails.None? ==>
                      var path := Slugs.MarkdownPath(env.repoRoot.value, slug);
                      var saved := old(world.files)[path := Markdown.ToMarkdown(recipe)];
                      var plan := CommitPlan(env, saved, world.openFails, world.gitFails, world.statusOutput,
                                             path, recipe.title);
                      && world.files == saved
                      && world.events == old(world.events) + [Wrote(path)] + plan.events
                      && r == (if plan.outcome.Pass? then Success(Created(slug, path, recipe))
                               else Failure(Internal(Error(plan.outcome.error)))))
    {
      if url == "" {
        return Failure(HttpError(400, UrlRequired));
      }
      // try
      if fetched.Fail? {
        return Failure(Internal(fetched.error));
      }
      var summary := Summarize(env.replicateToken, run, parse);
      if summary.Failure? {
        return Failure(Internal(summary.error));
      }
      var recipe := summary.value;
      var md := Markdown.ToMarkdown(recipe);
      var saved := SaveMarkdown(md, recipe.title);
      if saved.Failure? {
        return Failure(Internal(saved.error));
      }
      var committed := CommitAndPushRecipe(saved.value.filePath, recipe.title);
      if committed.Fail? {
        return Failure(Internal(Error(committed.error)));
      }
      return Success(Created(saved.value.slug, saved.value.filePath, recipe));
    }
  }
}
